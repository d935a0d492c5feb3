/**
 The token engine of oauth/as.go, oauth/grants.go and oauth/device.go as threads over one shared
 store. Every store call, epoch access and lock operation is one atomic step; a thread's program
 counter carries the values the source keeps in local variables, and each step may instead report a
 store error without effect. Threads interleave arbitrarily with the clock, with sweeps and with
 bulk revocations.

 Opaque values are drawn when they are saved: a value nobody has seen cannot be presented earlier.
 */
module Engine {
  import opened Options
  import opened TokenStore

  // ---------------------------------------------------------------- consent

  datatype Descriptor = Descriptor(explicitConsent: bool, allowedClients: set<string>)

  /** The scope catalogue and the client registrations at one moment. */
  datatype Registry = Registry(scopes: map<string, Descriptor>, allowed: map<string, set<string>>)

  /** What a subject agreed to: the origin of a rotation family. */
  datatype Consent = Consent(client: string, subject: string, scopes: seq<string>, explicit: seq<string>,
                             requested: Option<seq<string>>, registry: Registry)

  /** Registered, allowed to the client, ticked where required and within what a device asked for. */
  predicate Proper(c: Consent) {
    && c.subject != ""
    && c.client in c.registry.allowed
    && forall sc | sc in c.scopes ::
        && sc in c.registry.scopes
        && (c.registry.scopes[sc].allowedClients == {} || c.client in c.registry.scopes[sc].allowedClients)
        && sc in c.registry.allowed[c.client]
        && (c.registry.scopes[sc].explicitConsent ==> sc in c.explicit)
        && (c.requested.Some? ==> sc in c.requested.value)
  }

  // ---------------------------------------------------------------- state

  const POLL_INTERVAL := 5

  datatype Status = Pending | Approved | Denied

  datatype Device = Device(client: string, scopes: seq<string>, status: Status, subject: string, expires: int,
                           lastPoll: Option<int>)

  /** The serialization key of a presented refresh value. */
  datatype Key = FamilyKey(family: string) | ValueKey(value: string)

  datatype Request =
    | Exchange(client: string, value: string, redirect: string, verifier: string)
    | Poll(client: string, value: string)
    | Refresh(client: string, value: string, scopes: seq<string>)

  /** What a claim has won and a mint is about to spend. */
  datatype Origin = FromCode(value: string) | FromDevice(value: string) | FromRefresh(value: string)

  datatype Job = Job(origin: Origin, client: string, subject: string, scopes: seq<string>,
                     family: Option<string>, key: Option<Key>, epoch: nat)

  datatype Outcome =
    | Refused
    | StoreError(lost: Option<Job>)
    | Issued(job: Job, at: string, rt: string)
    | RolledBack(job: Job, at: string, rt: string)
    | GrantRevoked(subject: string, client: string, bump: nat)
    | Finished

  datatype Pc =
    | Start(req: Request)
    | Looked(req: Request)
    | Ready(req: Request, whose: Option<string>)
    | Captured(req: Request, whose: Option<string>, epoch: nat)
    | Waiting(req: Request, whose: Option<string>, epoch: nat, key: Key)
    | Claiming(req: Request, whose: Option<string>, epoch: nat, key: Key)
    | Reusing(family: string, key: Key)
    | Minting(job: Job)
    | SavedAccess(job: Job, family: string, at: string)
    | SavedPair(job: Job, at: string, rt: string)
    | UndoAccess(job: Job, at: string)
    | RollAccess(job: Job, at: string, rt: string)
    | RollRefresh(job: Job, at: string, rt: string, failed: bool)
    | Leaving(held: Option<Key>, outcome: Outcome)
    | Polling(device: string)
    | Deciding(device: string, status: Status, consent: Option<Consent>)
    | Bumping(subject: string, client: string)
    | Deleting(subject: string, client: string, bump: nat)
    | Owning(client: string, value: string)
    | DeletingAccess(client: string, value: string)
    | DeletingRefresh(client: string, value: string)
    | Done(outcome: Outcome)

  /** The shared state: what store calls, epoch accesses and lock operations read and write. */
  datatype Mem = Mem(
    store: Store,
    devices: map<string, Device>,
    epochs: map<(string, string), nat>,
    locks: map<Key, nat>,
    now: int,
    // History: every value ever drawn or presented, the consent behind each code, approval and
    // family, the families that have had a refresh record, and those a detected reuse has revoked.
    seen: set<string>,
    granted: map<Origin, Consent>,
    roots: map<string, Consent>,
    born: set<string>,
    dead: set<string>)

  datatype State = State(mem: Mem, threads: map<nat, Pc>)

  function EpochOf(s: Mem, subject: string, client: string): nat {
    if (subject, client) in s.epochs then s.epochs[(subject, client)] else 0
  }

  function Init(): State {
    State(Mem(Store(map[], map[], map[], map[]), map[], map[], map[], 0, {}, map[], map[], {}, {}), map[])
  }

  // ---------------------------------------------------------------- operations on the shared state

  /** One atomic operation on the shared state. */
  datatype Effect =
    | Nothing
    | Advance(delta: nat)
    | Present(value: string)
    | PutCode(value: string, code: Code, consent: Consent)
    | PutDevice(value: string, device: Device)
    | TakeCode(value: string)
    | TakeDevice(value: string)
    | TakeRefresh(value: string)
    | PutAccess(value: string, token: Token, root: Option<Consent>)
    | PutRefresh(value: string, token: Token)
    | DropAccess(value: string)
    | DropRefresh(value: string)
    | RevokeFamily(family: string)
    | DeleteGrant(subject: string, client: string)
    | DeleteTokens(client: string, subject: string)
    | Sweep
    | SweepDevices
    | Bump(subject: string, client: string)
    | Acquire(key: Key, t: nat)
    | Release(key: Key)
    | Stamp(value: string)
    | Decide(value: string, status: Status, approval: Option<Consent>)

  function StoreAfter(s: Mem, eff: Effect): Store {
    match eff
    case PutCode(v, code, _) => s.store.(codes := s.store.codes[v := code])
    case TakeCode(v) => s.store.(codes := s.store.codes - {v})
    case TakeRefresh(v) => s.store.ConsumeRefresh(v)
    case PutAccess(v, token, _) => s.store.(access := s.store.access[v := token])
    case PutRefresh(v, token) => s.store.(refresh := s.store.refresh[v := token])
    case DropAccess(v) => s.store.(access := s.store.access - {v})
    case DropRefresh(v) => s.store.DeleteRefresh(v)
    case RevokeFamily(f) => s.store.RevokeFamily(f)
    case DeleteGrant(subject, client) => s.store.DeleteBySubjectClient(subject, client)
    case DeleteTokens(client, subject) => s.store.RevokeTokens(client, subject)
    case Sweep => s.store.SweepExpired(s.now)
    case _ => s.store
  }

  function DevicesAfter(s: Mem, eff: Effect): map<string, Device> {
    match eff
    case PutDevice(v, device) => s.devices[v := device]
    case TakeDevice(v) => s.devices - {v}
    case SweepDevices => Keep(s.devices, (d: Device) => s.now >= d.expires)
    case Stamp(v) => if v in s.devices then s.devices[v := s.devices[v].(lastPoll := Some(s.now))] else s.devices
    case Decide(v, status, approval) =>
      // RecordDecision applies only to a pending record.
      if v !in s.devices || s.devices[v].status != Pending then s.devices
      else if approval.None? then s.devices[v := s.devices[v].(status := status, subject := "", scopes := [])]
      else s.devices[v := s.devices[v].(status := status, subject := approval.value.subject,
                                        scopes := approval.value.scopes)]
    case _ => s.devices
  }

  function LocksAfter(s: Mem, eff: Effect): map<Key, nat> {
    match eff
    case Acquire(key, t) => s.locks[key := t]
    case Release(key) => s.locks - {key}
    case _ => s.locks
  }

  function SeenAfter(s: Mem, eff: Effect): set<string> {
    match eff
    case Present(v) => s.seen + {v}
    case PutCode(v, _, _) => s.seen + {v}
    case PutDevice(v, _) => s.seen + {v}
    case PutAccess(v, token, root) => if root.Some? then s.seen + {v, token.family} else s.seen + {v}
    case PutRefresh(v, _) => s.seen + {v}
    case _ => s.seen
  }

  function GrantedAfter(s: Mem, eff: Effect): map<Origin, Consent> {
    match eff
    case PutCode(v, _, consent) => s.granted[FromCode(v) := consent]
    case Decide(v, _, approval) =>
      if v in s.devices && s.devices[v].status == Pending && approval.Some?
      then s.granted[FromDevice(v) := approval.value]
      else s.granted
    case _ => s.granted
  }

  function Perform(s: Mem, eff: Effect): Mem {
    Mem(
      StoreAfter(s, eff),
      DevicesAfter(s, eff),
      if eff.Bump? then s.epochs[(eff.subject, eff.client) := EpochOf(s, eff.subject, eff.client) + 1] else s.epochs,
      LocksAfter(s, eff),
      if eff.Advance? then s.now + eff.delta else s.now,
      SeenAfter(s, eff),
      GrantedAfter(s, eff),
      if eff.PutAccess? && eff.root.Some? then s.roots[eff.token.family := eff.root.value] else s.roots,
      if eff.PutRefresh? then s.born + {eff.token.family} else s.born,
      if eff.RevokeFamily? then s.dead + {eff.family} else s.dead)
  }

  // ---------------------------------------------------------------- the programs

  datatype Move = Move(pc: Pc, eff: Effect)

  /** What one step may draw: whether its store call succeeds, two fresh values and a lifetime. */
  datatype Draw = Draw(ok: bool, a: string, b: string, ttl: nat)

  predicate CodeBinding(c: Code, req: Request, now: int)
    requires req.Exchange?
  {
    && now < c.expires
    && c.client == req.client
    && c.redirect == req.redirect
    && req.verifier != "" && c.challenge == S256(req.verifier)
  }

  /** The scopes a refresh mints: the request's when it names any, and never wider than the record's. */
  function Narrowed(granted: seq<string>, asked: seq<string>): Option<seq<string>> {
    if asked == [] then Some(granted)
    else if forall sc | sc in asked :: sc in granted then Some(asked)
    else None
  }

  function KeyFor(s: Mem, value: string): Key {
    var family := s.store.RefreshFamily(value, s.now);
    if family.Some? && family.value != "" then FamilyKey(family.value) else ValueKey(value)
  }

  /** The reads that judge a request before anything is spent. */
  function Inspect(s: Mem, req: Request): Pc {
    match req
    case Exchange(client, v, _, _) =>
      if v in s.store.codes && CodeBinding(s.store.codes[v], req, s.now)
      then Ready(req, Some(s.store.codes[v].subject)) else Done(Refused)
    case Refresh(client, v, _) =>
      var owner := s.store.TokenOwner(v);
      if owner.Some? && owner.value != client then Done(Refused) else Looked(req)
    case Poll(client, v) =>
      if v !in s.devices || s.devices[v].client != client || s.now >= s.devices[v].expires then Done(Refused)
      else match s.devices[v].status
        case Denied => Done(Refused)
        // A poll that comes too soon is told to slow down and is not stamped.
        case Pending =>
          if s.devices[v].lastPoll.Some? && s.now < s.devices[v].lastPoll.value + POLL_INTERVAL
          then Done(Refused) else Polling(v)
        case Approved => Ready(req, Some(s.devices[v].subject))
  }

  /** ConsumeCode or ConsumeDevice: the delete decides who may mint. */
  function ClaimGrant(s: Mem, req: Request, epoch: nat): Move
    requires !req.Refresh?
  {
    var v := req.value;
    match req
    case Exchange(client, _, _, _) =>
      if v !in s.store.codes then Move(Done(Refused), Nothing)
      else
        var c := s.store.codes[v];
        Move(if CodeBinding(c, req, s.now)
             then Minting(Job(FromCode(v), client, c.subject, c.scopes, None, None, epoch))
             else Done(Refused), TakeCode(v))
    case Poll(client, _) =>
      if v !in s.devices || s.devices[v].status != Approved then Move(Done(Refused), Nothing)
      else
        var d := s.devices[v];
        Move(Minting(Job(FromDevice(v), client, d.subject, d.scopes, None, None, epoch)), TakeDevice(v))
  }

  /** ConsumeRefresh under the family lock: rotate, detect a reuse, or refuse. */
  function ClaimRefresh(s: Mem, req: Request, epoch: nat, key: Key): Move
    requires req.Refresh?
  {
    var v := req.value;
    match s.store.RefreshClaim(v, s.now)
    case Unknown => Move(Leaving(Some(key), Refused), Nothing)
    case Reused(family) => Move(Reusing(family, key), Nothing)
    case Live(rt) =>
      var scopes := Narrowed(rt.scopes, req.scopes);
      Move(if s.now < rt.expires && rt.client == req.client && scopes.Some?
           then Minting(Job(FromRefresh(v), req.client, rt.subject, scopes.value, Some(rt.family), Some(key), epoch))
           else Leaving(Some(key), Refused), TakeRefresh(v))
  }

  function Mint(s: Mem, job: Job, d: Draw): Move {
    var family := if job.family.Some? then job.family.value else d.b;
    var root := if job.family.None? && job.origin in s.granted then Some(s.granted[job.origin]) else None;
    Move(SavedAccess(job, family, d.a),
         PutAccess(d.a, Token(job.client, job.subject, job.scopes, family, s.now, s.now + d.ttl), root))
  }

  /** The next step of the thread at `pc`. A failed store call has no effect. */
  function Act(s: Mem, t: nat, pc: Pc, d: Draw): Move {
    match pc
    case Start(req) => Move(if d.ok then Inspect(s, req) else Done(StoreError(None)), Nothing)
    case Looked(req) =>
      // GetRefresh: an error leaves the epoch uncaptured, like a value that is not found.
      Move(if d.ok && req.value in s.store.refresh then Ready(req, Some(s.store.refresh[req.value].subject))
           else Captured(req, None, 0), Nothing)
    case Ready(req, whose) =>
      Move(Captured(req, whose, if whose.Some? then EpochOf(s, whose.value, req.client) else 0), Nothing)
    case Captured(req, whose, epoch) =>
      if !d.ok then Move(Done(StoreError(None)), Nothing)
      else if req.Refresh? then Move(Waiting(req, whose, epoch, KeyFor(s, req.value)), Nothing)
      else ClaimGrant(s, req, epoch)
    case Waiting(req, whose, epoch, key) =>
      if key in s.locks then Move(pc, Nothing) else Move(Claiming(req, whose, epoch, key), Acquire(key, t))
    case Claiming(req, _, epoch, key) =>
      if d.ok && req.Refresh? then ClaimRefresh(s, req, epoch, key)
      else Move(Leaving(Some(key), StoreError(None)), Nothing)
    case Reusing(family, key) =>
      if d.ok then Move(Leaving(Some(key), Refused), RevokeFamily(family))
      else Move(Leaving(Some(key), StoreError(None)), Nothing)
    case Minting(job) =>
      if d.ok then Mint(s, job, d) else Move(Leaving(job.key, StoreError(Some(job))), Nothing)
    case SavedAccess(job, family, at) =>
      if d.ok then
        Move(SavedPair(job, at, d.a),
             PutRefresh(d.a, Token(job.client, job.subject, job.scopes, family, s.now, s.now + d.ttl)))
      else Move(UndoAccess(job, at), Nothing)
    case SavedPair(job, at, rt) =>
      Move(if EpochOf(s, job.subject, job.client) == job.epoch then Leaving(job.key, Issued(job, at, rt))
           else RollAccess(job, at, rt), Nothing)
    case UndoAccess(job, at) => Move(Leaving(job.key, StoreError(Some(job))), if d.ok then DropAccess(at) else Nothing)
    case RollAccess(job, at, rt) =>
      // A failed delete does not stop the second one, but the outcome is then an error.
      Move(RollRefresh(job, at, rt, !d.ok), if d.ok then DropAccess(at) else Nothing)
    case RollRefresh(job, at, rt, failed) =>
      Move(Leaving(job.key, if d.ok && !failed then RolledBack(job, at, rt) else StoreError(Some(job))),
           if d.ok then DropRefresh(rt) else Nothing)
    case Leaving(held, outcome) => Move(Done(outcome), if held.Some? then Release(held.value) else Nothing)
    case Polling(device) => if d.ok then Move(Done(Refused), Stamp(device)) else Move(Done(StoreError(None)), Nothing)
    case Deciding(device, status, consent) =>
      if d.ok then Move(Done(Finished), Decide(device, status, consent)) else Move(Done(StoreError(None)), Nothing)
    case Bumping(subject, client) =>
      Move(Deleting(subject, client, EpochOf(s, subject, client) + 1), Bump(subject, client))
    case Deleting(subject, client, bump) =>
      if d.ok then Move(Done(GrantRevoked(subject, client, bump)), DeleteGrant(subject, client))
      else Move(Done(StoreError(None)), Nothing)
    case Owning(client, value) =>
      var owner := s.store.TokenOwner(value);
      var resolved := if owner.Some? then owner else s.store.SpentRefreshOwner(value, s.now);
      Move(if !d.ok then Done(StoreError(None))
           else if resolved == Some(client) then DeletingAccess(client, value)
           else Done(Finished), Nothing)
    case DeletingAccess(client, value) =>
      if d.ok then Move(DeletingRefresh(client, value), DropAccess(value)) else Move(Done(StoreError(None)), Nothing)
    case DeletingRefresh(_, value) =>
      if d.ok then Move(Done(Finished), DropRefresh(value)) else Move(Done(StoreError(None)), Nothing)
    case Done(_) => Move(pc, Nothing)
  }

  // ---------------------------------------------------------------- runs

  /** Either a thread takes a step, or a request arrives, or the environment acts. */
  datatype Event =
    | Step(t: nat, draw: Draw)
    | Submit(t: nat, pc: Pc)
    | Environment(eff: Effect)

  predicate Undecided(s: Mem, device: string) {
    device in s.devices && s.now < s.devices[device].expires && s.devices[device].status == Pending
  }

  /** What DecideDeviceAuthorization checks on the record it read before it records a decision. */
  predicate Decidable(s: Mem, device: string, status: Status, consent: Option<Consent>) {
    && Undecided(s, device)
    && (if consent.None? then status == Denied
        else
          && status == Approved && Proper(consent.value)
          && consent.value.client == s.devices[device].client
          && consent.value.requested == Some(s.devices[device].scopes))
  }

  /** Requests as they arrive; a decision has already read the pending record. */
  predicate Arrives(s: Mem, pc: Pc) {
    match pc
    case Start(_) => true
    case Deciding(device, status, consent) => Decidable(s, device, status, consent)
    case Bumping(_, _) => true
    case Owning(_, _) => true
    case _ => false
  }

  /** The clock, new authorizations and device requests, sweeps and the operator's bulk revocation. */
  predicate Ambient(s: Mem, eff: Effect) {
    match eff
    case Advance(_) => true
    case PutCode(v, code, consent) =>
      v !in s.seen && Proper(consent) && code.client == consent.client && code.subject == consent.subject
        && code.scopes == consent.scopes
    case PutDevice(v, device) => v !in s.seen && device.status == Pending
    case Sweep => true
    case SweepDevices => true
    case DeleteTokens(_, _) => true
    case _ => false
  }

  /** Draws are fresh: never drawn and never presented before. */
  predicate Fresh(s: Mem, d: Draw) {
    d.a != d.b && d.b != "" && d.a !in s.seen && d.b !in s.seen
  }

  predicate Enabled(s: State, e: Event) {
    match e
    case Step(t, d) => t in s.threads && Fresh(s.mem, d)
    case Submit(t, pc) => t !in s.threads && Arrives(s.mem, pc)
    case Environment(eff) => Ambient(s.mem, eff)
  }

  /** The value a request carries. */
  function Carried(pc: Pc): Effect {
    match pc
    case Start(req) => Present(req.value)
    case Owning(_, v) => Present(v)
    case _ => Nothing
  }

  function Do(s: State, e: Event): State
    requires Enabled(s, e)
  {
    match e
    case Step(t, d) =>
      var m := Act(s.mem, t, s.threads[t], d);
      State(Perform(s.mem, m.eff), s.threads[t := m.pc])
    case Submit(t, pc) => State(Perform(s.mem, Carried(pc)), s.threads[t := pc])
    case Environment(eff) => State(Perform(s.mem, eff), s.threads)
  }
}
