/**
 What every step of the token engine keeps. `Extends` is the one relation all steps satisfy: values
 are never saved twice and records never change, so facts a thread has read can only become moot.
 */
module EngineInv {
  import opened Options
  import opened TokenStore
  import opened Engine

  // ---------------------------------------------------------------- monotonicity

  ghost predicate SameRecords<T>(m: map<string, T>, n: map<string, T>, seen: set<string>) {
    forall v | v in n :: (v in m && n[v] == m[v]) || v !in seen
  }

  /** A device record keeps its client and its deadline; a decision is made at most once and never revised. */
  ghost predicate SameDecision(d: Device, e: Device) {
    && e.client == d.client && e.expires == d.expires
    && (d.status != Pending || e.status == Pending ==>
          e.status == d.status && e.subject == d.subject && e.scopes == d.scopes)
  }

  ghost predicate ExtendsStore(s: Mem, u: Mem) {
    && SameRecords(s.store.codes, u.store.codes, s.seen)
    && SameRecords(s.store.access, u.store.access, s.seen)
    && SameRecords(s.store.refresh, u.store.refresh, s.seen)
    && (forall v | v in u.store.tombs ::
          (v in s.store.tombs && u.store.tombs[v] == s.store.tombs[v])
          || (v in s.store.refresh && u.store.tombs[v] == TombOf(s.store.refresh[v])))
  }

  ghost predicate ExtendsDevices(s: Mem, u: Mem) {
    forall v | v in u.devices :: (v in s.devices && SameDecision(s.devices[v], u.devices[v])) || v !in s.seen
  }

  ghost predicate ExtendsHistory(s: Mem, u: Mem) {
    && s.now <= u.now && s.seen <= u.seen && s.born <= u.born && s.dead <= u.dead
    && (forall sub, c :: EpochOf(s, sub, c) <= EpochOf(u, sub, c))
    && (forall o | o in s.granted :: o in u.granted && u.granted[o] == s.granted[o])
    && (forall f | f in s.roots :: f in u.roots && u.roots[f] == s.roots[f])
  }

  ghost predicate Extends(s: Mem, u: Mem) {
    ExtendsStore(s, u) && ExtendsDevices(s, u) && ExtendsHistory(s, u)
  }

  // ---------------------------------------------------------------- the store

  /** The record descends from consent c: same client and subject, scopes within the grant. */
  predicate Under(c: Consent, client: string, subject: string, scopes: seq<string>) {
    client == c.client && subject == c.subject && forall sc | sc in scopes :: sc in c.scopes
  }

  ghost predicate TokenOK(s: Mem, t: Token) {
    t.family in s.roots && Under(s.roots[t.family], t.client, t.subject, t.scopes)
  }

  ghost predicate DeviceOK(s: Mem, v: string, d: Device) {
    if d.status == Approved then
      FromDevice(v) in s.granted && s.granted[FromDevice(v)].client == d.client
      && s.granted[FromDevice(v)].subject == d.subject && s.granted[FromDevice(v)].scopes == d.scopes
    else FromDevice(v) !in s.granted
  }

  ghost predicate CodeOK(s: Mem, v: string, c: Code) {
    FromCode(v) in s.granted && s.granted[FromCode(v)].client == c.client
    && s.granted[FromCode(v)].subject == c.subject && s.granted[FromCode(v)].scopes == c.scopes
  }

  ghost predicate HistoryOK(s: Mem) {
    && (forall o | o in s.granted :: !o.FromRefresh? && o.value in s.seen && Proper(s.granted[o]))
    && (forall f | f in s.roots :: f in s.seen && f != "" && Proper(s.roots[f]))
    && (forall f | f in s.born :: f in s.roots)
    && s.dead <= s.born
  }

  ghost predicate CodesOK(s: Mem) {
    forall v | v in s.store.codes :: v in s.seen && CodeOK(s, v, s.store.codes[v])
  }

  ghost predicate DevicesOK(s: Mem) {
    forall v | v in s.devices :: v in s.seen && DeviceOK(s, v, s.devices[v])
  }

  ghost predicate TokensOK(s: Mem) {
    && (forall v | v in s.store.access :: v in s.seen && TokenOK(s, s.store.access[v]))
    && (forall v | v in s.store.refresh ::
          v in s.seen && TokenOK(s, s.store.refresh[v]) && s.store.refresh[v].family in s.born)
  }

  ghost predicate TombsOK(s: Mem) {
    forall v | v in s.store.tombs :: v in s.seen && v !in s.store.refresh && TombOK(s, s.store.tombs[v])
  }

  ghost predicate TombOK(s: Mem, t: Tomb) {
    t.family in s.born && t.family in s.roots && Under(s.roots[t.family], t.client, t.subject, [])
  }

  /** No value names two things. */
  ghost predicate DistinctOK(s: Mem) {
    forall v | v in s.store.access :: v !in s.store.refresh && v !in s.store.tombs
  }

  ghost predicate StoreOK(s: Mem) {
    CodesOK(s) && DevicesOK(s) && TokensOK(s) && TombsOK(s) && HistoryOK(s) && DistinctOK(s)
  }

  // ---------------------------------------------------------------- one thread

  /** The subject a thread has read for its request still is the one a claim would return. */
  ghost predicate WhoseOK(s: Mem, req: Request, whose: Option<string>) {
    whose.Some? ==>
      match req
      case Exchange(_, v, _, _) => v in s.store.codes ==> s.store.codes[v].subject == whose.value
      case Poll(_, v) =>
        v in s.devices ==>
          s.devices[v].status == Approved && s.devices[v].subject == whose.value && s.devices[v].client == req.client
      case Refresh(_, v, _) => v in s.store.refresh ==> s.store.refresh[v].subject == whose.value
  }

  /** What the request would spend was issued to its client. */
  ghost predicate OwnedOK(s: Mem, req: Request) {
    match req
    case Exchange(client, v, _, _) => v in s.store.codes ==> s.store.codes[v].client == client
    case Poll(client, v) => v in s.devices ==> s.devices[v].client == client
    case Refresh(client, v, _) => v in s.store.refresh ==> s.store.refresh[v].client == client
  }

  /** Whatever the value names belongs to the client. */
  ghost predicate MineOK(s: Mem, client: string, v: string) {
    && v in s.seen
    && (v in s.store.access ==> s.store.access[v].client == client)
    && (v in s.store.refresh ==> s.store.refresh[v].client == client)
    && (v in s.store.tombs ==> s.store.tombs[v].client == client)
  }

  ghost predicate EpochOK(s: Mem, req: Request, whose: Option<string>, epoch: nat) {
    if whose.Some? then epoch <= EpochOf(s, whose.value, req.client) else req.Refresh? && epoch == 0
  }

  /** The lock key names the family the value belongs to, live or spent, or the value can never be claimed. */
  ghost predicate KeyOK(s: Mem, v: string, key: Key) {
    match key
    case FamilyKey(f) =>
      && f in s.born
      && (v in s.store.refresh ==> s.store.refresh[v].family == f)
      && (v in s.store.tombs ==> s.store.tombs[v].family == f)
    case ValueKey(w) =>
      && w == v && v !in s.store.refresh
      && (v in s.store.tombs ==> s.store.tombs[v].expires <= s.now)
  }

  ghost predicate JobOK(s: Mem, job: Job) {
    && job.origin.value in s.seen
    && job.epoch <= EpochOf(s, job.subject, job.client)
    && (match job.origin
        case FromCode(v) => v !in s.store.codes
        case FromDevice(v) => v !in s.devices
        case FromRefresh(v) => v !in s.store.refresh)
    && (match job.family
        case None =>
          && job.key == None && job.origin in s.granted
          && s.granted[job.origin].client == job.client && s.granted[job.origin].subject == job.subject
          && s.granted[job.origin].scopes == job.scopes
        case Some(f) =>
          && job.key == Some(FamilyKey(f)) && job.origin.FromRefresh?
          && f in s.born && f in s.roots && Under(s.roots[f], job.client, job.subject, job.scopes))
  }

  /** The record is exactly what the job was to mint. */
  predicate Minted(t: Token, job: Job) {
    t.client == job.client && t.subject == job.subject && t.scopes == job.scopes
  }

  ghost predicate WroteOK(s: Mem, job: Job, at: string) {
    at in s.seen && (at in s.store.access ==> Minted(s.store.access[at], job))
  }

  ghost predicate PairOK(s: Mem, job: Job, at: string, rt: string) {
    && JobOK(s, job) && WroteOK(s, job, at) && rt in s.seen
    && (rt in s.store.refresh ==> Minted(s.store.refresh[rt], job))
  }

  ghost predicate OutcomeOK(s: Mem, o: Outcome) {
    match o
    case Refused => true
    case Finished => true
    case StoreError(lost) => lost.Some? ==> JobOK(s, lost.value)
    case Issued(job, at, rt) => PairOK(s, job, at, rt)
    case RolledBack(job, at, rt) => PairOK(s, job, at, rt) && at !in s.store.access && rt !in s.store.refresh
    case GrantRevoked(subject, client, bump) => bump <= EpochOf(s, subject, client)
  }

  ghost predicate ThreadOK(s: Mem, pc: Pc) {
    match pc
    case Start(req) => req.value in s.seen
    case Looked(req) => req.value in s.seen && OwnedOK(s, req) && req.Refresh?
    case Ready(req, whose) => req.value in s.seen && OwnedOK(s, req) && WhoseOK(s, req, whose) && whose.Some?
    case Captured(req, whose, epoch) =>
      req.value in s.seen && OwnedOK(s, req) && WhoseOK(s, req, whose) && EpochOK(s, req, whose, epoch)
    case Waiting(req, whose, epoch, key) =>
      && req.value in s.seen && OwnedOK(s, req) && WhoseOK(s, req, whose) && EpochOK(s, req, whose, epoch)
      && req.Refresh? && KeyOK(s, req.value, key)
    case Claiming(req, whose, epoch, key) =>
      && req.value in s.seen && OwnedOK(s, req) && WhoseOK(s, req, whose) && EpochOK(s, req, whose, epoch)
      && req.Refresh? && KeyOK(s, req.value, key)
    case Reusing(family, key) => key == FamilyKey(family) && family in s.born
    case Minting(job) => JobOK(s, job)
    case SavedAccess(job, family, at) =>
      && JobOK(s, job) && WroteOK(s, job, at)
      && family in s.roots && Under(s.roots[family], job.client, job.subject, job.scopes)
      && (job.family.Some? ==> family == job.family.value)
    case SavedPair(job, at, rt) => PairOK(s, job, at, rt)
    case UndoAccess(job, at) => JobOK(s, job)
    case RollAccess(job, at, rt) => PairOK(s, job, at, rt)
    case RollRefresh(job, at, rt, failed) => PairOK(s, job, at, rt) && (!failed ==> at !in s.store.access)
    case Leaving(_, outcome) => OutcomeOK(s, outcome)
    case Polling(_) => true
    case Deciding(device, status, consent) =>
      && device in s.seen
      && (if consent.Some? then status == Approved && Proper(consent.value) else status == Denied)
      && (consent.Some? && device in s.devices ==> consent.value.client == s.devices[device].client)
    case Bumping(_, _) => true
    case Deleting(subject, client, bump) => bump <= EpochOf(s, subject, client)
    case Owning(_, v) => v in s.seen
    case DeletingAccess(client, v) => MineOK(s, client, v)
    case DeletingRefresh(client, v) => MineOK(s, client, v)
    case Done(outcome) => OutcomeOK(s, outcome)
  }

  ghost predicate ThreadsOK(s: State) {
    forall t | t in s.threads :: ThreadOK(s.mem, s.threads[t])
  }

  lemma ExtendsKeepsRequest(s: Mem, u: Mem, req: Request, whose: Option<string>, epoch: nat, key: Key)
    requires Extends(s, u) && req.value in s.seen
    ensures req.value in u.seen
    ensures OwnedOK(s, req) ==> OwnedOK(u, req)
    ensures WhoseOK(s, req, whose) ==> WhoseOK(u, req, whose)
    ensures EpochOK(s, req, whose, epoch) ==> EpochOK(u, req, whose, epoch)
    ensures KeyOK(s, req.value, key) ==> KeyOK(u, req.value, key)
  {
  }

  lemma ExtendsKeepsMine(s: Mem, u: Mem, client: string, v: string)
    requires Extends(s, u) && MineOK(s, client, v)
    ensures MineOK(u, client, v)
  {
    hide ExtendsDevices;
  }

  lemma ExtendsKeepsJob(s: Mem, u: Mem, job: Job, family: string)
    requires Extends(s, u) && JobOK(s, job)
    ensures JobOK(u, job)
    ensures family in s.roots ==> family in u.roots && u.roots[family] == s.roots[family]
  {
  }

  lemma ExtendsKeepsPair(s: Mem, u: Mem, job: Job, at: string, rt: string)
    requires Extends(s, u)
    ensures WroteOK(s, job, at) ==> WroteOK(u, job, at)
    ensures PairOK(s, job, at, rt) ==> PairOK(u, job, at, rt)
    ensures at in s.seen && at !in s.store.access ==> at !in u.store.access
    ensures rt in s.seen && rt !in s.store.refresh ==> rt !in u.store.refresh
  {
    hide ExtendsDevices, ExtendsHistory, JobOK;
    if JobOK(s, job) {
      ExtendsKeepsJob(s, u, job, "");
    }
    SeenGrows(s, u);
  }

  lemma SeenGrows(s: Mem, u: Mem)
    requires Extends(s, u)
    ensures s.seen <= u.seen && s.born <= u.born && forall sub, c :: EpochOf(s, sub, c) <= EpochOf(u, sub, c)
    ensures forall v | v in s.seen && v in u.devices :: v in s.devices && u.devices[v].client == s.devices[v].client
  {
  }

  lemma ExtendsKeepsOutcome(s: Mem, u: Mem, o: Outcome)
    requires Extends(s, u) && OutcomeOK(s, o)
    ensures OutcomeOK(u, o)
  {
    hide Extends, JobOK, WroteOK;
    SeenGrows(s, u);
    match o
    case StoreError(lost) =>
      if lost.Some? {
        ExtendsKeepsJob(s, u, lost.value, "");
      }
    case Issued(job, at, rt) => ExtendsKeepsPair(s, u, job, at, rt);
    case RolledBack(job, at, rt) =>
      ExtendsKeepsPair(s, u, job, at, rt);
      PairSeen(s, job, at, rt);
    case _ =>
  }

  /** Everything that is said of a thread survives whatever the others do. */
  lemma ExtendsKeepsThread(s: Mem, u: Mem, pc: Pc)
    requires Extends(s, u) && ThreadOK(s, pc)
    ensures ThreadOK(u, pc)
  {
    hide Extends, WhoseOK, OwnedOK, MineOK, EpochOK, KeyOK, JobOK, WroteOK, PairOK, OutcomeOK, Under;
    SeenGrows(s, u);
    match pc
    case Looked(req) => ExtendsKeepsRequest(s, u, req, None, 0, ValueKey(""));
    case DeletingAccess(client, v) => ExtendsKeepsMine(s, u, client, v);
    case DeletingRefresh(client, v) => ExtendsKeepsMine(s, u, client, v);
    case Ready(req, whose) => ExtendsKeepsRequest(s, u, req, whose, 0, ValueKey(""));
    case Captured(req, whose, epoch) => ExtendsKeepsRequest(s, u, req, whose, epoch, ValueKey(""));
    case Waiting(req, whose, epoch, key) => ExtendsKeepsRequest(s, u, req, whose, epoch, key);
    case Claiming(req, whose, epoch, key) => ExtendsKeepsRequest(s, u, req, whose, epoch, key);
    case Minting(job) => ExtendsKeepsJob(s, u, job, "");
    case SavedAccess(job, family, at) =>
      ExtendsKeepsJob(s, u, job, family);
      ExtendsKeepsPair(s, u, job, at, "");
    case SavedPair(job, at, rt) => ExtendsKeepsPair(s, u, job, at, rt);
    case UndoAccess(job, at) => ExtendsKeepsJob(s, u, job, "");
    case RollAccess(job, at, rt) => ExtendsKeepsPair(s, u, job, at, rt);
    case RollRefresh(job, at, rt, failed) =>
      ExtendsKeepsPair(s, u, job, at, rt);
      assert at in s.seen by { PairSeen(s, job, at, rt); }
    case Leaving(_, outcome) => ExtendsKeepsOutcome(s, u, outcome);
    case Done(outcome) => ExtendsKeepsOutcome(s, u, outcome);
    case _ =>
  }

  lemma PairSeen(s: Mem, job: Job, at: string, rt: string)
    requires PairOK(s, job, at, rt)
    ensures at in s.seen && rt in s.seen && JobOK(s, job)
  {
  }

  // ---------------------------------------------------------------- one operation

  /** What an operation must satisfy for the store to stay consistent. */
  ghost predicate EffectOK(s: Mem, eff: Effect) {
    match eff
    case PutCode(v, code, consent) =>
      v !in s.seen && Proper(consent) && code.client == consent.client && code.subject == consent.subject
        && code.scopes == consent.scopes
    case PutDevice(v, device) => v !in s.seen && device.status == Pending
    case PutAccess(v, token, root) =>
      && v !in s.seen
      && (if root.Some? then token.family !in s.seen && token.family != "" && token.family != v && Proper(root.value)
                             && Under(root.value, token.client, token.subject, token.scopes)
          else TokenOK(s, token))
    case PutRefresh(v, token) => v !in s.seen && TokenOK(s, token)
    case RevokeFamily(f) => f in s.born
    case Decide(v, status, consent) =>
      && v in s.seen
      && (if consent.Some? then status == Approved && Proper(consent.value) else status == Denied)
      && (consent.Some? && v in s.devices ==> consent.value.client == s.devices[v].client)
    case _ => true
  }

  lemma SeenOnlyGrows(s: Mem, eff: Effect)
    ensures s.seen <= SeenAfter(s, eff)
    ensures Adds(eff) ==> eff.value in SeenAfter(s, eff)
  {
  }

  predicate Adds(eff: Effect) {
    eff.PutCode? || eff.PutDevice? || eff.PutAccess? || eff.PutRefresh?
  }

  lemma KeepsHistory(s: Mem, eff: Effect)
    requires HistoryOK(s) && DevicesOK(s) && EffectOK(s, eff)
    ensures HistoryOK(Perform(s, eff))
  {
    hide StoreAfter, DevicesAfter, LocksAfter, Proper, Under, DeviceOK;
  }

  lemma KeepsCodes(s: Mem, eff: Effect)
    requires CodesOK(s) && EffectOK(s, eff)
    ensures CodesOK(Perform(s, eff))
  {
    hide DevicesAfter, LocksAfter, SeenAfter, Proper, Under;
    SeenOnlyGrows(s, eff);
  }

  lemma KeepsDevices(s: Mem, eff: Effect)
    requires DevicesOK(s) && HistoryOK(s) && EffectOK(s, eff)
    ensures DevicesOK(Perform(s, eff))
  {
    hide StoreAfter, LocksAfter, SeenAfter, Proper, Under;
    SeenOnlyGrows(s, eff);
  }

  lemma KeepsTokens(s: Mem, eff: Effect)
    requires TokensOK(s) && HistoryOK(s) && EffectOK(s, eff)
    ensures TokensOK(Perform(s, eff))
  {
    hide Perform, TokenOK, HistoryOK, EffectOK;
    KeepsAccess(s, eff);
    KeepsRefresh(s, eff);
  }

  lemma KeepsAccess(s: Mem, eff: Effect)
    requires TokensOK(s) && HistoryOK(s) && EffectOK(s, eff)
    ensures var n := Perform(s, eff); forall v | v in n.store.access :: v in n.seen && TokenOK(n, n.store.access[v])
  {
    hide DevicesAfter, LocksAfter, SeenAfter, GrantedAfter, Proper, Under;
    SeenOnlyGrows(s, eff);
  }

  lemma KeepsRefresh(s: Mem, eff: Effect)
    requires TokensOK(s) && HistoryOK(s) && EffectOK(s, eff)
    ensures var n := Perform(s, eff);
            forall v | v in n.store.refresh ::
              v in n.seen && TokenOK(n, n.store.refresh[v]) && n.store.refresh[v].family in n.born
  {
    hide DevicesAfter, LocksAfter, SeenAfter, GrantedAfter, Proper, Under;
    SeenOnlyGrows(s, eff);
  }

  lemma KeepsTombs(s: Mem, eff: Effect)
    requires TombsOK(s) && TokensOK(s) && HistoryOK(s) && EffectOK(s, eff)
    ensures TombsOK(Perform(s, eff))
  {
    hide DevicesAfter, LocksAfter, SeenAfter, GrantedAfter, Proper;
    SeenOnlyGrows(s, eff);
  }

  lemma KeepsDistinct(s: Mem, eff: Effect)
    requires DistinctOK(s) && TokensOK(s) && TombsOK(s) && EffectOK(s, eff)
    ensures DistinctOK(Perform(s, eff))
  {
    hide DevicesAfter, LocksAfter, SeenAfter, GrantedAfter, Proper, Under, TokenOK, TombOK;
  }

  lemma PerformExtendsStore(s: Mem, eff: Effect)
    requires EffectOK(s, eff)
    ensures ExtendsStore(s, Perform(s, eff))
  {
    hide DevicesAfter, LocksAfter, SeenAfter, GrantedAfter, Proper, Under;
  }

  lemma PerformExtendsHistory(s: Mem, eff: Effect)
    requires DevicesOK(s) && HistoryOK(s) && EffectOK(s, eff)
    ensures ExtendsDevices(s, Perform(s, eff)) && ExtendsHistory(s, Perform(s, eff))
  {
    hide Proper, Under, StoreAfter;
  }

  lemma PerformKeepsStore(s: Mem, eff: Effect)
    requires StoreOK(s) && EffectOK(s, eff)
    ensures Extends(s, Perform(s, eff)) && StoreOK(Perform(s, eff))
  {
    hide CodesOK, DevicesOK, TokensOK, TombsOK, HistoryOK, DistinctOK, ExtendsStore, ExtendsDevices, ExtendsHistory;
    hide Perform, EffectOK;
    PerformExtendsStore(s, eff);
    PerformExtendsHistory(s, eff);
    KeepsHistory(s, eff);
    KeepsCodes(s, eff);
    KeepsDevices(s, eff);
    KeepsTokens(s, eff);
    KeepsTombs(s, eff);
    KeepsDistinct(s, eff);
  }

  // ---------------------------------------------------------------- one thread's next step

  lemma NothingOK(s: Mem)
    ensures EffectOK(s, Nothing)
  {
  }

  lemma NothingIsNothing(s: Mem)
    ensures Perform(s, Nothing) == s
  {
  }

  lemma InspectOK(s: Mem, req: Request)
    requires req.value in s.seen && StoreOK(s)
    ensures ThreadOK(s, Inspect(s, req))
  {
    hide CodesOK, TokensOK, TombsOK, HistoryOK, Proper, Under;
  }

  lemma KeyForOK(s: Mem, v: string)
    requires StoreOK(s)
    ensures KeyOK(s, v, KeyFor(s, v))
  {
    hide CodesOK, DevicesOK, Proper, Under;
  }

  lemma ClaimGrantOK(s: Mem, req: Request, whose: Option<string>, epoch: nat)
    requires StoreOK(s) && ThreadOK(s, Captured(req, whose, epoch)) && !req.Refresh?
    ensures var m := ClaimGrant(s, req, epoch); EffectOK(s, m.eff) && ThreadOK(Perform(s, m.eff), m.pc)
  {
    hide TokensOK, TombsOK, HistoryOK, Proper, Under, LocksAfter;
  }

  lemma ClaimRefreshOK(s: Mem, req: Request, whose: Option<string>, epoch: nat, key: Key)
    requires StoreOK(s) && ThreadOK(s, Claiming(req, whose, epoch, key))
    ensures var m := ClaimRefresh(s, req, epoch, key); EffectOK(s, m.eff) && ThreadOK(Perform(s, m.eff), m.pc)
  {
    hide CodesOK, DevicesOK, HistoryOK, Proper, LocksAfter, DevicesAfter, GrantedAfter;
    assert forall f | f in s.born :: f in s.roots by { HistoryPart(s); }
  }

  lemma HistoryPart(s: Mem)
    requires StoreOK(s)
    ensures forall f | f in s.born :: f in s.roots
  {
  }

  lemma MintEffectOK(s: Mem, job: Job, d: Draw)
    requires HistoryOK(s) && JobOK(s, job) && Fresh(s, d)
    ensures EffectOK(s, Mint(s, job, d).eff)
  {
  }

  lemma MintOK(s: Mem, job: Job, d: Draw)
    requires StoreOK(s) && JobOK(s, job) && Fresh(s, d)
    ensures var m := Mint(s, job, d); EffectOK(s, m.eff) && ThreadOK(Perform(s, m.eff), m.pc)
  {
    var m := Mint(s, job, d);
    MintEffectOK(s, job, d);
    PerformExtendsStore(s, m.eff);
    PerformExtendsHistory(s, m.eff);
    hide Extends, StoreOK, EffectOK, Proper, LocksAfter, DevicesAfter, GrantedAfter;
    ExtendsKeepsJob(s, Perform(s, m.eff), job, "");
  }

  lemma SaveRefreshOK(s: Mem, job: Job, family: string, at: string, rt: string, token: Token)
    requires StoreOK(s) && ThreadOK(s, SavedAccess(job, family, at)) && rt !in s.seen
    requires token.client == job.client && token.subject == job.subject && token.scopes == job.scopes
    requires token.family == family
    ensures EffectOK(s, PutRefresh(rt, token)) && PairOK(Perform(s, PutRefresh(rt, token)), job, at, rt)
  {
    var eff := PutRefresh(rt, token);
    PerformExtendsStore(s, eff);
    PerformExtendsHistory(s, eff);
    hide Extends, StoreOK, Proper, Under, LocksAfter, DevicesAfter, GrantedAfter, JobOK;
    ExtendsKeepsJob(s, Perform(s, eff), job, "");
    ExtendsKeepsPair(s, Perform(s, eff), job, at, "");
  }

  /** The steps that only read, or only take a lock. */
  lemma ReadsOK(s: Mem, t: nat, pc: Pc, d: Draw)
    requires StoreOK(s) && ThreadOK(s, pc)
    requires pc.Looked? || pc.Ready? || pc.Waiting? || pc.SavedPair? || pc.Owning? || pc.Done?
    ensures var m := Act(s, t, pc, d); EffectOK(s, m.eff) && ThreadOK(s, m.pc)
    ensures var m := Act(s, t, pc, d); m.eff == Nothing || m.eff.Acquire?
  {
    hide StoreOK, Proper, Under, JobOK, OwnedOK, MineOK;
    if pc.Owning? {
      OwnsOK(s, pc.client, pc.value);
    }
  }

  /** The client that a value resolves to owns everything the value names. */
  lemma OwnsOK(s: Mem, client: string, v: string)
    requires StoreOK(s) && v in s.seen
    ensures s.store.TokenOwner(v) == Some(client)
            || (s.store.TokenOwner(v) == None && s.store.SpentRefreshOwner(v, s.now) == Some(client)) ==>
              MineOK(s, client, v)
  {
    hide CodesOK, DevicesOK, HistoryOK, TokenOK, TombOK;
  }

  /** The steps that delete, release or bump. */
  lemma DeletesOK(s: Mem, t: nat, pc: Pc, d: Draw)
    requires ThreadOK(s, pc)
    requires pc.Reusing? || pc.UndoAccess? || pc.Leaving? || pc.Polling? || pc.Deciding? || pc.Bumping? || pc.Deleting?
             || pc.DeletingAccess? || pc.DeletingRefresh? || pc.RollAccess? || pc.RollRefresh?
    ensures EffectOK(s, Act(s, t, pc, d).eff)
  {
    hide Proper, Under, JobOK, PairOK, OutcomeOK;
  }

  lemma CarryOver(s: Mem, eff: Effect, pc: Pc)
    requires StoreOK(s) && EffectOK(s, eff) && ThreadOK(s, pc)
    ensures ThreadOK(Perform(s, eff), pc)
  {
    hide StoreOK, EffectOK, ThreadOK, Extends, Perform;
    PerformKeepsStore(s, eff);
    ExtendsKeepsThread(s, Perform(s, eff), pc);
  }

  lemma RollOK(s: Mem, t: nat, pc: Pc, d: Draw)
    requires StoreOK(s) && ThreadOK(s, pc) && (pc.RollAccess? || pc.RollRefresh?)
    ensures var m := Act(s, t, pc, d); ThreadOK(Perform(s, m.eff), m.pc)
  {
    var m := Act(s, t, pc, d);
    var u := Perform(s, m.eff);
    hide StoreOK, JobOK, PairOK, LocksAfter, DevicesAfter, GrantedAfter, SeenAfter, EpochOf, EffectOK;
    DeletesOK(s, t, pc, d);
    CarryOver(s, m.eff, pc);
    PairSeen(s, pc.job, pc.at, pc.rt);
    PairSeen(u, pc.job, pc.at, pc.rt);
  }

  /** What a thread ends with after a deletion is what it already knew. */
  lemma AfterDeleteOK(s: Mem, t: nat, pc: Pc, d: Draw)
    requires StoreOK(s) && ThreadOK(s, pc)
    requires pc.Reusing? || pc.UndoAccess? || pc.Leaving? || pc.Polling? || pc.Deciding? || pc.Bumping? || pc.Deleting?
             || pc.DeletingAccess? || pc.DeletingRefresh?
    ensures var m := Act(s, t, pc, d); ThreadOK(Perform(s, m.eff), m.pc)
  {
    var m := Act(s, t, pc, d);
    hide StoreOK, EffectOK, JobOK, PairOK, Proper, StoreAfter, LocksAfter, DevicesAfter, GrantedAfter, SeenAfter;
    DeletesOK(s, t, pc, d);
    CarryOver(s, m.eff, pc);
  }

  lemma ClaimsOK(s: Mem, t: nat, pc: Pc, d: Draw)
    requires StoreOK(s) && ThreadOK(s, pc) && (pc.Captured? || pc.Claiming?)
    ensures var m := Act(s, t, pc, d); EffectOK(s, m.eff) && ThreadOK(Perform(s, m.eff), m.pc)
  {
    hide StoreOK, Perform, ClaimGrant, ClaimRefresh, KeyFor, KeyOK, WhoseOK, EpochOK;
    NothingIsNothing(s);
    if pc.Claiming? {
      ClaimRefreshOK(s, pc.req, pc.whose, pc.epoch, pc.key);
    } else if pc.req.Refresh? {
      KeyForOK(s, pc.req.value);
    } else {
      ClaimGrantOK(s, pc.req, pc.whose, pc.epoch);
    }
  }

  lemma SavesOK(s: Mem, t: nat, pc: Pc, d: Draw)
    requires StoreOK(s) && ThreadOK(s, pc) && (pc.Minting? || pc.SavedAccess?) && Fresh(s, d)
    ensures var m := Act(s, t, pc, d); EffectOK(s, m.eff) && ThreadOK(Perform(s, m.eff), m.pc)
  {
    hide StoreOK, Perform, Mint, PairOK, JobOK, WroteOK, Under, EffectOK;
    NothingIsNothing(s);
    if pc.Minting? {
      MintOK(s, pc.job, d);
    } else {
      SaveRefreshOK(s, pc.job, pc.family, pc.at, d.a,
                    Token(pc.job.client, pc.job.subject, pc.job.scopes, pc.family, s.now, s.now + d.ttl));
    }
    assert !d.ok ==> EffectOK(s, Nothing) by { NothingOK(s); }
  }

  lemma StartOK(s: Mem, t: nat, pc: Pc, d: Draw)
    requires StoreOK(s) && ThreadOK(s, pc) && pc.Start?
    ensures var m := Act(s, t, pc, d); EffectOK(s, m.eff) && ThreadOK(Perform(s, m.eff), m.pc)
  {
    hide StoreOK, Perform, Inspect, CodesOK, DevicesOK;
    NothingIsNothing(s);
    InspectOK(s, pc.req);
  }

  /** The thread's own next step is well founded and leaves it well founded. */
  lemma ActOK(s: Mem, t: nat, pc: Pc, d: Draw)
    requires StoreOK(s) && ThreadOK(s, pc) && Fresh(s, d)
    ensures var m := Act(s, t, pc, d); EffectOK(s, m.eff) && ThreadOK(Perform(s, m.eff), m.pc)
  {
    hide StoreOK, ThreadOK, EffectOK, Perform, Act;
    var m := Act(s, t, pc, d);
    if pc.Start? {
      StartOK(s, t, pc, d);
    } else if pc.Captured? || pc.Claiming? {
      ClaimsOK(s, t, pc, d);
    } else if pc.Minting? || pc.SavedAccess? {
      SavesOK(s, t, pc, d);
    } else if pc.Looked? || pc.Ready? || pc.Waiting? || pc.SavedPair? || pc.Owning? || pc.Done? {
      ReadsOK(s, t, pc, d);
      CarryOver(s, m.eff, m.pc);
    } else {
      DeletesOK(s, t, pc, d);
      if pc.RollAccess? || pc.RollRefresh? {
        RollOK(s, t, pc, d);
      } else {
        AfterDeleteOK(s, t, pc, d);
      }
    }
  }

  // ---------------------------------------------------------------- every event

  function EffectOf(s: State, e: Event): Effect
    requires Enabled(s, e)
  {
    match e
    case Step(t, d) => Act(s.mem, t, s.threads[t], d).eff
    case Submit(t, pc) => Carried(pc)
    case Environment(eff) => eff
  }

  lemma EventOK(s: State, e: Event)
    requires StoreOK(s.mem) && ThreadsOK(s) && Enabled(s, e)
    ensures EffectOK(s.mem, EffectOf(s, e)) && Do(s, e).mem == Perform(s.mem, EffectOf(s, e))
    ensures e.Step? ==> ThreadOK(Do(s, e).mem, Do(s, e).threads[e.t])
    ensures e.Submit? ==> ThreadOK(Do(s, e).mem, Do(s, e).threads[e.t])
  {
    hide ThreadOK, StoreOK, Perform;
    match e
    case Step(t, d) => ActOK(s.mem, t, s.threads[t], d);
    case Submit(t, pc) => ArrivesOK(s.mem, pc);
    case Environment(eff) =>
  }

  lemma ArrivesOK(s: Mem, pc: Pc)
    requires StoreOK(s) && Arrives(s, pc)
    ensures EffectOK(s, Carried(pc)) && ThreadOK(Perform(s, Carried(pc)), pc)
  {
    hide CodesOK, TokensOK, TombsOK, HistoryOK;
  }

  /** Every step of every thread keeps the store and all threads consistent. */
  lemma DoKeepsOK(s: State, e: Event)
    requires StoreOK(s.mem) && ThreadsOK(s) && Enabled(s, e)
    ensures StoreOK(Do(s, e).mem) && ThreadsOK(Do(s, e)) && Extends(s.mem, Do(s, e).mem)
  {
    hide ThreadOK, StoreOK, Perform, Extends, EffectOK;
    EventOK(s, e);
    PerformKeepsStore(s.mem, EffectOf(s, e));
    var u := Do(s, e);
    forall t | t in u.threads
      ensures ThreadOK(u.mem, u.threads[t])
    {
      if t in s.threads && u.threads[t] == s.threads[t] {
        ExtendsKeepsThread(s.mem, u.mem, s.threads[t]);
      }
    }
  }
}
