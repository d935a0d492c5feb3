/**
 The guarantees of the token engine, each over every run: any interleaving of code exchanges,
 refreshes, device polls, decisions, revocations, sweeps, clock ticks and store failures.
 */
module EngineTheorems {
  import opened Options
  import opened TokenStore
  import opened Engine
  import opened EngineInv
  import opened EngineSafety

  lemma RunStep(ss: seq<State>, es: seq<Event>, k: nat)
    requires IsRun(ss, es) && k + 1 < |ss|
    ensures |ss| == |es| + 1 && Enabled(ss[k], es[k]) && ss[k + 1] == Do(ss[k], es[k])
    ensures Invariant(ss[k]) && Extends(ss[k].mem, ss[k + 1].mem)
  {
    hide Invariant, Do, Enabled, Extends;
    RunKeepsInvariant(ss, es, k);
    DoKeepsInvariant(ss[k], es[k]);
  }

  lemma {:induction false} RunExtends(ss: seq<State>, es: seq<Event>, i: nat, j: nat)
    requires IsRun(ss, es) && i <= j < |ss|
    ensures ExtendsHistory(ss[i].mem, ss[j].mem) && ExtendsDevices(ss[i].mem, ss[j].mem)
  {
    hide IsRun, Invariant, Do, Enabled, ExtendsHistory, ExtendsDevices, ExtendsStore;
    RunKeepsInvariant(ss, es, i);
    if i < j {
      RunStep(ss, es, j - 1);
      RunExtends(ss, es, i, j - 1);
      ExtendsChains(ss[i].mem, ss[j - 1].mem, ss[j].mem);
    } else {
      ExtendsSelf(ss[i].mem);
    }
  }

  lemma ExtendsSelf(m: Mem)
    ensures ExtendsHistory(m, m) && ExtendsDevices(m, m)
  {
  }

  lemma ExtendsChains(m: Mem, n: Mem, p: Mem)
    requires ExtendsHistory(m, n) && ExtendsDevices(m, n) && ExtendsHistory(n, p) && ExtendsDevices(n, p)
    ensures ExtendsHistory(m, p) && ExtendsDevices(m, p)
  {
  }

  /** Each rotation family has at most one live refresh record. */
  lemma OneLiveRefreshPerFamily(ss: seq<State>, es: seq<Event>, i: nat, v: string, w: string)
    requires IsRun(ss, es) && i < |ss|
    requires v in ss[i].mem.store.refresh && w in ss[i].mem.store.refresh
    requires ss[i].mem.store.refresh[v].family == ss[i].mem.store.refresh[w].family
    ensures v == w
  {
    RunKeepsInvariant(ss, es, i);
  }

  /** Once a detected reuse has revoked a family, no record of it ever exists again. */
  lemma ReuseKillsFamilyForGood(ss: seq<State>, es: seq<Event>, i: nat, j: nat)
    requires IsRun(ss, es) && i < j < |ss|
    requires es[i].Step? && es[i].t in ss[i].threads && ss[i].threads[es[i].t].Reusing? && es[i].draw.ok
    ensures Empty(ss[j].mem, ss[i].threads[es[i].t].family)
  {
    var f := ss[i].threads[es[i].t].family;
    assert ss[i + 1] == Do(ss[i], es[i]);
    assert f in ss[i + 1].mem.dead;
    RunExtends(ss, es, i + 1, j);
    RunKeepsInvariant(ss, es, j);
  }

  /** A refresh that presents a spent, unexpired value is what leads there. */
  lemma SpentValueIsReuse(s: State, t: nat, d: Draw)
    requires Invariant(s) && t in s.threads && s.threads[t].Claiming? && Enabled(s, Step(t, d)) && d.ok
    requires var v := s.threads[t].req.value; v in s.mem.store.tombs && s.mem.now < s.mem.store.tombs[v].expires
    ensures var v := s.threads[t].req.value;
            Do(s, Step(t, d)).threads[t] == Reusing(s.mem.store.tombs[v].family, FamilyKey(s.mem.store.tombs[v].family))
  {
    hide StoreOK, LocksOK, FamiliesOK, DeadOK, OriginsOK, EpochsOK, Perform;
    assert ThreadOK(s.mem, s.threads[t]);
    assert TombsOK(s.mem) by { TombsPart(s.mem); }
  }

  lemma TombsPart(s: Mem)
    requires StoreOK(s)
    ensures TombsOK(s)
  {
  }

  /** Every record of a family has the client and subject of one proper consent and no wider scopes. */
  lemma RecordsStayWithinConsent(ss: seq<State>, es: seq<Event>, i: nat, v: string)
    requires IsRun(ss, es) && i < |ss|
    ensures v in ss[i].mem.store.access ==> Descends(ss[i].mem, ss[i].mem.store.access[v])
    ensures v in ss[i].mem.store.refresh ==> Descends(ss[i].mem, ss[i].mem.store.refresh[v])
    ensures v in ss[i].mem.store.tombs ==>
              var t := ss[i].mem.store.tombs[v];
                Descends(ss[i].mem, Token(t.client, t.subject, [], t.family, 0, t.expires))
  {
    RunKeepsInvariant(ss, es, i);
    hide LocksOK, FamiliesOK, DeadOK, OriginsOK, EpochsOK, ThreadsOK, Proper;
  }

  ghost predicate Descends(m: Mem, t: Token) {
    t.family in m.roots && Proper(m.roots[t.family]) && Under(m.roots[t.family], t.client, t.subject, t.scopes)
  }

  /** The consent behind a family never changes. */
  lemma ConsentIsFixed(ss: seq<State>, es: seq<Event>, i: nat, j: nat, f: string)
    requires IsRun(ss, es) && i <= j < |ss| && f in ss[i].mem.roots
    ensures f in ss[j].mem.roots && ss[j].mem.roots[f] == ss[i].mem.roots[f]
  {
    RunExtends(ss, es, i, j);
  }

  /** A code, a device approval or a refresh value is spent by at most one request, ever. */
  lemma OneMintPerGrant(ss: seq<State>, es: seq<Event>, i: nat, t: nat, r: nat)
    requires IsRun(ss, es) && i < |ss| && t in ss[i].threads && r in ss[i].threads
    requires JobOf(ss[i].threads[t]).Some? && JobOf(ss[i].threads[r]).Some?
    requires JobOf(ss[i].threads[t]).value.origin == JobOf(ss[i].threads[r]).value.origin
    ensures t == r
  {
    RunKeepsInvariant(ss, es, i);
  }

  /** The client a thread acts for, while it may still spend or delete something. */
  function ClientOf(pc: Pc): Option<string> {
    match pc
    case Captured(req, _, _) => Some(req.client)
    case Claiming(req, _, _, _) => Some(req.client)
    case DeletingAccess(client, _) => Some(client)
    case DeletingRefresh(client, _) => Some(client)
    case _ => None
  }

  /** The record an effect would spend or delete was issued to the client, or is not there. */
  ghost predicate Own(m: Mem, eff: Effect, client: string) {
    match eff
    case TakeCode(v) => v in m.store.codes ==> m.store.codes[v].client == client
    case TakeDevice(v) => v in m.devices ==> m.devices[v].client == client
    case TakeRefresh(v) => v in m.store.refresh ==> m.store.refresh[v].client == client
    case DropAccess(v) => v in m.store.access ==> m.store.access[v].client == client
    case DropRefresh(v) =>
      && (v in m.store.refresh ==> m.store.refresh[v].client == client)
      && (v in m.store.tombs ==> m.store.tombs[v].client == client)
    case _ => true
  }

  /** Whoever presents a value, nobody spends or revokes what was issued to another client. */
  lemma OnlyTheOwnerSpends(ss: seq<State>, es: seq<Event>, i: nat)
    requires IsRun(ss, es) && i < |es| && es[i].Step? && es[i].t in ss[i].threads
    requires ClientOf(ss[i].threads[es[i].t]).Some?
    ensures var pc := ss[i].threads[es[i].t];
            Own(ss[i].mem, Act(ss[i].mem, es[i].t, pc, es[i].draw).eff, ClientOf(pc).value)
  {
    hide StoreOK, LocksOK, FamiliesOK, DeadOK, OriginsOK, EpochsOK, Own, Act, Do, Enabled;
    RunKeepsInvariant(ss, es, i);
    ActsOwn(ss[i].mem, es[i].t, ss[i].threads[es[i].t], es[i].draw);
  }

  lemma ActsOwn(s: Mem, t: nat, pc: Pc, d: Draw)
    requires ThreadOK(s, pc) && ClientOf(pc).Some?
    ensures Own(s, Act(s, t, pc, d).eff, ClientOf(pc).value)
  {
    hide WhoseOK, EpochOK, KeyOK, JobOK, Proper, Under, KeyFor;
  }

  /** A device request leaves pending at most once; a poll or a second decision changes nothing. */
  lemma DecisionIsFinal(ss: seq<State>, es: seq<Event>, i: nat, j: nat, v: string)
    requires IsRun(ss, es) && i <= j < |ss|
    requires v in ss[i].mem.devices && ss[i].mem.devices[v].status != Pending && v in ss[j].mem.devices
    ensures ss[j].mem.devices[v].status == ss[i].mem.devices[v].status
    ensures ss[j].mem.devices[v].subject == ss[i].mem.devices[v].subject
    ensures ss[j].mem.devices[v].scopes == ss[i].mem.devices[v].scopes
    ensures ss[j].mem.devices[v].client == ss[i].mem.devices[v].client
  {
    RunExtends(ss, es, i, j);
    RunKeepsInvariant(ss, es, i);
  }

  /** What a poll mints from an approval is exactly the subject and scopes that were decided. */
  lemma ApprovalMintsTheDecision(ss: seq<State>, es: seq<Event>, i: nat, j: nat, v: string, t: nat)
    requires IsRun(ss, es) && i <= j < |ss|
    requires v in ss[i].mem.devices && ss[i].mem.devices[v].status == Approved
    requires t in ss[j].threads && JobOf(ss[j].threads[t]).Some?
    requires JobOf(ss[j].threads[t]).value.origin == FromDevice(v)
    ensures var job, d := JobOf(ss[j].threads[t]).value, ss[i].mem.devices[v];
            job.subject == d.subject && job.scopes == d.scopes && job.client == d.client && job.family == None
  {
    RunKeepsInvariant(ss, es, i);
    RunKeepsInvariant(ss, es, j);
    RunExtends(ss, es, i, j);
    assert DeviceOK(ss[i].mem, v, ss[i].mem.devices[v]);
    assert ThreadOK(ss[j].mem, ss[j].threads[t]);
    hide Invariant, ThreadOK, StoreOK;
    JobIsSpent(ss[j].mem, ss[j].threads[t]);
  }

  // ---------------------------------------------------------------- progress

  /** How many of its own steps a thread has left at most. */
  function Rank(pc: Pc): nat {
    match pc
    case Start(_) => 12
    case Looked(_) => 11
    case Ready(_, _) => 10
    case Captured(_, _, _) => 9
    case Waiting(_, _, _, _) => 8
    case Claiming(_, _, _, _) => 7
    case Minting(_) => 6
    case SavedAccess(_, _, _) => 5
    case SavedPair(_, _, _) => 4
    case RollAccess(_, _, _) => 3
    case UndoAccess(_, _) => 2
    case RollRefresh(_, _, _, _) => 2
    case Reusing(_, _) => 2
    case Owning(_, _) => 3
    case DeletingAccess(_, _) => 2
    case Bumping(_, _) => 2
    case Done(_) => 0
    case _ => 1
  }

  predicate Blocked(m: Mem, pc: Pc) {
    pc.Waiting? && pc.key in m.locks
  }

  /** Every request that is not waiting for a lock comes closer to its answer with each of its steps. */
  lemma StepsRunOut(s: Mem, t: nat, pc: Pc, d: Draw)
    requires !pc.Done? && !Blocked(s, pc)
    ensures Rank(Act(s, t, pc, d).pc) < Rank(pc)
  {
    hide KeyFor, CodeBinding, Narrowed;
  }

  /** Every lock that is taken is held by the thread it names. */
  ghost predicate HoldersOK(s: State) {
    forall key | key in s.mem.locks :: s.mem.locks[key] in s.threads && HeldBy(s.threads[s.mem.locks[key]]) == Some(key)
  }

  lemma DoKeepsHolders(s: State, e: Event)
    requires ThreadsOK(s) && LocksOK(s) && HoldersOK(s) && Enabled(s, e)
    ensures HoldersOK(Do(s, e))
  {
    hide ThreadOK, Act, StoreAfter, DevicesAfter, SeenAfter, GrantedAfter, Fresh;
    if e.Step? {
      ActHolds(s.mem, e.t, s.threads[e.t], e.draw);
    }
  }

  lemma {:induction false} RunKeepsHolders(ss: seq<State>, es: seq<Event>, i: nat)
    requires IsRun(ss, es) && i < |ss|
    ensures HoldersOK(ss[i])
  {
    if i > 0 {
      hide IsRun, HoldersOK, Do, Enabled, StoreOK, ThreadsOK, LocksOK, FamiliesOK, DeadOK, OriginsOK, EpochsOK, Extends;
      RunKeepsHolders(ss, es, i - 1);
      RunStep(ss, es, i - 1);
      DoKeepsHolders(ss[i - 1], es[i - 1]);
    }
  }

  /** Whoever a thread waits for is not itself waiting and releases the lock within seven steps of its own. */
  lemma NobodyWaitsOnAWaiter(ss: seq<State>, es: seq<Event>, i: nat, t: nat)
    requires IsRun(ss, es) && i < |ss| && t in ss[i].threads && Blocked(ss[i].mem, ss[i].threads[t])
    ensures var r := ss[i].mem.locks[ss[i].threads[t].key];
            && r in ss[i].threads && r != t && !ss[i].threads[r].Done? && !Blocked(ss[i].mem, ss[i].threads[r])
            && HeldBy(ss[i].threads[r]) == Some(ss[i].threads[t].key) && Rank(ss[i].threads[r]) <= 7
  {
    RunKeepsHolders(ss, es, i);
    hide IsRun;
  }

  // ---------------------------------------------------------------- the deadline of a device request

  /** At step `i` the thread's poll read an approved record before its deadline. */
  ghost predicate ReadsInTime(ss: seq<State>, es: seq<Event>, i: nat, t: nat, req: Request) {
    && i < |es| < |ss| && es[i].Step? && es[i].t == t && t in ss[i].threads && ss[i].threads[t] == Start(req)
    && req.value in ss[i].mem.devices && ss[i].mem.devices[req.value].status == Approved
    && ss[i].mem.now < ss[i].mem.devices[req.value].expires
  }

  /** At step `k` the thread's poll redeemed the record. */
  ghost predicate Redeems(ss: seq<State>, es: seq<Event>, k: nat, t: nat, req: Request) {
    && k < |es| < |ss| && es[k].Step? && es[k].t == t && t in ss[k].threads
    && ss[k].threads[t].Captured? && ss[k].threads[t].req == req && req.Poll? && req.value in ss[k].mem.devices
  }

  lemma PollReads(s: Mem, t: nat, pc: Pc, d: Draw)
    requires ThreadOK(s, pc)
    ensures var n := Act(s, t, pc, d).pc;
            (n.Ready? || n.Captured?) && n.req.Poll? ==>
              || (pc.Ready? && pc.req == n.req)
              || (pc == Start(n.req) && n.req.value in s.devices && s.devices[n.req.value].status == Approved
                  && s.now < s.devices[n.req.value].expires)
  {
    hide WhoseOK, OwnedOK, EpochOK, KeyOK, WroteOK, PairOK, OutcomeOK, JobOK, Proper, Under, KeyFor;
  }

  lemma {:induction false} PollWasReadInTime(ss: seq<State>, es: seq<Event>, k: nat, t: nat)
    requires IsRun(ss, es) && k < |ss| && t in ss[k].threads
    requires (ss[k].threads[t].Ready? || ss[k].threads[t].Captured?) && ss[k].threads[t].req.Poll?
    ensures exists i | 0 <= i < k :: ReadsInTime(ss, es, i, t, ss[k].threads[t].req)
  {
    hide ThreadOK, Act, Perform, Fresh, Ambient, Extends;
    if k > 0 {
      RunStep(ss, es, k - 1);
      var s, e := ss[k - 1], es[k - 1];
      if e.Step? && e.t == t {
        PollReads(s.mem, t, s.threads[t], e.draw);
        if s.threads[t].Ready? {
          PollWasReadInTime(ss, es, k - 1, t);
        } else {
          assert ReadsInTime(ss, es, k - 1, t, ss[k].threads[t].req);
        }
      } else {
        PollWasReadInTime(ss, es, k - 1, t);
      }
    }
  }

  lemma DeviceClaims(s: Mem, t: nat, pc: Pc, d: Draw, v: string)
    requires ThreadOK(s, pc)
    ensures var n := Act(s, t, pc, d).pc;
            JobOf(n).Some? && JobOf(n).value.origin == FromDevice(v) ==>
              || JobOf(pc) == JobOf(n)
              || (pc.Captured? && pc.req.Poll? && pc.req.value == v && v in s.devices)
  {
    hide WhoseOK, OwnedOK, EpochOK, KeyOK, WroteOK, PairOK, OutcomeOK, JobOK, Proper, Under, KeyFor;
  }

  lemma {:induction false} DeviceJobWasClaimed(ss: seq<State>, es: seq<Event>, q: nat, t: nat, v: string)
    requires IsRun(ss, es) && q < |ss| && t in ss[q].threads
    requires JobOf(ss[q].threads[t]).Some? && JobOf(ss[q].threads[t]).value.origin == FromDevice(v)
    ensures exists k, client | 0 <= k < q :: Redeems(ss, es, k, t, Poll(client, v))
  {
    hide ThreadOK, Act, Perform, Fresh, Ambient, Extends;
    if q > 0 {
      RunStep(ss, es, q - 1);
      var s, e := ss[q - 1], es[q - 1];
      if e.Step? && e.t == t {
        DeviceClaims(s.mem, t, s.threads[t], e.draw, v);
        if JobOf(s.threads[t]) == JobOf(ss[q].threads[t]) {
          DeviceJobWasClaimed(ss, es, q - 1, t, v);
        } else {
          assert Redeems(ss, es, q - 1, t, Poll(s.threads[t].req.client, v));
        }
      } else {
        DeviceJobWasClaimed(ss, es, q - 1, t, v);
      }
    }
  }

  /**
   Whatever a poll mints from was read by that poll before its deadline, and is redeemed expired
   exactly when the deadline passed between the read and the redemption, which looks no more.
   */
  lemma ExpiredRedemption(ss: seq<State>, es: seq<Event>, q: nat, t: nat, v: string)
    requires IsRun(ss, es) && q < |ss| && t in ss[q].threads
    requires JobOf(ss[q].threads[t]).Some? && JobOf(ss[q].threads[t]).value.origin == FromDevice(v)
    ensures exists i, k, client | 0 <= i < k < q ::
              && ReadsInTime(ss, es, i, t, Poll(client, v)) && Redeems(ss, es, k, t, Poll(client, v))
              && ss[k].mem.devices[v].expires == ss[i].mem.devices[v].expires
              && (ss[k].mem.devices[v].expires <= ss[k].mem.now <==>
                  ss[i].mem.now < ss[i].mem.devices[v].expires <= ss[k].mem.now)
  {
    hide IsRun;
    DeviceJobWasClaimed(ss, es, q, t, v);
    var k, client :| 0 <= k < q && Redeems(ss, es, k, t, Poll(client, v));
    PollWasReadInTime(ss, es, k, t);
    var i :| 0 <= i < k && ReadsInTime(ss, es, i, t, Poll(client, v));
    DeadlineStays(ss, es, i, k, v);
  }

  /** A device request keeps its deadline. */
  lemma DeadlineStays(ss: seq<State>, es: seq<Event>, i: nat, k: nat, v: string)
    requires IsRun(ss, es) && i <= k < |ss| && v in ss[i].mem.devices && v in ss[k].mem.devices
    ensures ss[k].mem.devices[v].expires == ss[i].mem.devices[v].expires
  {
    hide IsRun, ThreadsOK, LocksOK, FamiliesOK, DeadOK, OriginsOK, EpochsOK, ExtendsHistory;
    RunExtends(ss, es, i, k);
    RunKeepsInvariant(ss, es, i);
    assert v in ss[i].mem.seen;
    assert SameDecision(ss[i].mem.devices[v], ss[k].mem.devices[v]);
  }
}
