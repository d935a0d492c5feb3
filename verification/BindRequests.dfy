/**
 What each request of the binding protocol does, over every run: whose flow a completion may use, what a
 flow remembers, and what has happened to the row and to the secret by the time a caller is answered.
 */
module BindRequests {
  import opened Options
  import opened Ordered
  import opened BindingStore
  import opened BindProtocol

  ghost predicate StepsAt(ss: seq<State>, es: seq<Event>, i: nat, t: nat) {
    i < |es| < |ss| && i + 1 < |ss| && es[i].Step? && es[i].t == t && t in ss[i].threads
  }

  lemma StepOf(ss: seq<State>, es: seq<Event>, i: nat)
    requires IsRun(ss, es) && i < |es|
    ensures |ss| == |es| + 1 && Enabled(ss[i], es[i]) && ss[i + 1] == Do(ss[i], es[i])
  {
  }

  // ---------------------------------------------------------------- whose flow

  /** The thread acts on no binding but the user's own, in its own process. */
  predicate ActsFor(pc: Pc, proc: nat, user: Text, id: nat) {
    match pc
    case Consuming(p, u, i) => p == proc && u == user && i == id
    case Locking(p, key, _) => p == proc && key.user == user
    case Inside(p, key, _) => p == proc && key.user == user
    case Unlocking(p, key, _) => p == proc && key.user == user
    case Returning(flow) => flow.key.user != user
    case Done(answer) => answer != Begun
    case _ => false
  }

  lemma ActActsFor(m: Mem, t: nat, pc: Pc, d: Draw, proc: nat, user: Text, id: nat)
    requires ActsFor(pc, proc, user, id) && (pc.Unlocking? ==> pc.answer != Begun)
    ensures ActsFor(Act(m, t, pc, d).pc, proc, user, id)
    ensures var n := Act(m, t, pc, d).pc; n.Unlocking? ==> n.answer != Begun
  {
  }

  /** Whoever completes a bind works, if at all, on a binding of the account it was called for. */
  lemma {:induction false} CompletionActsForItsUser(ss: seq<State>, es: seq<Event>, i: nat, k: nat, t: nat)
    requires IsRun(ss, es) && i <= k < |ss| && t in ss[i].threads && ss[i].threads[t].Consuming?
    ensures var pc := ss[i].threads[t]; t in ss[k].threads && ActsFor(ss[k].threads[t], pc.proc, pc.user, pc.id)
    ensures ss[k].threads[t].Unlocking? ==> ss[k].threads[t].answer != Begun
  {
    hide IsRun, Act, FreshVersions;
    if i < k {
      assert |ss| == |es| + 1 by { Lengths(ss, es); }
      StepOf(ss, es, k - 1);
      CompletionActsForItsUser(ss, es, i, k - 1, t);
      var pc, s, e := ss[i].threads[t], ss[k - 1], es[k - 1];
      if e.Step? && e.t == t {
        ActActsFor(s.mem, t, s.threads[t], e.draw, pc.proc, pc.user, pc.id);
      }
    }
  }

  lemma Lengths(ss: seq<State>, es: seq<Event>)
    requires IsRun(ss, es)
    ensures |ss| == |es| + 1
  {
  }

  /** What the thread has been told, and is still to put back. */
  ghost predicate PutsBack(m: Mem, pc: Pc, flow: Flow) {
    pc == Returning(flow) || pc == Done(WrongUser) || pc == Done(Failed)
  }

  /**
   A completion that consumes another account's flow touches no row and no secret, ever, and puts the
   flow back: it answers that the flow is not its caller's exactly when the put succeeds.
   */
  lemma {:induction false} ForeignFlowIsPutBack(ss: seq<State>, es: seq<Event>, i: nat, k: nat, t: nat)
    requires IsRun(ss, es) && i <= k < |es| && StepsAt(ss, es, i, t) && ss[i].threads[t].Consuming? && es[i].draw.ok
    requires ss[i].threads[t].id in ss[i].mem.flows
    requires ss[i].mem.flows[ss[i].threads[t].id].key.user != ss[i].threads[t].user
    ensures var flow := ss[i].mem.flows[ss[i].threads[t].id];
            && t in ss[k + 1].threads && PutsBack(ss[k + 1].mem, ss[k + 1].threads[t], flow)
            && (es[k].Step? && es[k].t == t ==>
                  ss[k + 1].mem.rows == ss[k].mem.rows && ss[k + 1].mem.secrets == ss[k].mem.secrets)
            && (k > i && es[k].Step? && es[k].t == t && ss[k].threads[t].Returning? ==>
                  if es[k].draw.ok
                  then ss[k + 1].threads[t] == Done(WrongUser)
                    && ss[k + 1].mem.flows == ss[k].mem.flows[flow.id := flow]
                  else ss[k + 1].threads[t] == Done(Failed))
  {
    hide IsRun, FreshVersions, ActInside;
    StepOf(ss, es, k);
    if i < k {
      ForeignFlowIsPutBack(ss, es, i, k - 1, t);
    }
  }

  /** A completion whose caller the flow belongs to takes the flow and goes on, unless the source refused. */
  lemma OwnFlowIsTaken(ss: seq<State>, es: seq<Event>, i: nat, t: nat)
    requires IsRun(ss, es) && StepsAt(ss, es, i, t) && ss[i].threads[t].Consuming? && es[i].draw.ok
    ensures var pc, m, n := ss[i].threads[t], ss[i].mem, ss[i + 1];
            && n.mem.rows == m.rows && n.mem.secrets == m.secrets && n.mem.flows == m.flows - {pc.id}
            && (pc.id !in m.flows ==> n.threads[t] == Done(Failed))
            && (pc.id in m.flows && m.flows[pc.id].key.user == pc.user ==>
                  n.threads[t] == if es[i].draw.rejected then Done(Failed)
                                  else Locking(pc.proc, m.flows[pc.id].key, Claiming(m.flows[pc.id])))
  {
    hide FreshVersions, ActInside;
    StepOf(ss, es, i);
  }

  // ---------------------------------------------------------------- what a flow remembers

  /** At step `b` the flow was begun: it saw the row that was there then, or that there was none. */
  ghost predicate BegunAt(ss: seq<State>, es: seq<Event>, b: nat, flow: Flow) {
    && b < |es| < |ss| && es[b].Step? && es[b].draw.ok && es[b].t in ss[b].threads
    && ss[b].threads[es[b].t] == Beginning(flow.id, flow.key)
    && flow.seen == if flow.key in ss[b].mem.rows then Some(ss[b].mem.rows[flow.key]) else None
  }

  ghost predicate Remembers(ss: seq<State>, es: seq<Event>, k: nat, flow: Flow) {
    exists b | 0 <= b < k :: BegunAt(ss, es, b, flow)
  }

  /** The flow a thread carries. */
  function FlowOf(pc: Pc): Option<Flow> {
    match pc
    case Noting(flow) => Some(flow)
    case Returning(flow) => Some(flow)
    case Locking(_, _, Claiming(flow)) => Some(flow)
    case Inside(_, _, Claiming(flow)) => Some(flow)
    case _ => None
  }

  lemma ActFlows(m: Mem, t: nat, pc: Pc, d: Draw)
    ensures var x := Act(m, t, pc, d);
            && (FlowOf(x.pc).Some? ==>
                  || FlowOf(x.pc) == FlowOf(pc)
                  || FlowOf(x.pc).value in m.flows.Values
                  || (d.ok && pc == Beginning(FlowOf(x.pc).value.id, FlowOf(x.pc).value.key)
                      && FlowOf(x.pc).value.seen == if pc.key in m.rows then Some(m.rows[pc.key]) else None))
            && (forall id | id in x.mem.flows ::
                  (id in m.flows && x.mem.flows[id] == m.flows[id]) || FlowOf(pc) == Some(x.mem.flows[id]))
  {
    if pc.Consuming? && pc.id in m.flows {
      assert m.flows[pc.id] in m.flows.Values;
    }
  }

  ghost predicate AllRemember(ss: seq<State>, es: seq<Event>, k: nat)
    requires k < |ss|
  {
    && (forall id | id in ss[k].mem.flows :: Remembers(ss, es, k, ss[k].mem.flows[id]))
    && (forall t | t in ss[k].threads && FlowOf(ss[k].threads[t]).Some? ::
          Remembers(ss, es, k, FlowOf(ss[k].threads[t]).value))
  }

  lemma StillRemembers(ss: seq<State>, es: seq<Event>, k: nat, flow: Flow)
    requires k > 0 && Remembers(ss, es, k - 1, flow)
    ensures Remembers(ss, es, k, flow)
  {
    var b :| 0 <= b < k - 1 && BegunAt(ss, es, b, flow);
    assert 0 <= b < k;
  }

  lemma {:induction false} FlowsRemember(ss: seq<State>, es: seq<Event>, k: nat)
    requires IsRun(ss, es) && k < |ss|
    ensures AllRemember(ss, es, k)
  {
    if k > 0 {
      hide Act, FreshVersions, FlowOf, Remembers;
      FlowsRemember(ss, es, k - 1);
      StepOf(ss, es, k - 1);
      hide IsRun;
      var s, e := ss[k - 1], es[k - 1];
      if e.Step? {
        ActFlows(s.mem, e.t, s.threads[e.t], e.draw);
      }
      forall id | id in ss[k].mem.flows
        ensures Remembers(ss, es, k, ss[k].mem.flows[id])
      {
        StillRemembers(ss, es, k, ss[k].mem.flows[id]);
      }
      forall t | t in ss[k].threads && FlowOf(ss[k].threads[t]).Some?
        ensures Remembers(ss, es, k, FlowOf(ss[k].threads[t]).value)
      {
        CarriedRemembers(ss, es, k, t);
      }
    }
  }

  lemma CarriedRemembers(ss: seq<State>, es: seq<Event>, k: nat, t: nat)
    requires IsRun(ss, es) && 0 < k < |ss| && AllRemember(ss, es, k - 1)
    requires t in ss[k].threads && FlowOf(ss[k].threads[t]).Some?
    ensures Remembers(ss, es, k, FlowOf(ss[k].threads[t]).value)
  {
    hide Act, FreshVersions, FlowOf, Remembers;
    StepOf(ss, es, k - 1);
    hide IsRun;
    var s, e, flow := ss[k - 1], es[k - 1], FlowOf(ss[k].threads[t]).value;
    if e.Step? && e.t == t {
      ActFlows(s.mem, t, s.threads[t], e.draw);
      if FlowOf(s.threads[t]) == Some(flow) || flow in s.mem.flows.Values {
        StillRemembers(ss, es, k, flow);
      } else {
        assert Remembers(ss, es, k, flow) by { JustBegun(ss, es, k, flow); }
      }
    } else if t in s.threads {
      StillRemembers(ss, es, k, flow);
    } else {
      ArrivesWithoutFlow(s.mem, ss[k].threads[t]);
    }
  }

  lemma ArrivesWithoutFlow(m: Mem, pc: Pc)
    requires Arrives(m, pc)
    ensures FlowOf(pc).None?
  {
  }

  lemma JustBegun(ss: seq<State>, es: seq<Event>, k: nat, flow: Flow)
    requires k > 0 && BegunAt(ss, es, k - 1, flow)
    ensures Remembers(ss, es, k, flow)
  {
  }

  /**
   So a flow wins against a live binding only if the very row that was there when it was begun has been
   there ever since.
   */
  lemma BoundFlowNeedsTheRowItSaw(ss: seq<State>, es: seq<Event>, k: nat, t: nat, flow: Flow)
    requires IsRun(ss, es) && k < |es| && ClaimsNow(ss[k], t, flow) && flow.seen.Some?
    requires es[k].Step? && es[k].t == t && ss[k + 1].threads[t].Inside?
    ensures exists b | 0 <= b < k ::
              && BegunAt(ss, es, b, flow)
              && forall j | b <= j <= k ::
                 flow.key in ss[j].mem.rows && ss[j].mem.rows[flow.key] == ss[b].mem.rows[flow.key]
  {
    hide BegunAt;
    FlowsRemember(ss, es, k);
    assert FlowOf(ss[k].threads[t]) == Some(flow);
    var b :| 0 <= b < k && BegunAt(ss, es, b, flow);
    forall j | b <= j <= k
      ensures flow.key in ss[j].mem.rows && flow.key in ss[b].mem.rows
      ensures ss[j].mem.rows[flow.key] == ss[b].mem.rows[flow.key]
    {
      SeenIsAVersion(ss, es, b, flow);
      BoundFlowNeedsItsRow(ss, es, b, j, k, t, flow);
    }
    assert flow.key in ss[b].mem.rows;
  }

  lemma SeenIsAVersion(ss: seq<State>, es: seq<Event>, b: nat, flow: Flow)
    requires IsRun(ss, es) && b < |ss| && BegunAt(ss, es, b, flow) && flow.seen.Some?
    ensures flow.key in ss[b].mem.rows && flow.seen.value == ss[b].mem.rows[flow.key]
    ensures flow.seen.value.version in ss[b].mem.versions
  {
    RunMovesRows(ss, es, b, b);
  }

  // ---------------------------------------------------------------- what an answer means

  ghost predicate InsideAt(ss: seq<State>, es: seq<Event>, x: nat, t: nat, key: Key) {
    StepsAt(ss, es, x, t) && es[x].draw.ok && ss[x].threads[t].Inside? && ss[x].threads[t].key == key
  }

  /** Rows and secrets are as they were before step `x`. */
  predicate Untouched(ss: seq<State>, x: nat)
    requires x + 1 < |ss|
  {
    ss[x + 1].mem.rows == ss[x].mem.rows && ss[x + 1].mem.secrets == ss[x].mem.secrets
  }

  predicate Fits(m: Mem, flow: Flow, key: Key) {
    if flow.seen.Some? then key in m.rows && m.rows[key].version == flow.seen.value.version else key !in m.rows
  }

  /** The row was written under a new generation, over the version the flow saw or where there was none. */
  ghost predicate ClaimedAt(ss: seq<State>, es: seq<Event>, x: nat, t: nat, key: Key) {
    && InsideAt(ss, es, x, t, key) && ss[x].threads[t].step.Claiming?
       && Fits(ss[x].mem, ss[x].threads[t].step.flow, key)
    && var d := es[x].draw;
       && d.version !in ss[x].mem.versions && ss[x + 1].mem.secrets == ss[x].mem.secrets
       && ss[x + 1].mem.rows == ss[x].mem.rows[key := Binding(key, d.version, d.expiry, d.refreshable)]
  }

  /** The row did not fit the flow, and nothing was touched. */
  ghost predicate LostAt(ss: seq<State>, es: seq<Event>, x: nat, t: nat, key: Key) {
    && InsideAt(ss, es, x, t, key) && ss[x].threads[t].step.Claiming?
       && !Fits(ss[x].mem, ss[x].threads[t].step.flow, key)
    && Untouched(ss, x)
  }

  /** The secret was stored. */
  ghost predicate StoredAt(ss: seq<State>, es: seq<Event>, x: nat, t: nat, key: Key) {
    && InsideAt(ss, es, x, t, key) && ss[x + 1].mem.rows == ss[x].mem.rows
    && ss[x + 1].mem.secrets == ss[x].mem.secrets[key := es[x].draw.secret]
  }

  /** The row that was read, and still is the row, was renewed. */
  ghost predicate RenewedAt(ss: seq<State>, es: seq<Event>, x: nat, t: nat, key: Key) {
    && InsideAt(ss, es, x, t, key) && key in ss[x].mem.rows && ss[x + 1].mem.secrets == ss[x].mem.secrets
    && var d := es[x].draw;
       ss[x + 1].mem.rows ==
         ss[x].mem.rows[key := Binding(key, ss[x].mem.rows[key].version + 1, d.expiry, d.refreshable)]
  }

  /** Somebody else's row, or one that is not due, was left as it was. */
  ghost predicate LeftAt(ss: seq<State>, es: seq<Event>, x: nat, t: nat, key: Key) {
    && InsideAt(ss, es, x, t, key) && Untouched(ss, x)
    && match ss[x].threads[t].step
       case Comparing(version) => key in ss[x].mem.rows && (ss[x].mem.rows[key].version != version || !es[x].draw.due)
       case Renewing(held) => key !in ss[x].mem.rows || ss[x].mem.rows[key].version != held.version
       case Rejected(held) => key in ss[x].mem.rows && ss[x].mem.rows[key].version != held.version
       case _ => false
  }

  ghost predicate ShreddedAt(ss: seq<State>, es: seq<Event>, x: nat, t: nat, key: Key) {
    && InsideAt(ss, es, x, t, key) && ss[x + 1].mem.rows == ss[x].mem.rows
    && ss[x + 1].mem.secrets == ss[x].mem.secrets - {key}
  }

  ghost predicate DeletedAt(ss: seq<State>, es: seq<Event>, x: nat, t: nat, key: Key) {
    && InsideAt(ss, es, x, t, key) && ss[x + 1].mem.secrets == ss[x].mem.secrets
    && ss[x + 1].mem.rows == ss[x].mem.rows - {key}
  }

  ghost predicate AbsentAt(ss: seq<State>, es: seq<Event>, x: nat, t: nat, key: Key) {
    InsideAt(ss, es, x, t, key) && key !in ss[x].mem.rows && Untouched(ss, x)
  }

  /** The row to refresh was read: the one asked for, due and refreshable, and the source took or rejected it. */
  ghost predicate ReadAt(ss: seq<State>, es: seq<Event>, x: nat, t: nat, key: Key, held: Binding, rejected: bool) {
    && InsideAt(ss, es, x, t, key) && Untouched(ss, x)
    && ss[x].threads[t].step == Comparing(held.version) && key in ss[x].mem.rows && ss[x].mem.rows[key] == held
    && es[x].draw.due && held.refreshable && es[x].draw.rejected == rejected
  }

  /** What is to be removed: a row that was asked for, or one whose token the source has rejected. */
  ghost predicate DoomedAt(ss: seq<State>, es: seq<Event>, x: nat, t: nat, key: Key) {
    && InsideAt(ss, es, x, t, key) && Untouched(ss, x)
    && match ss[x].threads[t].step
       case Finding(force) => force || key in ss[x].mem.rows
       case Rejected(held) => key in ss[x].mem.rows ==> ss[x].mem.rows[key].version == held.version
       case _ => false
  }

  /** A call failed, or the binding to refresh was gone or cannot be refreshed. */
  ghost predicate FailedAt(ss: seq<State>, es: seq<Event>, x: nat, t: nat, key: Key) {
    && StepsAt(ss, es, x, t) && ss[x].threads[t].Inside? && ss[x].threads[t].key == key
    && (es[x].draw.ok ==>
          ss[x].threads[t].step.Comparing? && (key in ss[x].mem.rows ==> !ss[x].mem.rows[key].refreshable))
  }

  /** What a thread has done by the time it is at `pc`. */
  ghost predicate Explained(ss: seq<State>, es: seq<Event>, k: nat, t: nat, pc: Pc) {
    match pc
    case Locking(_, _, next) => next.Claiming? || next.Finding? || next.Comparing?
    case Inside(_, key, Vaulting(true)) => exists x | 0 <= x < k :: ClaimedAt(ss, es, x, t, key)
    case Inside(_, key, Vaulting(false)) => exists x | 0 <= x < k :: RenewedAt(ss, es, x, t, key)
    case Inside(_, key, Renewing(held)) => exists x | 0 <= x < k :: ReadAt(ss, es, x, t, key, held, false)
    case Inside(_, key, Rejected(held)) => exists x | 0 <= x < k :: ReadAt(ss, es, x, t, key, held, true)
    case Inside(_, key, Shredding) => exists x | 0 <= x < k :: DoomedAt(ss, es, x, t, key)
    case Inside(_, key, DeletingRow) => exists x | 0 <= x < k :: ShreddedAt(ss, es, x, t, key)
    case Unlocking(_, key, Bound) =>
      exists x, y | 0 <= x < y < k :: ClaimedAt(ss, es, x, t, key) && StoredAt(ss, es, y, t, key)
    case Unlocking(_, key, Refreshed) =>
      || (exists x | 0 <= x < k :: LeftAt(ss, es, x, t, key))
      || (exists x, y | 0 <= x < y < k :: RenewedAt(ss, es, x, t, key) && StoredAt(ss, es, y, t, key))
    case Unlocking(_, key, Removed) =>
      || (exists x | 0 <= x < k :: AbsentAt(ss, es, x, t, key))
      || (exists x, y | 0 <= x < y < k :: ShreddedAt(ss, es, x, t, key) && DeletedAt(ss, es, y, t, key))
    case Unlocking(_, key, Superseded) => exists x | 0 <= x < k :: LostAt(ss, es, x, t, key)
    case Unlocking(_, key, Failed) => exists x | 0 <= x < k :: FailedAt(ss, es, x, t, key)
    case Unlocking(_, _, _) => false
    case Inside(_, key, Undoing) => exists x | 0 <= x < k :: FailedAt(ss, es, x, t, key)
    case _ => true
  }

  lemma Later(ss: seq<State>, es: seq<Event>, k: nat, t: nat, pc: Pc)
    requires k > 0 && Explained(ss, es, k - 1, t, pc)
    ensures Explained(ss, es, k, t, pc)
  {
    hide ClaimedAt, LostAt, StoredAt, RenewedAt, LeftAt, ShreddedAt, DeletedAt, AbsentAt, FailedAt, ReadAt, DoomedAt;
  }

  /** One step of the thread, from an explained place. */
  ghost predicate Steps(ss: seq<State>, es: seq<Event>, k: nat, t: nat) {
    && 0 < k < |ss| == |es| + 1 && Enabled(ss[k - 1], es[k - 1]) && ss[k] == Do(ss[k - 1], es[k - 1])
    && es[k - 1].Step? && es[k - 1].t == t && Explained(ss, es, k - 1, t, ss[k - 1].threads[t])
  }

  lemma StepExplained(ss: seq<State>, es: seq<Event>, k: nat, t: nat)
    requires Steps(ss, es, k, t)
    ensures t in ss[k].threads && Explained(ss, es, k, t, ss[k].threads[t])
  {
    var pc := ss[k - 1].threads[t];
    if pc.Inside? {
      hide Explained, ActInside;
      if pc.step.Comparing? || pc.step.Renewing? || pc.step.Rejected? {
        RefreshExplained(ss, es, k, t);
      } else if pc.step.Claiming? || pc.step.Vaulting? || pc.step.Undoing? {
        BindExplained(ss, es, k, t);
      } else {
        RemovalExplained(ss, es, k, t);
      }
    }
  }

  lemma BindExplained(ss: seq<State>, es: seq<Event>, k: nat, t: nat)
    requires Steps(ss, es, k, t) && ss[k - 1].threads[t].Inside?
    requires var step := ss[k - 1].threads[t].step; step.Claiming? || step.Vaulting? || step.Undoing?
    ensures t in ss[k].threads && Explained(ss, es, k, t, ss[k].threads[t])
  {
    var pc, x := ss[k - 1].threads[t], k - 1;
    assert !es[x].draw.ok ==> FailedAt(ss, es, x, t, pc.key);
    match pc.step
    case Claiming(flow) => assert es[x].draw.ok ==> ClaimedAt(ss, es, x, t, pc.key) || LostAt(ss, es, x, t, pc.key);
    case Vaulting(undo) => assert es[x].draw.ok ==> StoredAt(ss, es, x, t, pc.key);
    case Undoing =>
  }

  lemma RemovalExplained(ss: seq<State>, es: seq<Event>, k: nat, t: nat)
    requires Steps(ss, es, k, t) && ss[k - 1].threads[t].Inside?
    requires var step := ss[k - 1].threads[t].step; step.Finding? || step.Shredding? || step.DeletingRow?
    ensures t in ss[k].threads && Explained(ss, es, k, t, ss[k].threads[t])
  {
    var pc, x := ss[k - 1].threads[t], k - 1;
    assert !es[x].draw.ok ==> FailedAt(ss, es, x, t, pc.key);
    match pc.step
    case Finding(force) =>
      assert ss[k].threads[t].Inside? ==> DoomedAt(ss, es, x, t, pc.key);
      assert ss[k].threads[t].Unlocking? && es[x].draw.ok ==> AbsentAt(ss, es, x, t, pc.key);
    case Shredding => assert es[x].draw.ok ==> ShreddedAt(ss, es, x, t, pc.key);
    case DeletingRow => assert es[x].draw.ok ==> DeletedAt(ss, es, x, t, pc.key);
  }

  lemma RefreshExplained(ss: seq<State>, es: seq<Event>, k: nat, t: nat)
    requires Steps(ss, es, k, t) && ss[k - 1].threads[t].Inside?
    requires var step := ss[k - 1].threads[t].step; step.Comparing? || step.Renewing? || step.Rejected?
    ensures t in ss[k].threads && Explained(ss, es, k, t, ss[k].threads[t])
  {
    var pc, x := ss[k - 1].threads[t], k - 1;
    assert !es[x].draw.ok ==> FailedAt(ss, es, x, t, pc.key);
    match pc.step
    case Comparing(version) =>
      assert ss[k].threads[t].Inside? ==>
          ReadAt(ss, es, x, t, pc.key, ss[x].mem.rows[pc.key], es[x].draw.rejected);
      assert ss[k].threads[t] == Unlocking(pc.proc, pc.key, Refreshed) ==> LeftAt(ss, es, x, t, pc.key);
      assert ss[k].threads[t] == Unlocking(pc.proc, pc.key, Failed) ==> FailedAt(ss, es, x, t, pc.key);
    case Renewing(held) => assert es[x].draw.ok ==> RenewedAt(ss, es, x, t, pc.key) || LeftAt(ss, es, x, t, pc.key);
    case Rejected(held) => assert es[x].draw.ok ==> LeftAt(ss, es, x, t, pc.key) || DoomedAt(ss, es, x, t, pc.key);
  }

  /** A bind whose store failed takes the secret back, whether or not it had landed. */
  lemma FailedStoreIsUndone(ss: seq<State>, es: seq<Event>, i: nat, t: nat)
    requires IsRun(ss, es) && StepsAt(ss, es, i, t) && ss[i].threads[t].Inside?
    ensures var pc, n := ss[i].threads[t], ss[i + 1];
            && (pc.step == Vaulting(true) && !es[i].draw.ok ==> n.threads[t] == Inside(pc.proc, pc.key, Undoing))
            && (pc.step == Undoing && es[i].draw.ok ==>
                  pc.key !in n.mem.secrets && n.mem.rows == ss[i].mem.rows
                  && forall k | k != pc.key :: k in n.mem.secrets <==> k in ss[i].mem.secrets)
  {
    StepOf(ss, es, i);
  }

  /**
   Every answer is earned: bound means the row was claimed and then the secret stored; refreshed that the
   row was renewed and the secret stored, or that another's row was left alone; removed that there was no
   row, or that the secret was shredded and then the row deleted; superseded that nothing was touched; and
   failed that a call did, or that there was nothing to refresh.
   */
  lemma {:induction false} AnswersAreEarned(ss: seq<State>, es: seq<Event>, k: nat, t: nat)
    requires IsRun(ss, es) && k < |ss| && t in ss[k].threads
    ensures Explained(ss, es, k, t, ss[k].threads[t])
  {
    Lengths(ss, es);
    if k > 0 {
      hide Act, FreshVersions, Explained;
      StepOf(ss, es, k - 1);
      var s, e := ss[k - 1], es[k - 1];
      if t in s.threads {
        AnswersAreEarned(ss, es, k - 1, t);
        if e.Step? && e.t == t {
          StepExplained(ss, es, k, t);
        } else {
          Later(ss, es, k, t, ss[k].threads[t]);
        }
      } else {
        Arriving(ss, es, k, t, ss[k].threads[t], s.mem);
      }
    }
  }

  lemma Arriving(ss: seq<State>, es: seq<Event>, k: nat, t: nat, pc: Pc, m: Mem)
    requires Arrives(m, pc)
    ensures Explained(ss, es, k, t, pc)
  {
  }

  /** The vault half of an account erasure takes exactly that account's secrets, and the end of a flow that flow. */
  lemma UpkeepIsExact(ss: seq<State>, es: seq<Event>, i: nat)
    requires IsRun(ss, es) && i < |es| && (es[i].Erasure? || es[i].Sweep?)
    ensures var m, n := ss[i].mem, ss[i + 1].mem;
            && n.rows == m.rows && ss[i + 1].threads == ss[i].threads
            && (es[i].Erasure? ==>
                  n.flows == m.flows && forall k :: k in n.secrets <==> k in m.secrets && k.user != es[i].user)
            && (forall k | k in n.secrets :: k in m.secrets && n.secrets[k] == m.secrets[k])
            && (es[i].Sweep? ==>
                  n.secrets == m.secrets && forall id :: id in n.flows <==> id in m.flows && id != es[i].id)
  {
    StepOf(ss, es, i);
  }
}
