/**
 Binding a source beside its removal and its refresh: CompleteBind (internal/federation/bind.go),
 refreshBinding (refresh.go), Unbind, CascadeRevoke and shredBinding (unbind.go, revocation.go,
 killswitch.go). Each store call is one atomic step and may fail; the per-binding lock belongs to one
 process, and several processes may share the stores.

 The vault is the map from binding to secret that Vault.dfy shows it to be.
 */
module BindProtocol {
  import opened Options
  import opened BindingStore
  import opened Ordered

  /** `seen` is the row BeginBind read; the source keeps only its version. */
  datatype Flow = Flow(id: nat, key: Key, seen: Option<Binding>)

  datatype Answer = Begun | Bound | Superseded | WrongUser | Removed | Refreshed | Failed

  datatype Pc =
    | Beginning(id: nat, key: Key)
    | Noting(flow: Flow)
    | Consuming(proc: nat, user: Text, id: nat)
    | Returning(flow: Flow)
    | Locking(proc: nat, key: Key, next: Critical)
    | Inside(proc: nat, key: Key, step: Critical)
    | Unlocking(proc: nat, key: Key, answer: Answer)
    | Done(answer: Answer)

  /** Where a caller is while it holds the lock of its binding. */
  datatype Critical =
    | Claiming(flow: Flow)
    | Vaulting(undo: bool)
    | Undoing
    | Finding(force: bool)
    | Shredding
    | DeletingRow
    | Comparing(version: nat)
    | Renewing(held: Binding)
    | Rejected(held: Binding)

  datatype Mem = Mem(
    rows: map<Key, Binding>,
    secrets: map<Key, nat>,
    flows: map<nat, Flow>,
    locks: map<(nat, Key), nat>,
    // History: every version a row has had and every flow id drawn.
    versions: set<nat>,
    ids: set<nat>)

  datatype State = State(mem: Mem, threads: map<nat, Pc>)

  /**
   Whether the call succeeds, whether a failed one had its effect, whether a refresh is due, whether the
   source rejects, what generation and secret are drawn, and what the source says of its token.
   */
  datatype Draw = Draw(ok: bool, landed: bool, due: bool, rejected: bool, version: nat, secret: nat, expiry: int,
                       refreshable: bool)

  datatype Move = Move(pc: Pc, mem: Mem)

  function Written(m: Mem, b: Binding): Mem {
    m.(rows := m.rows[b.key := b], versions := m.versions + {b.version})
  }

  /** Claim the row before the vault is touched: over the version seen, or while still absent. */
  function Claim(m: Mem, key: Key, proc: nat, flow: Flow, d: Draw): Move {
    var b := Binding(key, d.version, d.expiry, d.refreshable);
    var won := if flow.seen.None? then key !in m.rows
               else key in m.rows && m.rows[key].version == flow.seen.value.version;
    if !d.ok then Move(Unlocking(proc, key, Failed), m)
    else if !won then Move(Unlocking(proc, key, Superseded), m)
    else Move(Inside(proc, key, Vaulting(true)), Written(m, b))
  }

  /** The row a refresh writes: the next generation, with what the source says of the new token. */
  function Renewed(key: Key, held: Binding, d: Draw): Binding {
    Binding(key, held.version + 1, d.expiry, d.refreshable)
  }

  function ActInside(m: Mem, proc: nat, key: Key, step: Critical, d: Draw): Move {
    var failed := Move(Unlocking(proc, key, Failed), m);
    match step
    case Claiming(flow) => Claim(m, key, proc, flow, d)
    case Vaulting(undo) =>
      // A failed store may still have landed; CompleteBind then rolls back, a refresh does not.
      var stored := m.(secrets := m.secrets[key := d.secret]);
      if d.ok then Move(Unlocking(proc, key, if undo then Bound else Refreshed), stored)
      else Move(if undo then Inside(proc, key, Undoing) else Unlocking(proc, key, Failed),
                if d.landed then stored else m)
    case Undoing => Move(Unlocking(proc, key, Failed), if d.ok then m.(secrets := m.secrets - {key}) else m)
    case Finding(force) =>
      if !d.ok then failed
      else if key in m.rows || force then Move(Inside(proc, key, Shredding), m)
      else Move(Unlocking(proc, key, Removed), m)
    case Shredding =>
      if d.ok then Move(Inside(proc, key, DeletingRow), m.(secrets := m.secrets - {key})) else failed
    case DeletingRow =>
      if d.ok then Move(Unlocking(proc, key, Removed), m.(rows := m.rows - {key})) else failed
    case Comparing(version) =>
      if !d.ok || key !in m.rows then failed
      else if m.rows[key].version != version || !d.due then Move(Unlocking(proc, key, Refreshed), m)
      else if !m.rows[key].refreshable then failed
      else if d.rejected then Move(Inside(proc, key, Rejected(m.rows[key])), m)
      else Move(Inside(proc, key, Renewing(m.rows[key])), m)
    case Renewing(held) =>
      if !d.ok then failed
      else if key in m.rows && m.rows[key].version == held.version
      then Move(Inside(proc, key, Vaulting(false)), Written(m, Renewed(key, held, d)))
      else Move(Unlocking(proc, key, Refreshed), m)
    case Rejected(held) =>
      if !d.ok then failed
      else if key in m.rows && m.rows[key].version != held.version then Move(Unlocking(proc, key, Refreshed), m)
      else Move(Inside(proc, key, Shredding), m)
  }

  function Act(m: Mem, t: nat, pc: Pc, d: Draw): Move {
    match pc
    case Beginning(id, key) =>
      if !d.ok then Move(Done(Failed), m)
      else Move(Noting(Flow(id, key, if key in m.rows then Some(m.rows[key]) else None)), m)
    case Noting(flow) =>
      if d.ok then Move(Done(Begun), m.(flows := m.flows[flow.id := flow])) else Move(Done(Failed), m)
    case Consuming(proc, user, id) =>
      if !d.ok || id !in m.flows then Move(Done(Failed), m)
      else
        var flow, rest := m.flows[id], m.(flows := m.flows - {id});
        if flow.key.user != user then Move(Returning(flow), rest)
        else if d.rejected then Move(Done(Failed), rest)
        else Move(Locking(proc, flow.key, Claiming(flow)), rest)
    case Returning(flow) =>
      if d.ok then Move(Done(WrongUser), m.(flows := m.flows[flow.id := flow])) else Move(Done(Failed), m)
    case Locking(proc, key, next) =>
      if (proc, key) in m.locks then Move(pc, m)
      else Move(Inside(proc, key, next), m.(locks := m.locks[(proc, key) := t]))
    case Inside(proc, key, step) => ActInside(m, proc, key, step, d)
    case Unlocking(proc, key, answer) => Move(Done(answer), m.(locks := m.locks - {(proc, key)}))
    case Done(_) => Move(pc, m)
  }

  datatype Event = Step(t: nat, draw: Draw) | Submit(t: nat, pc: Pc) | Erasure(user: Text) | Sweep(id: nat)

  predicate Arrives(m: Mem, pc: Pc) {
    match pc
    case Beginning(id, key) => id !in m.ids
    case Consuming(_, _, _) => true
    case Locking(_, _, next) => next.Finding? || next.Comparing?
    case _ => false
  }

  /** Generations never repeat: neither the drawn one nor the one a refresh writes after its row's own. */
  predicate FreshVersions(m: Mem, pc: Pc, d: Draw) {
    && d.version !in m.versions
    && (pc.Inside? && pc.step.Renewing? && pc.key in m.rows && m.rows[pc.key].version == pc.step.held.version ==>
          pc.step.held.version + 1 !in m.versions)
  }

  predicate Enabled(s: State, e: Event) {
    match e
    case Step(t, d) => t in s.threads && FreshVersions(s.mem, s.threads[t], d)
    case Submit(t, pc) => t !in s.threads && Arrives(s.mem, pc)
    case Erasure(user) => true
    case Sweep(id) => true
  }

  function Do(s: State, e: Event): State
    requires Enabled(s, e)
  {
    match e
    case Step(t, d) => var m := Act(s.mem, t, s.threads[t], d); State(m.mem, s.threads[t := m.pc])
    case Submit(t, pc) =>
      State(if pc.Beginning? then s.mem.(ids := s.mem.ids + {pc.id}) else s.mem, s.threads[t := pc])
    // The vault half of an account erasure, and the end of an abandoned flow.
    case Erasure(user) => s.(mem := s.mem.(secrets := map k | k in s.mem.secrets && k.user != user :: s.mem.secrets[k]))
    case Sweep(id) => s.(mem := s.mem.(flows := s.mem.flows - {id}))
  }

  ghost predicate IsRun(ss: seq<State>, es: seq<Event>) {
    && |ss| == |es| + 1
    && ss[0] == State(Mem(map[], map[], map[], map[], {}, {}), map[])
    && forall i | 0 <= i < |es| :: Enabled(ss[i], es[i]) && ss[i + 1] == Do(ss[i], es[i])
  }

  // ---------------------------------------------------------------- rows and versions

  ghost predicate RowsOK(m: Mem) {
    forall k | k in m.rows :: m.rows[k].key == k && m.rows[k].version in m.versions
  }

  /** What a row is replaced by has a version no row ever had. */
  ghost predicate RowsMove(m: Mem, n: Mem) {
    && m.versions <= n.versions
    && forall k | k in n.rows :: (k in m.rows && n.rows[k] == m.rows[k]) || n.rows[k].version !in m.versions
  }

  lemma ActMovesRows(m: Mem, t: nat, pc: Pc, d: Draw)
    requires RowsOK(m) && FreshVersions(m, pc, d)
    ensures RowsOK(Act(m, t, pc, d).mem) && RowsMove(m, Act(m, t, pc, d).mem)
  {
    hide RowsOK, RowsMove;
    var n := Act(m, t, pc, d).mem;
    if n.rows == m.rows && n.versions == m.versions {
      assert RowsOK(n) && RowsMove(m, n) by { KeptRowsMove(m, n); }
    } else if pc.Inside? && pc.step.DeletingRow? {
      assert RowsOK(n) && RowsMove(m, n) by { KeptRowsMove(m, n); }
    } else {
      var b := if pc.step.Claiming? then Binding(pc.key, d.version, d.expiry, d.refreshable)
               else Renewed(pc.key, pc.step.held, d);
      assert n == Written(m, b);
      WrittenMoves(m, b);
    }
  }

  lemma KeptRowsMove(m: Mem, n: Mem)
    requires RowsOK(m) && n.versions == m.versions && n.rows.Keys <= m.rows.Keys
    requires forall k | k in n.rows :: n.rows[k] == m.rows[k]
    ensures RowsOK(n) && RowsMove(m, n)
  {
  }

  lemma WrittenMoves(m: Mem, b: Binding)
    requires RowsOK(m) && b.version !in m.versions
    ensures RowsOK(Written(m, b)) && RowsMove(m, Written(m, b))
  {
  }

  lemma StepMovesRows(s: State, e: Event)
    requires RowsOK(s.mem) && Enabled(s, e)
    ensures RowsOK(Do(s, e).mem) && RowsMove(s.mem, Do(s, e).mem)
  {
    hide Act, FreshVersions;
    if e.Step? {
      ActMovesRows(s.mem, e.t, s.threads[e.t], e.draw);
    }
  }

  lemma {:induction false} RunMovesRows(ss: seq<State>, es: seq<Event>, i: nat, j: nat)
    requires IsRun(ss, es) && i <= j < |ss|
    ensures RowsOK(ss[i].mem) && RowsOK(ss[j].mem) && RowsMove(ss[i].mem, ss[j].mem)
    decreases j
  {
    if i < j {
      RunMovesRows(ss, es, i, j - 1);
      StepMovesRows(ss[j - 1], es[j - 1]);
    } else if i > 0 {
      RunMovesRows(ss, es, i - 1, i - 1);
      StepMovesRows(ss[i - 1], es[i - 1]);
    }
  }

  // ---------------------------------------------------------------- flows begun against a live binding

  /** If the key's row still has the version that was seen, it still is the row that was seen. */
  ghost predicate Known(m: Mem, b: Binding) {
    b.version in m.versions && (b.key in m.rows && m.rows[b.key].version == b.version ==> m.rows[b.key] == b)
  }

  ghost predicate FlowOK(m: Mem, flow: Flow) {
    flow.seen.Some? ==> flow.seen.value.key == flow.key && Known(m, flow.seen.value)
  }

  ghost predicate CarriesFlow(m: Mem, pc: Pc) {
    match pc
    case Noting(flow) => FlowOK(m, flow)
    case Returning(flow) => FlowOK(m, flow)
    case Locking(_, key, next) => next.Claiming? ==> next.flow.key == key && FlowOK(m, next.flow)
    case Inside(_, key, step) => step.Claiming? ==> step.flow.key == key && FlowOK(m, step.flow)
    case _ => true
  }

  ghost predicate FlowsOK(s: State) {
    && (forall id | id in s.mem.flows :: FlowOK(s.mem, s.mem.flows[id]))
    && (forall t | t in s.threads :: CarriesFlow(s.mem, s.threads[t]))
  }

  lemma MoveKeepsFlow(m: Mem, n: Mem, flow: Flow)
    requires RowsMove(m, n) && FlowOK(m, flow)
    ensures FlowOK(n, flow)
  {
  }

  lemma ActKeepsFlow(m: Mem, t: nat, pc: Pc, d: Draw)
    requires RowsOK(m) && CarriesFlow(m, pc) && FreshVersions(m, pc, d)
    requires forall id | id in m.flows :: FlowOK(m, m.flows[id])
    ensures var v := Act(m, t, pc, d); CarriesFlow(m, v.pc)
    ensures var v := Act(m, t, pc, d); forall id | id in v.mem.flows :: FlowOK(m, v.mem.flows[id])
  {
  }

  lemma DoKeepsFlows(s: State, e: Event)
    requires RowsOK(s.mem) && FlowsOK(s) && Enabled(s, e)
    ensures FlowsOK(Do(s, e))
  {
    hide FlowOK, Act, RowsOK, RowsMove;
    var u := Do(s, e);
    StepMovesRows(s, e);
    if e.Step? {
      ActKeepsFlow(s.mem, e.t, s.threads[e.t], e.draw);
    }
    forall id | id in u.mem.flows
      ensures FlowOK(u.mem, u.mem.flows[id])
    {
      MoveKeepsFlow(s.mem, u.mem, u.mem.flows[id]);
    }
    forall t | t in u.threads
      ensures CarriesFlow(u.mem, u.threads[t])
    {
      assert CarriesFlow(s.mem, u.threads[t]);
      MoveKeepsCarried(s.mem, u.mem, u.threads[t]);
    }
  }

  lemma MoveKeepsCarried(m: Mem, n: Mem, pc: Pc)
    requires RowsMove(m, n) && CarriesFlow(m, pc)
    ensures CarriesFlow(n, pc)
  {
  }

  lemma {:induction false} RunKeepsFlows(ss: seq<State>, es: seq<Event>, i: nat)
    requires IsRun(ss, es) && i < |ss|
    ensures FlowsOK(ss[i])
  {
    if i > 0 {
      RunKeepsFlows(ss, es, i - 1);
      RunMovesRows(ss, es, i - 1, i - 1);
      hide FlowsOK, RowsOK, Enabled, Do;
      DoKeepsFlows(ss[i - 1], es[i - 1]);
    }
  }

  predicate ClaimsNow(s: State, t: nat, flow: Flow) {
    t in s.threads && s.threads[t].Inside? && s.threads[t].step == Claiming(flow)
  }

  /**
   A flow begun against a live binding wins its claim only if that very row has been in place ever
   since: any removal, rebind or refresh in between, in this process or another, supersedes it.
   */
  lemma BoundFlowNeedsItsRow(ss: seq<State>, es: seq<Event>, i: nat, j: nat, k: nat, t: nat, flow: Flow)
    requires IsRun(ss, es) && i <= j <= k < |es| && ClaimsNow(ss[k], t, flow) && flow.seen.Some?
    requires flow.seen.value.version in ss[i].mem.versions
    requires es[k].Step? && es[k].t == t && ss[k + 1].threads[t].Inside?
    ensures flow.key in ss[j].mem.rows && ss[j].mem.rows[flow.key] == flow.seen.value
  {
    hide RowsOK;
    RunMovesRows(ss, es, i, j);
    RunMovesRows(ss, es, j, k);
    RunKeepsFlows(ss, es, k);
    assert ss[k + 1] == Do(ss[k], es[k]);
    assert CarriesFlow(ss[k].mem, ss[k].threads[t]);
  }

  /** A flow that loses its claim leaves rows and vault exactly as they were. */
  lemma LostClaimTouchesNothing(s: State, t: nat, flow: Flow, d: Draw)
    requires RowsOK(s.mem) && FlowsOK(s) && ClaimsNow(s, t, flow) && flow.seen.Some? && Enabled(s, Step(t, d))
    requires !(flow.key in s.mem.rows && s.mem.rows[flow.key] == flow.seen.value)
    ensures var u := Do(s, Step(t, d));
            u.mem == s.mem &&
            u.threads[t] == Unlocking(s.threads[t].proc, flow.key, if d.ok then Superseded else Failed)
  {
    assert CarriesFlow(s.mem, s.threads[t]);
  }

  /** A flow begun while nothing was bound has no such memory: it wins exactly when the row is absent at its claim. */
  lemma UnboundFlowNeedsAbsence(ss: seq<State>, es: seq<Event>, k: nat, t: nat, flow: Flow)
    requires IsRun(ss, es) && k < |es| && ClaimsNow(ss[k], t, flow) && flow.seen.None?
    requires es[k].Step? && es[k].t == t && es[k].draw.ok
    ensures ss[k].threads[t].key == flow.key
    ensures ss[k + 1].threads[t].Inside? <==> flow.key !in ss[k].mem.rows
    ensures ss[k + 1].threads[t].Inside? ==> flow.key in ss[k + 1].mem.rows
  {
    hide RowsOK;
    RunKeepsFlows(ss, es, k);
    assert ss[k + 1] == Do(ss[k], es[k]);
    assert CarriesFlow(ss[k].mem, ss[k].threads[t]);
  }

  /** Step `i` writes the key's row. */
  ghost predicate WritesRow(ss: seq<State>, i: nat, key: Key)
    requires i + 1 < |ss|
  {
    key in ss[i + 1].mem.rows && (key !in ss[i].mem.rows || ss[i].mem.rows[key] != ss[i + 1].mem.rows[key])
  }

  /** Step `i` removes the key's row. */
  ghost predicate RemovesRow(ss: seq<State>, i: nat, key: Key)
    requires i + 1 < |ss|
  {
    key in ss[i].mem.rows && key !in ss[i + 1].mem.rows
  }

  lemma {:induction false} RowStays(ss: seq<State>, i: nat, k: nat, key: Key)
    requires i <= k < |ss| && key in ss[i].mem.rows
    requires forall y | i <= y < k :: !RemovesRow(ss, y, key)
    ensures key in ss[k].mem.rows
  {
    if i < k {
      RowStays(ss, i, k - 1, key);
      assert !RemovesRow(ss, k - 1, key);
    }
  }

  lemma {:induction false} RowStaysAbsent(ss: seq<State>, i: nat, k: nat, key: Key)
    requires i <= k < |ss| && key !in ss[i].mem.rows
    requires forall y | i <= y < k :: !WritesRow(ss, y, key)
    ensures key !in ss[k].mem.rows
  {
    if i < k {
      RowStaysAbsent(ss, i, k - 1, key);
      assert !WritesRow(ss, k - 1, key);
    }
  }

  /**
   A removal that completed before such a flow claims is undone exactly when nothing has written the
   row since: with `m` the last removal of the key before the claim, the claim writes the row again
   if and only if no step in between did.
   */
  lemma UnboundFlowUndoesRemoval(ss: seq<State>, es: seq<Event>, m: nat, k: nat, t: nat, r: nat, flow: Flow)
    requires IsRun(ss, es) && m < k < |es| && ClaimsNow(ss[k], t, flow) && flow.seen.None?
    requires es[k].Step? && es[k].t == t && es[k].draw.ok
    requires es[m].Step? && es[m].t == r && es[m].draw.ok && r in ss[m].threads
    requires ss[m].threads[r].Inside? && ss[m].threads[r].key == flow.key && ss[m].threads[r].step.DeletingRow?
    requires forall y | m < y < k :: !RemovesRow(ss, y, flow.key)
    ensures WritesRow(ss, k, flow.key) && ss[k + 1].threads[t].Inside? <==>
            forall y | m < y < k :: !WritesRow(ss, y, flow.key)
  {
    UnboundFlowNeedsAbsence(ss, es, k, t, flow);
    assert ss[m + 1] == Do(ss[m], es[m]);
    assert flow.key !in ss[m + 1].mem.rows;
    hide IsRun, ClaimsNow;
    if forall y | m < y < k :: !WritesRow(ss, y, flow.key) {
      RowStaysAbsent(ss, m + 1, k, flow.key);
    } else {
      var y :| m < y < k && WritesRow(ss, y, flow.key);
      RowStays(ss, y + 1, k, flow.key);
    }
  }

  // ---------------------------------------------------------------- no secret without a row

  function HeldBy(pc: Pc): Option<(nat, Key)> {
    if pc.Inside? || pc.Unlocking? then Some((pc.proc, pc.key)) else None
  }

  ghost predicate LocksOK(s: State) {
    forall t | t in s.threads && HeldBy(s.threads[t]).Some? ::
      HeldBy(s.threads[t]).value in s.mem.locks && s.mem.locks[HeldBy(s.threads[t]).value] == t
  }

  lemma ActHolds(m: Mem, t: nat, pc: Pc, d: Draw)
    ensures var v := Act(m, t, pc, d);
            || (v.mem.locks == m.locks && HeldBy(v.pc) == HeldBy(pc))
            || (HeldBy(v.pc).Some? && HeldBy(v.pc).value !in m.locks && v.mem.locks == m.locks[HeldBy(v.pc).value := t])
            || (HeldBy(pc).Some? && HeldBy(v.pc).None? && v.mem.locks == m.locks - {HeldBy(pc).value})
  {
  }

  lemma DoKeepsLocks(s: State, e: Event)
    requires LocksOK(s) && Enabled(s, e)
    ensures LocksOK(Do(s, e))
  {
    hide Act, FreshVersions;
    if e.Step? {
      ActHolds(s.mem, e.t, s.threads[e.t], e.draw);
    }
  }

  /** The thread is inside a critical section of this binding. */
  predicate Holds(pc: Pc, k: Key) {
    HeldBy(pc).Some? && HeldBy(pc).value.1 == k
  }

  /** No two critical sections of this binding overlap. */
  ghost predicate Exclusive(s: State, k: Key) {
    forall t, r | t in s.threads && r in s.threads && Holds(s.threads[t], k) && Holds(s.threads[r], k) :: t == r
  }

  /** The critical sections of this binding run in one process, whatever the other bindings do. */
  ghost predicate OneProcess(s: State, k: Key, p: nat) {
    forall t | t in s.threads && Holds(s.threads[t], k) :: HeldBy(s.threads[t]).value.0 == p
  }

  lemma OneProcessIsExclusive(s: State, k: Key, p: nat)
    requires LocksOK(s) && OneProcess(s, k, p)
    ensures Exclusive(s, k)
  {
    forall t, r | t in s.threads && r in s.threads && Holds(s.threads[t], k) && Holds(s.threads[r], k)
      ensures t == r
    {
      assert HeldBy(s.threads[t]).value == (p, k) == HeldBy(s.threads[r]).value;
    }
  }

  /** Whoever is about to write a secret has the row; whoever is about to delete the row has shredded the secret. */
  ghost predicate StepOK(m: Mem, pc: Pc, k: Key) {
    && (pc.Locking? ==> pc.next.Claiming? || pc.next.Finding? || pc.next.Comparing?)
    && (pc.Inside? && pc.key == k ==>
      && (pc.step.Vaulting? || pc.step.Undoing? ==> k in m.rows)
      && (pc.step.DeletingRow? ==> k !in m.secrets))
  }

  ghost predicate SecretOK(s: State, k: Key) {
    && (k in s.mem.secrets ==> k in s.mem.rows)
    && (forall t | t in s.threads :: StepOK(s.mem, s.threads[t], k))
  }

  /** A step outside the binding's critical sections leaves its row alone and its secret too. */
  lemma OutsideTouchesNothing(m: Mem, t: nat, pc: Pc, d: Draw, k: Key)
    requires !(pc.Inside? && pc.key == k)
    ensures var n := Act(m, t, pc, d).mem; (k in n.rows <==> k in m.rows) && (k in n.secrets <==> k in m.secrets)
  {
    hide ActInside;
    if pc.Inside? {
      OtherKeysStay(m, pc.proc, pc.key, pc.step, d, k);
    }
  }

  lemma OtherKeysStay(m: Mem, proc: nat, key: Key, step: Critical, d: Draw, k: Key)
    requires k != key
    ensures var n := ActInside(m, proc, key, step, d).mem;
            (k in n.rows <==> k in m.rows) && (k in n.secrets <==> k in m.secrets)
  {
  }

  lemma OwnStep(m: Mem, t: nat, pc: Pc, d: Draw, k: Key)
    requires StepOK(m, pc, k) && (k in m.secrets ==> k in m.rows)
    ensures var v := Act(m, t, pc, d); StepOK(v.mem, v.pc, k) && (k in v.mem.secrets ==> k in v.mem.rows)
  {
    hide ActInside;
    if pc.Inside? {
      OwnInside(m, pc.proc, pc.key, pc.step, d, k);
    }
  }

  lemma OwnInside(m: Mem, proc: nat, key: Key, step: Critical, d: Draw, k: Key)
    requires StepOK(m, Inside(proc, key, step), k) && (k in m.secrets ==> k in m.rows)
    ensures var v := ActInside(m, proc, key, step, d);
            StepOK(v.mem, v.pc, k) && (k in v.mem.secrets ==> k in v.mem.rows)
  {
  }

  lemma DoKeepsSecret(s: State, e: Event, k: Key)
    requires Exclusive(s, k) && SecretOK(s, k) && Enabled(s, e)
    ensures SecretOK(Do(s, e), k)
  {
    hide Act;
    if e.Step? {
      OwnStep(s.mem, e.t, s.threads[e.t], e.draw, k);
      if !(s.threads[e.t].Inside? && s.threads[e.t].key == k) {
        OutsideTouchesNothing(s.mem, e.t, s.threads[e.t], e.draw, k);
      }
    }
  }

  lemma {:induction false} RunKeepsLocks(ss: seq<State>, es: seq<Event>, i: nat)
    requires IsRun(ss, es) && i < |ss|
    ensures LocksOK(ss[i])
  {
    if i > 0 {
      RunKeepsLocks(ss, es, i - 1);
      hide LocksOK, Enabled, Do;
      DoKeepsLocks(ss[i - 1], es[i - 1]);
    }
  }

  lemma {:induction false} ExclusiveKeepsSecret(ss: seq<State>, es: seq<Event>, i: nat, k: Key)
    requires IsRun(ss, es) && i < |ss| && forall j | 0 <= j < i :: Exclusive(ss[j], k)
    ensures SecretOK(ss[i], k)
  {
    if i > 0 {
      ExclusiveKeepsSecret(ss, es, i - 1, k);
      assert Enabled(ss[i - 1], es[i - 1]) && ss[i] == Do(ss[i - 1], es[i - 1]);
      assert Exclusive(ss[i - 1], k);
      hide IsRun, Enabled, Do, SecretOK, Exclusive;
      DoKeepsSecret(ss[i - 1], es[i - 1], k);
    }
  }

  /**
   A binding whose critical sections all run in one process has its row whenever it has a secret, at
   every step of every interleaving, whatever processes other bindings use.
   */
  lemma SecretHasRow(ss: seq<State>, es: seq<Event>, i: nat, k: Key, p: nat)
    requires IsRun(ss, es) && i < |ss| && forall j | 0 <= j < i :: OneProcess(ss[j], k, p)
    ensures k in ss[i].mem.secrets ==> k in ss[i].mem.rows
  {
    forall j | 0 <= j < i
      ensures Exclusive(ss[j], k)
    {
      RunKeepsLocks(ss, es, j);
      OneProcessIsExclusive(ss[j], k, p);
    }
    ExclusiveKeepsSecret(ss, es, i, k);
  }
}
