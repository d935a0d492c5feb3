/**
 One component's activations beside its removal (step, Remove and forceUnload in internal/core/app.go,
 scope.go): the reconciler loads and unloads it while another goroutine retires it. Every section under
 a lock is one atomic step, and so is every effect and every inverse; what Apply does and when a load
 or an unload is due is drawn. A second Remove finds the component unregistered and does nothing.
 */
module RemovalRace {
  import opened Options

  datatype Status = Inactive | Loading | Active | Unloading | Failed

  /** The inverses of one activation, by the effects they revert. */
  datatype Scope = Scope(stack: seq<nat>, disposed: bool)

  datatype Mem = Mem(
    status: Status,
    removed: bool,
    ctx: Option<nat>,
    scopes: seq<Scope>,
    // History: every effect there has been and every effect that has been reverted.
    performed: set<nat>,
    reverted: set<nat>)

  datatype Pc =
    | Resting
    | Applying(ctx: nat)
    | Adding(ctx: nat, effect: nat)
    | Concluding(ctx: nat, ok: bool)
    | Dropping
    | Retiring
    | Forcing
    | Settling(next: Pc)
    | Disposing(scope: nat, next: Pc)
    | Reverting(stack: seq<nat>, next: Pc)
    | Done

  datatype State = State(mem: Mem, loader: Pc, remover: Pc)

  /** What the reconciler finds due, what Apply does next, and the effect it performs. */
  datatype Draw = Load | Unload | Wait | Perform(effect: nat) | Succeed | Fail

  datatype Move = Move(pc: Pc, mem: Mem)

  /** scope.dispose, then `next`. */
  function Dispose(ctx: Option<nat>, next: Pc): Pc {
    if ctx.Some? then Disposing(ctx.value, next) else next
  }

  function Decide(m: Mem, d: Draw): Move {
    if m.removed then Move(Resting, m)
    else if d.Load? && m.status in {Inactive, Active, Failed} then
      Move(Dispose(m.ctx, Applying(|m.scopes|)),
           m.(status := Loading, ctx := Some(|m.scopes|), scopes := m.scopes + [Scope([], false)]))
    else if d.Unload? && m.status in {Active, Loading} then
      Move(Dispose(m.ctx, Settling(Resting)), m.(status := Unloading))
    else Move(Resting, m)
  }

  function Act(m: Mem, pc: Pc, d: Draw): Move {
    match pc
    case Resting => Decide(m, d)
    case Applying(ctx) =>
      (match d
       case Perform(e) => Move(Adding(ctx, e), m.(performed := m.performed + {e}))
       case Succeed => Move(Concluding(ctx, true), m)
       case Fail => Move(Disposing(ctx, Concluding(ctx, false)), m)
       case _ => Move(pc, m))
    case Adding(ctx, e) =>
      if ctx >= |m.scopes| then Move(pc, m)
      else if m.scopes[ctx].disposed then Move(Reverting([e], Applying(ctx)), m)
      else Move(Applying(ctx), m.(scopes := m.scopes[ctx := m.scopes[ctx].(stack := m.scopes[ctx].stack + [e])]))
    case Concluding(ctx, ok) =>
      if m.removed then Move(Disposing(ctx, Dropping), m)
      else Move(Resting, m.(status := if ok then Active else Failed))
    case Dropping => Move(Resting, m.(status := Inactive, ctx := None))
    case Retiring =>
      Move(Forcing, m.(removed := true, status := if m.status == Active then Unloading else m.status))
    case Forcing =>
      if m.status == Inactive then Move(Done, m)
      else Move(Dispose(m.ctx, Settling(Done)), m.(status := Unloading))
    case Settling(next) => Move(next, m.(status := if m.status == Unloading then Inactive else m.status))
    case Disposing(id, next) =>
      if id >= |m.scopes| || m.scopes[id].disposed then Move(next, m)
      else Move(Reverting(m.scopes[id].stack, next), m.(scopes := m.scopes[id := Scope([], true)]))
    case Reverting(stack, next) =>
      if stack == [] then Move(next, m)
      else Move(Reverting(stack[..|stack| - 1], next), m.(reverted := m.reverted + {stack[|stack| - 1]}))
    case Done => Move(pc, m)
  }

  /** The reconciler or the remover takes a step, or a component reverts an effect early. */
  datatype Event = Loads(draw: Draw) | Removes | Early(effect: nat)

  predicate Enabled(s: State, e: Event) {
    match e
    case Loads(d) => d.Perform? ==> d.effect !in s.mem.performed
    case Removes => true
    case Early(effect) => effect in s.mem.performed
  }

  function Do(s: State, e: Event): State {
    match e
    case Loads(d) => var m := Act(s.mem, s.loader, d); State(m.mem, m.pc, s.remover)
    case Removes => var m := Act(s.mem, s.remover, Wait); State(m.mem, s.loader, m.pc)
    case Early(effect) => s.(mem := s.mem.(reverted := s.mem.reverted + {effect}))
  }

  ghost predicate IsRun(ss: seq<State>, es: seq<Event>) {
    && |ss| == |es| + 1
    && ss[0] == State(Mem(Inactive, false, None, [], {}, {}), Resting, Retiring)
    && forall i | 0 <= i < |es| :: Enabled(ss[i], es[i]) && ss[i + 1] == Do(ss[i], es[i])
  }

  // ---------------------------------------------------------------- what every step keeps

  predicate Disposed(m: Mem, id: nat) {
    id < |m.scopes| && m.scopes[id].disposed
  }

  /** The current activation, if any, is torn down. */
  predicate Gone(m: Mem) {
    m.ctx.Some? ==> Disposed(m, m.ctx.value)
  }

  predicate Current(m: Mem, id: nat) {
    m.ctx == Some(id) && id < |m.scopes|
  }

  /** Where the reconciler can be, and what it has seen to by then. */
  predicate LoaderOK(m: Mem, pc: Pc) {
    match pc
    case Resting => true
    case Applying(ctx) => Current(m, ctx)
    case Adding(ctx, e) => Current(m, ctx) && e in m.performed
    case Concluding(ctx, ok) => Current(m, ctx) && (!ok ==> Disposed(m, ctx))
    case Dropping => m.removed && Gone(m)
    case Settling(next) => next == Resting && Gone(m)
    case Disposing(id, next) =>
      (match next
       case Applying(ctx) => Current(m, ctx) && id < ctx
       case Concluding(ctx, ok) => Current(m, ctx) && id == ctx && !ok
       case Dropping => m.removed && Current(m, id)
       case Settling(after) => after == Resting && Current(m, id)
       case _ => false)
    case Reverting(stack, next) =>
      (match next
       case Applying(ctx) => Current(m, ctx)
       case Concluding(ctx, ok) => Current(m, ctx) && !ok && Disposed(m, ctx)
       case Dropping => m.removed && Gone(m)
       case Settling(after) => after == Resting && Gone(m)
       case _ => false)
    case _ => false
  }

  /** Where the remover can be, what it has seen to, and what the component can be by then. */
  predicate RemoverOK(m: Mem, pc: Pc) {
    match pc
    case Retiring => !m.removed
    case Forcing => m.removed && m.status != Active
    case Disposing(id, next) =>
      m.removed && next == Settling(Done) && m.status in {Unloading, Inactive} && (m.ctx.Some? ==> Current(m, id))
    case Reverting(_, next) => m.removed && next == Settling(Done) && m.status in {Unloading, Inactive} && Gone(m)
    case Settling(next) => m.removed && next == Done && m.status in {Unloading, Inactive} && Gone(m)
    case Done => m.removed && m.status == Inactive && Gone(m)
    case _ => false
  }

  /** The effects a thread is about to revert. */
  function Pending(pc: Pc): set<nat> {
    match pc
    case Adding(_, e) => {e}
    case Reverting(stack, _) => set e | e in stack
    case _ => {}
  }

  /** The effect has been reverted, or its inverse is on a stack or with this thread. */
  ghost predicate Held(m: Mem, pc: Pc, e: nat) {
    e in m.reverted || e in Pending(pc) || exists id | 0 <= id < |m.scopes| :: e in m.scopes[id].stack
  }

  ghost predicate EffectsOK(s: State) {
    forall e | e in s.mem.performed :: Held(s.mem, s.loader, e) || Held(s.mem, s.remover, e)
  }

  /** Open scopes are the current one, or one the reconciler is about to dispose of. */
  ghost predicate ScopesOK(s: State) {
    && (forall id | 0 <= id < |s.mem.scopes| :: s.mem.scopes[id].disposed ==> s.mem.scopes[id].stack == [])
    && (forall id | 0 <= id < |s.mem.scopes| :: !s.mem.scopes[id].disposed ==>
          s.mem.ctx == Some(id) || (s.loader.Disposing? && s.loader.scope == id))
  }

  ghost predicate StatusOK(m: Mem) {
    && (m.ctx.Some? ==> m.ctx.value < |m.scopes|)
    && (m.status == Inactive ==> Gone(m))
    && (m.removed ==> m.status != Active)
  }

  ghost predicate Invariant(s: State) {
    LoaderOK(s.mem, s.loader) && RemoverOK(s.mem, s.remover) && ScopesOK(s) && StatusOK(s.mem) && EffectsOK(s)
  }

  lemma LoadingMoves(m: Mem, pc: Pc, d: Draw)
    requires LoaderOK(m, pc) && StatusOK(m)
    ensures LoaderOK(Act(m, pc, d).mem, Act(m, pc, d).pc)
  {
    if pc.Disposing? || pc.Reverting? {
      DisposingMoves(m, pc, d);
    }
  }

  lemma DisposingMoves(m: Mem, pc: Pc, d: Draw)
    requires LoaderOK(m, pc) && (pc.Disposing? || pc.Reverting?)
    ensures LoaderOK(Act(m, pc, d).mem, Act(m, pc, d).pc)
  {
    var v := Act(m, pc, d);
    assert v.mem.ctx == m.ctx && v.mem.removed == m.removed && |v.mem.scopes| == |m.scopes|;
    assert forall id | 0 <= id < |m.scopes| && Disposed(m, id) :: Disposed(v.mem, id);
    assert pc.Disposing? && pc.scope < |m.scopes| ==> Disposed(v.mem, pc.scope);
  }

  lemma LoadingKeepsStatus(m: Mem, pc: Pc, d: Draw)
    requires LoaderOK(m, pc) && StatusOK(m)
    ensures StatusOK(Act(m, pc, d).mem)
  {
  }

  lemma LoadingLeavesRemover(s: State, d: Draw)
    requires LoaderOK(s.mem, s.loader) && RemoverOK(s.mem, s.remover) && StatusOK(s.mem)
    ensures RemoverOK(Do(s, Loads(d)).mem, s.remover)
  {
  }

  lemma LoadingKeepsScopes(s: State, d: Draw)
    requires LoaderOK(s.mem, s.loader) && ScopesOK(s) && StatusOK(s.mem)
    ensures ScopesOK(Do(s, Loads(d)))
  {
  }

  lemma RemovingMoves(s: State)
    requires LoaderOK(s.mem, s.loader) && RemoverOK(s.mem, s.remover) && StatusOK(s.mem)
    ensures var u := Do(s, Removes); LoaderOK(u.mem, u.loader) && RemoverOK(u.mem, u.remover) && StatusOK(u.mem)
  {
  }

  lemma RemovingKeepsScopes(s: State)
    requires RemoverOK(s.mem, s.remover) && ScopesOK(s)
    ensures ScopesOK(Do(s, Removes))
  {
  }

  /** Inverses are handed on: from the effect to the stack, from the stack to whoever reverts it. */
  lemma HandsOn(m: Mem, pc: Pc, d: Draw, e: nat)
    requires Held(m, pc, e)
    ensures Held(Act(m, pc, d).mem, Act(m, pc, d).pc, e)
  {
    var n, next := Act(m, pc, d).mem, Act(m, pc, d).pc;
    if pc.Reverting? && e in Pending(pc) {
      assert pc.stack == pc.stack[..|pc.stack| - 1] + [pc.stack[|pc.stack| - 1]];
    } else if pc.Adding? && pc.ctx < |m.scopes| && e == pc.effect && !m.scopes[pc.ctx].disposed {
      assert e in n.scopes[pc.ctx].stack;
    } else if id :| 0 <= id < |m.scopes| && e in m.scopes[id].stack {
      assert id < |n.scopes| && (e in n.scopes[id].stack || e in Pending(next));
    }
  }

  /** What one thread does leaves the other's inverses with it. */
  lemma Keeps(m: Mem, pc: Pc, d: Draw, other: Pc, e: nat)
    requires Held(m, pc, e) || Held(m, other, e)
    ensures var v := Act(m, pc, d); Held(v.mem, v.pc, e) || Held(v.mem, other, e)
  {
    hide Act;
    if Held(m, pc, e) {
      HandsOn(m, pc, d, e);
    } else {
      assert e in Pending(other);
    }
  }

  lemma NewEffects(m: Mem, pc: Pc, d: Draw, e: nat)
    requires e in Act(m, pc, d).mem.performed && e !in m.performed
    ensures e in Pending(Act(m, pc, d).pc)
  {
  }

  lemma StepKeepsEffects(s: State, e: Event)
    requires EffectsOK(s) && Enabled(s, e)
    ensures EffectsOK(Do(s, e))
  {
    hide Act, Held;
    var u := Do(s, e);
    forall x | x in u.mem.performed
      ensures Held(u.mem, u.loader, x) || Held(u.mem, u.remover, x)
    {
      match e
      case Loads(d) =>
        if x in s.mem.performed {
          Keeps(s.mem, s.loader, d, s.remover, x);
        } else {
          NewEffects(s.mem, s.loader, d, x);
          assert Held(u.mem, u.loader, x) by { PendingIsHeld(u.mem, u.loader, x); }
        }
      case Removes =>
        if x in s.mem.performed {
          Keeps(s.mem, s.remover, Wait, s.loader, x);
        } else {
          NewEffects(s.mem, s.remover, Wait, x);
          assert Held(u.mem, u.remover, x) by { PendingIsHeld(u.mem, u.remover, x); }
        }
      case Early(effect) => MoreReverted(s.mem, u.mem, s.loader, s.remover, x);
    }
  }

  lemma PendingIsHeld(m: Mem, pc: Pc, e: nat)
    requires e in Pending(pc)
    ensures Held(m, pc, e)
  {
  }

  lemma MoreReverted(m: Mem, n: Mem, pc: Pc, other: Pc, e: nat)
    requires m.reverted <= n.reverted && n.scopes == m.scopes && (Held(m, pc, e) || Held(m, other, e))
    ensures Held(n, pc, e) || Held(n, other, e)
  {
  }

  lemma StepKeepsInvariant(s: State, e: Event)
    requires Invariant(s) && Enabled(s, e)
    ensures Invariant(Do(s, e))
  {
    hide LoaderOK, RemoverOK, ScopesOK, StatusOK, EffectsOK, Act;
    StepKeepsEffects(s, e);
    match e
    case Loads(d) =>
      LoadingMoves(s.mem, s.loader, d);
      LoadingKeepsStatus(s.mem, s.loader, d);
      LoadingLeavesRemover(s, d);
      LoadingKeepsScopes(s, d);
    case Removes =>
      RemovingMoves(s);
      RemovingKeepsScopes(s);
    case Early(_) => EarlyMoves(s, e);
  }

  lemma EarlyMoves(s: State, e: Event)
    requires LoaderOK(s.mem, s.loader) && RemoverOK(s.mem, s.remover) && ScopesOK(s) && StatusOK(s.mem) && e.Early?
    ensures var u := Do(s, e);
            LoaderOK(u.mem, u.loader) && RemoverOK(u.mem, u.remover) && ScopesOK(u) && StatusOK(u.mem)
  {
  }

  lemma {:induction false} RunKeepsInvariant(ss: seq<State>, es: seq<Event>, i: nat)
    requires IsRun(ss, es) && i < |ss|
    ensures Invariant(ss[i])
  {
    if i > 0 {
      RunKeepsInvariant(ss, es, i - 1);
      hide Invariant, Enabled, Do;
      StepKeepsInvariant(ss[i - 1], es[i - 1]);
    }
  }

  // ---------------------------------------------------------------- the guarantees

  /** Once removed, a component is never active again, whatever was in flight. */
  lemma RemovedIsNeverActive(ss: seq<State>, es: seq<Event>, i: nat, k: nat)
    requires IsRun(ss, es) && i <= k < |ss| && ss[i].mem.removed
    ensures ss[k].mem.removed && ss[k].mem.status != Active
  {
    RunKeepsInvariant(ss, es, k);
    StaysRemoved(ss, es, i, k);
  }

  lemma {:induction false} StaysRemoved(ss: seq<State>, es: seq<Event>, i: nat, k: nat)
    requires IsRun(ss, es) && i <= k < |ss| && ss[i].mem.removed
    ensures ss[k].mem.removed
  {
    if i < k {
      StaysRemoved(ss, es, i, k - 1);
      assert ss[k] == Do(ss[k - 1], es[k - 1]);
    }
  }

  /**
   When the removal has answered and no activation is in flight, the component is inactive and every
   effect it ever performed has been reverted.
   */
  lemma RemovedIsTornDown(ss: seq<State>, es: seq<Event>, k: nat)
    requires IsRun(ss, es) && k < |ss| && ss[k].remover == Done && ss[k].loader == Resting
    ensures ss[k].mem.status == Inactive && ss[k].mem.performed <= ss[k].mem.reverted
  {
    RunKeepsInvariant(ss, es, k);
    var s := ss[k];
    hide IsRun;
    forall e | e in s.mem.performed
      ensures e in s.mem.reverted
    {
      assert Held(s.mem, s.loader, e) || Held(s.mem, s.remover, e);
      assert forall id | 0 <= id < |s.mem.scopes| :: s.mem.scopes[id].disposed;
    }
  }

  // ---------------------------------------------------------------- while it is registered

  /** Until the removal, the activation in flight or in force is open. */
  predicate OpenOK(m: Mem, loader: Pc) {
    !m.removed ==>
      && (m.status == Active ==> loader == Resting && m.ctx.Some? && !Disposed(m, m.ctx.value))
      && (match loader
          case Applying(ctx) => !Disposed(m, ctx)
          case Adding(ctx, _) => !Disposed(m, ctx)
          case Concluding(ctx, true) => !Disposed(m, ctx)
          case Disposing(id, Applying(ctx)) => !Disposed(m, ctx)
          case Reverting(_, Applying(ctx)) => !Disposed(m, ctx)
          case _ => true)
  }

  lemma LoadingKeepsOpen(m: Mem, pc: Pc, d: Draw)
    requires LoaderOK(m, pc) && StatusOK(m) && OpenOK(m, pc)
    ensures OpenOK(Act(m, pc, d).mem, Act(m, pc, d).pc)
  {
  }

  /** Only a removal that has been announced tears anything down. */
  lemma RemovingKeepsOpen(m: Mem, pc: Pc, loader: Pc)
    requires RemoverOK(m, pc) && OpenOK(m, loader)
    ensures OpenOK(Act(m, pc, Wait).mem, loader)
  {
  }

  lemma StepKeepsOpen(s: State, e: Event)
    requires LoaderOK(s.mem, s.loader) && RemoverOK(s.mem, s.remover) && StatusOK(s.mem) && OpenOK(s.mem, s.loader)
    ensures OpenOK(Do(s, e).mem, Do(s, e).loader)
  {
    hide Act, LoaderOK, RemoverOK, StatusOK;
    match e
    case Loads(d) => LoadingKeepsOpen(s.mem, s.loader, d);
    case Removes => RemovingKeepsOpen(s.mem, s.remover, s.loader);
    case Early(_) =>
  }

  lemma {:induction false} RunKeepsOpen(ss: seq<State>, es: seq<Event>, i: nat)
    requires IsRun(ss, es) && i < |ss|
    ensures OpenOK(ss[i].mem, ss[i].loader)
  {
    if i > 0 {
      RunKeepsOpen(ss, es, i - 1);
      RunKeepsInvariant(ss, es, i - 1);
      hide LoaderOK, RemoverOK, StatusOK, OpenOK, ScopesOK, EffectsOK, Do, Enabled;
      StepKeepsOpen(ss[i - 1], es[i - 1]);
    }
  }

  /** A registered component that is active has an open scope: nothing of it has been torn down. */
  lemma ActiveIsOpen(ss: seq<State>, es: seq<Event>, k: nat)
    requires IsRun(ss, es) && k < |ss| && ss[k].mem.status == Active && ss[k].loader == Resting
    ensures ss[k].mem.ctx.Some? && ss[k].mem.ctx.value < |ss[k].mem.scopes|
    ensures !ss[k].mem.scopes[ss[k].mem.ctx.value].disposed
  {
    RunKeepsOpen(ss, es, k);
    RunKeepsInvariant(ss, es, k);
  }

  /** A load of a registered component opens a new scope, after whatever is left of the old one is torn down. */
  lemma LoadOpensAScope(ss: seq<State>, es: seq<Event>, i: nat)
    requires IsRun(ss, es) && i < |es| && es[i] == Loads(Load) && ss[i].loader == Resting && !ss[i].mem.removed
    requires ss[i].mem.status in {Inactive, Active, Failed}
    ensures var m, n, next := ss[i].mem, ss[i + 1].mem, Applying(|ss[i].mem.scopes|);
            && n.status == Loading && n.ctx == Some(|m.scopes|) && n.scopes == m.scopes + [Scope([], false)]
            && ss[i + 1].loader == if m.ctx.Some? then Disposing(m.ctx.value, next) else next
  {
    assert ss[i + 1] == Do(ss[i], es[i]);
  }

  /** An effect of a live activation is recorded, and one of a torn-down activation is reverted at once. */
  lemma EffectIsRecorded(ss: seq<State>, es: seq<Event>, i: nat)
    requires IsRun(ss, es) && i < |es| && es[i].Loads? && ss[i].loader.Adding?
    ensures var pc, m, n := ss[i].loader, ss[i].mem, ss[i + 1];
            && pc.ctx < |m.scopes|
            && if m.scopes[pc.ctx].disposed then n.loader == Reverting([pc.effect], Applying(pc.ctx)) && n.mem == m
               else n.loader == Applying(pc.ctx) && n.mem.scopes[pc.ctx].stack == m.scopes[pc.ctx].stack + [pc.effect]
  {
    RunKeepsInvariant(ss, es, i);
    assert ss[i + 1] == Do(ss[i], es[i]);
  }

  /** An activation that succeeds is in force and one that fails is not, unless the component has been removed. */
  lemma ActivationConcludes(ss: seq<State>, es: seq<Event>, i: nat)
    requires IsRun(ss, es) && i < |es| && es[i].Loads? && ss[i].loader.Concluding? && !ss[i].mem.removed
    ensures ss[i + 1].loader == Resting && ss[i + 1].mem.status == if ss[i].loader.ok then Active else Failed
  {
    assert ss[i + 1] == Do(ss[i], es[i]);
  }

  /** An unload that is due marks the component and goes on to tear down its scope. */
  lemma UnloadGoesAhead(ss: seq<State>, es: seq<Event>, i: nat)
    requires IsRun(ss, es) && i < |es| && es[i] == Loads(Unload) && ss[i].loader == Resting && !ss[i].mem.removed
    requires ss[i].mem.status == Active
    ensures ss[i].mem.ctx.Some? && ss[i + 1].mem == ss[i].mem.(status := Unloading)
    ensures ss[i + 1].loader == Disposing(ss[i].mem.ctx.value, Settling(Resting))
  {
    RunKeepsOpen(ss, es, i);
    assert ss[i + 1] == Do(ss[i], es[i]);
  }

  /** Whenever nobody is at work on an inactive component, every effect it ever performed has been reverted. */
  lemma InactiveIsTornDown(ss: seq<State>, es: seq<Event>, k: nat)
    requires IsRun(ss, es) && k < |ss| && ss[k].loader == Resting && ss[k].mem.status == Inactive
    requires !ss[k].remover.Reverting?
    ensures ss[k].mem.performed <= ss[k].mem.reverted
  {
    RunKeepsInvariant(ss, es, k);
    var s := ss[k];
    hide IsRun;
    forall e | e in s.mem.performed
      ensures e in s.mem.reverted
    {
      assert Held(s.mem, s.loader, e) || Held(s.mem, s.remover, e);
      assert forall id | 0 <= id < |s.mem.scopes| :: s.mem.scopes[id].disposed;
    }
  }

  function Thread(s: State, removing: bool): Pc {
    if removing then s.remover else s.loader
  }

  /** What is left of a teardown comes before everything that has been reverted. */
  ghost predicate Unwinds(all: seq<nat>, left: seq<nat>, reverted: set<nat>) {
    left <= all && forall b | |left| <= b < |all| :: all[b] in reverted
  }

  /** A teardown works from the last effect to the first, whatever the other thread does meanwhile. */
  lemma {:induction false} RevertsInReverse(ss: seq<State>, es: seq<Event>, i: nat, k: nat, removing: bool)
    requires IsRun(ss, es) && i <= k < |ss|
    requires forall j | i <= j <= k :: Thread(ss[j], removing).Reverting?
    ensures Unwinds(Thread(ss[i], removing).stack, Thread(ss[k], removing).stack, ss[k].mem.reverted)
  {
    hide Invariant, Do, Thread, Enabled;
    if i < k {
      RevertsInReverse(ss, es, i, k - 1, removing);
      RunKeepsInvariant(ss, es, k - 1);
      assert ss[k] == Do(ss[k - 1], es[k - 1]);
      RevertsOne(ss[k - 1], es[k - 1], removing, Thread(ss[i], removing).stack);
    }
  }

  lemma RevertsOne(s: State, e: Event, removing: bool, all: seq<nat>)
    requires Thread(s, removing).Reverting? && Thread(Do(s, e), removing).Reverting? && Invariant(s)
    requires Unwinds(all, Thread(s, removing).stack, s.mem.reverted)
    ensures Unwinds(all, Thread(Do(s, e), removing).stack, Do(s, e).mem.reverted)
  {
    hide ScopesOK, StatusOK, EffectsOK;
  }
}
