/**
 The component runtime of internal/core: a fiber loads as soon as every key it injects has an
 active provider and unloads as soon as one does not.

 The system is a value (`Sys`); `App` in RuntimeApp.dfy is the object that updates it in place.
 This module holds the transition function of one fiber and the two monotone phases through which
 every reconciliation moves: after a registration fibers only load, after a removal they only unload.
 No acyclicity of the dependency graph is assumed anywhere.
 */
module Runtime {
  import opened Options

  datatype KeyRef = KeyRef(namespace: string, name: string)

  /** `failsAfter == Some(n)`: Apply publishes up to n of its keys and then returns an error. */
  datatype Component = Component(name: string, provisions: seq<KeyRef>, inject: seq<KeyRef>, failsAfter: Option<nat>)

  datatype State = Inactive | Loading | Active | Unloading | Failed

  /** A binding's provider; `Root` is the nil provider of the root context. */
  datatype Provider = Root | By(fiber: nat)

  /** `scope` lists the bindings of the current activation that are still to be withdrawn. */
  datatype Fiber = Fiber(comp: Component, state: State, target: map<KeyRef, Provider>, scope: seq<KeyRef>,
                         removed: bool)

  /** `heap` holds every fiber ever created, `fibers` the registered ones in registration order. */
  datatype Sys = Sys(store: map<KeyRef, Provider>, fibers: seq<nat>, heap: seq<Fiber>)

  // ---------------------------------------------------------------- one step of one fiber

  ghost predicate NoDup<T>(s: seq<T>) {
    forall i, j | 0 <= i < j < |s| :: s[i] != s[j]
  }

  predicate Avail(s: Sys, k: KeyRef) {
    && k in s.store
    && (s.store[k].By? ==> s.store[k].fiber < |s.heap| && s.heap[s.store[k].fiber].state == Active)
  }

  /** Every injected key has an active provider. */
  predicate Sat(s: Sys, f: nat)
    requires f < |s.heap|
  {
    forall k | k in s.heap[f].comp.inject :: Avail(s, k)
  }

  function Resolve(s: Sys, f: nat): (target: map<KeyRef, Provider>)
    requires f < |s.heap|
    requires Sat(s, f)
  {
    map k | k in s.heap[f].comp.inject :: s.store[k]
  }

  predicate NeedsLoad(s: Sys, f: nat)
    requires f < |s.heap|
  {
    var fb := s.heap[f];
    Sat(s, f) && (fb.state == Inactive || ((fb.state == Active || fb.state == Failed) && fb.target != Resolve(s, f)))
  }

  predicate NeedsUnload(s: Sys, f: nat)
    requires f < |s.heap|
  {
    !Sat(s, f) && (s.heap[f].state == Active || s.heap[f].state == Loading)
  }

  predicate Stable(s: Sys, f: nat)
    requires f < |s.heap|
  {
    s.heap[f].removed || (!NeedsLoad(s, f) && !NeedsUnload(s, f))
  }

  function Without(store: map<KeyRef, Provider>, keys: seq<KeyRef>): map<KeyRef, Provider> {
    map k | k in store && k !in keys :: store[k]
  }

  function Bound(store: map<KeyRef, Provider>, keys: seq<KeyRef>, f: nat): map<KeyRef, Provider> {
    map k | k in store.Keys + (set x | x in keys) :: if k in keys then By(f) else store[k]
  }

  /** Apply succeeds exactly when the component does not fail and none of its keys is taken. */
  ghost predicate Loads(store: map<KeyRef, Provider>, c: Component) {
    && c.failsAfter.None?
    && NoDup(c.provisions)
    && (forall k | k in c.provisions :: k !in store)
  }

  ghost function Loaded(s: Sys, f: nat): Sys
    requires f < |s.heap|
    requires Sat(s, f)
  {
    var fb := s.heap[f];
    var cleared := Without(s.store, fb.scope);
    var target := Resolve(s, f);
    if Loads(cleared, fb.comp) then
      s.(store := Bound(cleared, fb.comp.provisions, f),
         heap := s.heap[f := fb.(state := Active, target := target, scope := fb.comp.provisions)])
    else
      s.(store := cleared, heap := s.heap[f := fb.(state := Failed, target := target, scope := [])])
  }

  function Unloaded(s: Sys, f: nat): Sys
    requires f < |s.heap|
  {
    var fb := s.heap[f];
    s.(store := Without(s.store, fb.scope), heap := s.heap[f := fb.(state := Inactive, scope := [])])
  }

  /** What App.step does to the system. */
  ghost function Stepped(s: Sys, f: nat): Sys
    requires f < |s.heap|
  {
    if s.heap[f].removed then s
    else if NeedsLoad(s, f) then Loaded(s, f)
    else if NeedsUnload(s, f) then Unloaded(s, f)
    else s
  }

  // ---------------------------------------------------------------- consistency

  /** Registered fibers are at rest between steps; a retired one is inactive or being torn down. */
  ghost predicate Lifecycle(s: Sys) {
    && NoDup(s.fibers)
    && (forall f | f in s.fibers :: f < |s.heap| && !s.heap[f].removed && s.heap[f].state in {Inactive, Active, Failed})
    && (forall f | 0 <= f < |s.heap| && f !in s.fibers ::
          s.heap[f].removed && s.heap[f].state in {Inactive, Unloading, Failed})
  }

  /** The store holds exactly the bindings of the live scopes and of the root context. */
  ghost predicate Bindings(s: Sys) {
    && (forall f | 0 <= f < |s.heap| :: NoDup(s.heap[f].scope))
    && (forall f | 0 <= f < |s.heap| && s.heap[f].state in {Inactive, Failed} :: s.heap[f].scope == [])
    && (forall f | 0 <= f < |s.heap| && s.heap[f].state == Active ::
          s.heap[f].scope == s.heap[f].comp.provisions && s.heap[f].comp.failsAfter.None?)
    && (forall f, k | 0 <= f < |s.heap| && k in s.heap[f].scope :: k in s.store && s.store[k] == By(f))
    && (forall k | k in s.store && s.store[k].By? ::
          s.store[k].fiber < |s.heap| && k in s.heap[s.store[k].fiber].scope)
  }

  ghost predicate Valid(s: Sys) {
    Lifecycle(s) && Bindings(s)
  }

  ghost predicate AllStable(s: Sys) {
    forall f | f in s.fibers && f < |s.heap| :: Stable(s, f)
  }

  /** A system between two operations: consistent, at a fixpoint, nothing being torn down. */
  ghost predicate Rest(s: Sys) {
    Valid(s) && AllStable(s) && (forall f | 0 <= f < |s.heap| :: s.heap[f].state != Unloading)
  }

  /**
   At a fixpoint a registered fiber is inactive only for want of a provider, active only with all of them,
   and otherwise has last been tried with exactly the providers there are.
   */
  lemma RestIsSettled(s: Sys, f: nat)
    requires Rest(s) && f in s.fibers
    ensures f < |s.heap| && s.heap[f].state in {Inactive, Active, Failed}
    ensures var fb := s.heap[f];
            && (fb.state == Inactive ==> exists k | k in fb.comp.inject :: !Avail(s, k))
            && (fb.state == Active ==> forall k | k in fb.comp.inject :: Avail(s, k))
            && (fb.state != Inactive && (forall k | k in fb.comp.inject :: Avail(s, k)) ==>
                  fb.target == map k | k in fb.comp.inject :: s.store[k])
  {
    assert Stable(s, f);
  }

  /** Two systems that agree on everything a reconciliation may not touch. */
  ghost predicate SameShape(s: Sys, t: Sys) {
    && s.fibers == t.fibers
    && |s.heap| == |t.heap|
    && (forall f | 0 <= f < |s.heap| :: s.heap[f].comp == t.heap[f].comp && s.heap[f].removed == t.heap[f].removed)
    && (forall f | 0 <= f < |s.heap| && f !in s.fibers :: s.heap[f] == t.heap[f])
    && Roots(s) == Roots(t)
  }

  ghost function Roots(s: Sys): set<KeyRef> {
    set k | k in s.store && s.store[k].Root?
  }

  ghost function ActiveFibers(s: Sys): set<nat> {
    set f | f in s.fibers && f < |s.heap| && s.heap[f].state == Active
  }

  lemma ScopesAreDisjoint(s: Sys, f: nat, g: nat, k: KeyRef)
    requires f < |s.heap| && g < |s.heap| && f != g && Bindings(s)
    requires k in s.heap[g].scope
    ensures k !in s.heap[f].scope && k in s.store && s.store[k] == By(g)
  {
    assert s.store[k] == By(g);
    if k in s.heap[f].scope {
      assert false;
    }
  }

  lemma LoadKeepsBindings(s: Sys, f: nat)
    requires f < |s.heap| && Bindings(s) && Sat(s, f)
    ensures Bindings(Loaded(s, f)) && Roots(Loaded(s, f)) == Roots(s)
  {
    var fb := s.heap[f];
    var cleared := Without(s.store, fb.scope);
    var t := Loaded(s, f);
    forall g, k | 0 <= g < |t.heap| && k in t.heap[g].scope
      ensures k in t.store && t.store[k] == By(g)
    {
      if g != f {
        assert t.heap[g] == s.heap[g];
        ScopesAreDisjoint(s, f, g, k);
      }
    }
    forall k | k in t.store && t.store[k].By?
      ensures t.store[k].fiber < |t.heap| && k in t.heap[t.store[k].fiber].scope
    {
      if k in cleared && !(Loads(cleared, fb.comp) && k in fb.comp.provisions) {
        assert s.store[k] == t.store[k];
      }
    }
    assert Roots(t) == Roots(s);
  }

  lemma UnloadKeepsBindings(s: Sys, f: nat)
    requires f < |s.heap| && Bindings(s)
    ensures Bindings(Unloaded(s, f)) && Roots(Unloaded(s, f)) == Roots(s)
  {
    var t := Unloaded(s, f);
    forall g, k | 0 <= g < |t.heap| && k in t.heap[g].scope
      ensures k in t.store && t.store[k] == By(g)
    {
      assert g != f && t.heap[g] == s.heap[g];
      ScopesAreDisjoint(s, f, g, k);
    }
    assert Roots(t) == Roots(s);
  }

  lemma StepKeepsValid(s: Sys, f: nat)
    requires Valid(s) && f in s.fibers
    ensures Valid(Stepped(s, f)) && SameShape(s, Stepped(s, f))
    ensures Stable(s, f) <==> Stepped(s, f) == s
  {
    if NeedsLoad(s, f) {
      LoadKeepsBindings(s, f);
    } else if NeedsUnload(s, f) {
      UnloadKeepsBindings(s, f);
    }
    assert Lifecycle(Stepped(s, f));
  }

  // ---------------------------------------------------------------- the two phases

  /** The fiber has loaded (or failed) against exactly the providers it has now. */
  ghost predicate Settled(s: Sys, f: nat)
    requires f < |s.heap|
  {
    Sat(s, f) && s.heap[f].state in {Active, Failed} && s.heap[f].target == Resolve(s, f)
  }

  ghost function Unsettled(s: Sys): set<nat> {
    set f | f in s.fibers && f < |s.heap| && !Settled(s, f)
  }

  /** After a registration or a root publication: nothing that is active has lost a provider. */
  ghost predicate Growing(s: Sys) {
    forall f | f in s.fibers && f < |s.heap| && s.heap[f].state == Active :: Settled(s, f)
  }

  /** After a removal or a withdrawal: nothing that could load is waiting to. */
  ghost predicate Shrinking(s: Sys) {
    forall f | f in s.fibers && f < |s.heap| :: Sat(s, f) ==> Settled(s, f)
  }

  lemma RestIsBothPhases(s: Sys)
    requires Valid(s)
    ensures AllStable(s) <==> Growing(s) && Shrinking(s)
  {
  }

  lemma LoadKeepsAvailable(s: Sys, f: nat)
    requires Valid(s) && f in s.fibers && NeedsLoad(s, f) && s.heap[f].state in {Inactive, Failed}
    ensures var t := Loaded(s, f);
            && |t.heap| == |s.heap| && t.fibers == s.fibers
               && (forall g | 0 <= g < |s.heap| && g != f :: t.heap[g] == s.heap[g])
            && t.heap[f].comp == s.heap[f].comp && t.heap[f].state in {Active, Failed}
               && t.heap[f].target == Resolve(s, f)
            && AvailKept(s, t)
  {
    assert s.heap[f].scope == [];
    hide Lifecycle, NoDup;
  }

  /** Whatever is available stays available, from the same provider. */
  ghost predicate AvailKept(s: Sys, t: Sys) {
    forall k | Avail(s, k) :: k in s.store && k in t.store && t.store[k] == s.store[k] && Avail(t, k)
  }

  lemma SettledStays(s: Sys, t: Sys, g: nat)
    requires AvailKept(s, t) && g < |s.heap| == |t.heap| && s.heap[g] == t.heap[g] && Settled(s, g)
    ensures Settled(t, g)
  {
    assert Resolve(t, g) == Resolve(s, g);
  }

  lemma LoadedIsSettled(s: Sys, t: Sys, f: nat)
    requires AvailKept(s, t) && f < |s.heap| == |t.heap| && s.heap[f].comp == t.heap[f].comp && Sat(s, f)
    requires t.heap[f].state in {Active, Failed} && t.heap[f].target == Resolve(s, f)
    ensures Settled(t, f)
  {
    assert Resolve(t, f) == Resolve(s, f);
  }

  /** While the system grows a step keeps every provider that is available. */
  lemma GrowStep(s: Sys, f: nat)
    requires Valid(s) && Growing(s) && f in s.fibers
    ensures Growing(Stepped(s, f))
    ensures ActiveFibers(s) <= ActiveFibers(Stepped(s, f))
    ensures Unsettled(Stepped(s, f)) <= Unsettled(s)
    ensures Stepped(s, f) != s ==> f in Unsettled(s) && f !in Unsettled(Stepped(s, f))
  {
    hide Bindings, NoDup, Loaded, Unloaded, Avail, AvailKept, Sat;
    var t := Stepped(s, f);
    if NeedsLoad(s, f) {
      assert s.heap[f].state != Active;
      LoadKeepsAvailable(s, f);
      LoadedIsSettled(s, t, f);
      forall g | g in s.fibers && Settled(s, g)
        ensures Settled(t, g)
      {
        assert g != f;
        SettledStays(s, t, g);
      }
    }
  }

  /** While the system shrinks a step can only take providers away. */
  lemma ShrinkStep(s: Sys, f: nat)
    requires Valid(s) && Shrinking(s) && f in s.fibers
    ensures Shrinking(Stepped(s, f))
    ensures ActiveFibers(Stepped(s, f)) <= ActiveFibers(s)
    ensures Stepped(s, f) != s ==> f in ActiveFibers(s) && f !in ActiveFibers(Stepped(s, f))
  {
    var t := Stepped(s, f);
    if t != s {
      assert t == Unloaded(s, f);
      assert forall k | Avail(t, k) :: Avail(s, k) && t.store[k] == s.store[k];
      forall g | g in t.fibers && Sat(t, g)
        ensures Settled(t, g)
      {
        assert Sat(s, g);
        assert g != f;
        assert Resolve(t, g) == Resolve(s, g);
      }
    }
  }

  // ---------------------------------------------------------------- the least fixpoint

  ghost predicate Provided(roots: set<KeyRef>, a: set<Component>, k: KeyRef) {
    k in roots || exists c :: c in a && k in c.provisions
  }

  /** The component does not fail and every key it injects is provided from within `a`. */
  ghost predicate Supported(roots: set<KeyRef>, a: set<Component>, c: Component) {
    c.failsAfter.None? && forall k | k in c.inject :: Provided(roots, a, k)
  }

  ghost predicate ClosedUnder(comps: set<Component>, roots: set<KeyRef>, a: set<Component>) {
    forall c | c in comps && Supported(roots, a, c) :: c in a
  }

  /** `a` is the least set of components closed under "does not fail and is provided for". */
  ghost predicate IsLeast(comps: set<Component>, roots: set<KeyRef>, a: set<Component>) {
    && a <= comps
    && (forall c | c in comps :: c in a <==> Supported(roots, a, c))
    && (forall b: set<Component> | ClosedUnder(comps, roots, b) :: a <= b)
  }

  ghost function Comps(s: Sys): set<Component> {
    set f | f in s.fibers && f < |s.heap| :: s.heap[f].comp
  }

  ghost function ActiveComps(s: Sys): set<Component> {
    set f | f in ActiveFibers(s) :: s.heap[f].comp
  }

  /** One registered provider per key. */
  ghost predicate UniqueProviders(s: Sys) {
    && (forall f | f in s.fibers && f < |s.heap| :: NoDup(s.heap[f].comp.provisions))
    && (forall f, k | f in s.fibers && f < |s.heap| && k in s.heap[f].comp.provisions :: k !in Roots(s))
    && (forall f, g, k | f in s.fibers && f < |s.heap| && g in s.fibers && g < |s.heap| &&
          k in s.heap[f].comp.provisions && k in s.heap[g].comp.provisions :: f == g)
  }

  /** Only components that fail by themselves are FAILED. */
  ghost predicate FailuresAreOwn(s: Sys) {
    forall f | f in s.fibers && f < |s.heap| && s.heap[f].state == Failed :: s.heap[f].comp.failsAfter.Some?
  }

  /** Whatever is active is forced to be: it lies in every closed set. */
  ghost predicate Grounded(s: Sys) {
    forall b: set<Component> | ClosedUnder(Comps(s), Roots(s), b) :: ActiveComps(s) <= b
  }

  ghost predicate Good(s: Sys) {
    UniqueProviders(s) && FailuresAreOwn(s) && Grounded(s)
  }

  lemma ShapeKeepsUnique(s: Sys, t: Sys)
    requires SameShape(s, t)
    ensures UniqueProviders(s) ==> UniqueProviders(t)
    ensures Comps(s) == Comps(t)
  {
    assert forall f | f in s.fibers && f < |s.heap| :: s.heap[f].comp == t.heap[f].comp;
  }

  lemma SatIsSupported(s: Sys, f: nat, b: set<Component>)
    requires Valid(s) && f < |s.heap| && Sat(s, f) && s.heap[f].comp.failsAfter.None?
    requires ActiveComps(s) <= b
    ensures Supported(Roots(s), b, s.heap[f].comp)
  {
    forall k | k in s.heap[f].comp.inject
      ensures Provided(Roots(s), b, k)
    {
      assert Avail(s, k);
      if s.store[k].By? {
        var g := s.store[k].fiber;
        assert g in ActiveFibers(s);
        assert s.heap[g].comp in b && k in s.heap[g].comp.provisions;
      }
    }
  }

  lemma GrowKeepsGood(s: Sys, f: nat)
    requires Valid(s) && Growing(s) && f in s.fibers && Good(s)
    requires forall g | 0 <= g < |s.heap| :: s.heap[g].state != Unloading
    ensures Good(Stepped(s, f))
  {
    hide Bindings, NoDup, Growing;
    var t := Stepped(s, f);
    StepKeepsValid(s, f);
    ShapeKeepsUnique(s, t);
    if NeedsLoad(s, f) {
      if s.heap[f].comp.failsAfter.None? {
        LoadSucceeds(s, f);
      }
      forall b: set<Component> | ClosedUnder(Comps(t), Roots(t), b)
        ensures ActiveComps(t) <= b
      {
        assert ActiveComps(s) <= b;
        if t.heap[f].state == Active {
          SatIsSupported(s, f, b);
          assert s.heap[f].comp in Comps(s);
        }
        forall c | c in ActiveComps(t)
          ensures c in b
        {
          var g :| g in ActiveFibers(t) && t.heap[g].comp == c;
          if g != f { assert g in ActiveFibers(s); }
        }
      }
    }
  }

  lemma LoadSucceeds(s: Sys, f: nat)
    requires Valid(s) && Growing(s) && f in s.fibers && UniqueProviders(s) && NeedsLoad(s, f)
    requires forall g | 0 <= g < |s.heap| :: s.heap[g].state != Unloading
    requires s.heap[f].comp.failsAfter.None?
    ensures Stepped(s, f).heap[f].state == Active
  {
    var cleared := Without(s.store, s.heap[f].scope);
    forall k | k in s.heap[f].comp.provisions
      ensures k !in cleared
    {
      assert k !in Roots(s);
    }
  }

  lemma ActiveProvides(s: Sys, g: nat, k: KeyRef)
    requires Bindings(s) && g in ActiveFibers(s) && k in s.heap[g].comp.provisions
    ensures Avail(s, k)
  {
    assert k in s.heap[g].scope;
  }

  /** At a fixpoint a registered component that can load and does not fail is active. */
  lemma SatisfiedIsActive(s: Sys, f: nat)
    requires Rest(s) && FailuresAreOwn(s) && f in s.fibers && f < |s.heap| && Sat(s, f)
    requires s.heap[f].comp.failsAfter.None?
    ensures f in ActiveFibers(s)
  {
    hide Bindings, Sat;
    assert Stable(s, f);
  }

  lemma RestIsClosed(s: Sys, c: Component)
    requires Rest(s) && FailuresAreOwn(s)
    requires c in Comps(s) && Supported(Roots(s), ActiveComps(s), c)
    ensures c in ActiveComps(s)
  {
    hide Bindings, Lifecycle, AllStable, FailuresAreOwn;
    var a := ActiveComps(s);
    var f :| f in s.fibers && f < |s.heap| && s.heap[f].comp == c;
    forall k | k in c.inject
      ensures Avail(s, k)
    {
      assert Provided(Roots(s), a, k);
      if k !in Roots(s) {
        var d :| d in a && k in d.provisions;
        var g :| g in ActiveFibers(s) && s.heap[g].comp == d;
        ActiveProvides(s, g, k);
      }
    }
    SatisfiedIsActive(s, f);
  }

  lemma RestIsSupported(s: Sys, c: Component)
    requires Rest(s) && c in ActiveComps(s)
    ensures Supported(Roots(s), ActiveComps(s), c)
  {
    var f :| f in ActiveFibers(s) && s.heap[f].comp == c;
    assert Stable(s, f);
    SatIsSupported(s, f, ActiveComps(s));
  }

  /** At a fixpoint the active components are the least fixpoint. */
  lemma RestIsLeast(s: Sys)
    requires Rest(s) && Good(s)
    ensures IsLeast(Comps(s), Roots(s), ActiveComps(s))
  {
    forall c | c in Comps(s)
      ensures c in ActiveComps(s) <==> Supported(Roots(s), ActiveComps(s), c)
    {
      if c in ActiveComps(s) {
        RestIsSupported(s, c);
      } else if Supported(Roots(s), ActiveComps(s), c) {
        RestIsClosed(s, c);
      }
    }
  }

  lemma LeastIsUnique(comps: set<Component>, roots: set<KeyRef>, a: set<Component>, b: set<Component>)
    requires IsLeast(comps, roots, a) && IsLeast(comps, roots, b)
    ensures a == b
  {
    assert ClosedUnder(comps, roots, a) && ClosedUnder(comps, roots, b);
  }

  /** The active set depends on what is registered, not on the order or history of registration. */
  lemma ActiveSetIsOrderIndependent(s: Sys, t: Sys)
    requires Rest(s) && Good(s) && Rest(t) && Good(t)
    requires Comps(s) == Comps(t) && Roots(s) == Roots(t)
    ensures ActiveComps(s) == ActiveComps(t)
  {
    RestIsLeast(s);
    RestIsLeast(t);
    LeastIsUnique(Comps(s), Roots(s), ActiveComps(s), ActiveComps(t));
  }

  /** `k` is available from nowhere but the cycle. */
  ghost predicate OnlyFrom(comps: set<Component>, roots: set<KeyRef>, cycle: set<Component>, k: KeyRef) {
    k !in roots && forall d | d in comps && k in d.provisions :: d in cycle
  }

  /** Components that each need a key only the group itself offers never become active. */
  lemma CycleStaysInactive(s: Sys, cycle: set<Component>)
    requires Rest(s) && Good(s)
    requires forall c | c in cycle :: exists k :: k in c.inject && OnlyFrom(Comps(s), Roots(s), cycle, k)
    ensures ActiveComps(s) !! cycle
  {
    var b := Comps(s) - cycle;
    forall c | c in Comps(s) && Supported(Roots(s), b, c)
      ensures c in b
    {
    }
    assert ClosedUnder(Comps(s), Roots(s), b);
  }

  // ---------------------------------------------------------------- runs of steps

  ghost predicate Phase(s: Sys, grow: bool) {
    if grow then Growing(s) else Shrinking(s)
  }

  /** What a run of steps within one phase has kept, from `s` to `t`. */
  ghost predicate Progress(s: Sys, t: Sys, grow: bool) {
    && Valid(t) && Phase(t, grow) && SameShape(s, t)
    && (if grow then ActiveFibers(s) <= ActiveFibers(t) else ActiveFibers(t) <= ActiveFibers(s))
    && (if grow then Good(s) && NoneUnloading(s) ==> Good(t) else FailuresAreOwn(s) ==> FailuresAreOwn(t))
  }

  ghost predicate NoneUnloading(s: Sys) {
    forall f | 0 <= f < |s.heap| :: s.heap[f].state != Unloading
  }

  /** The quantity that drops with every transition: unsettled fibers, or active ones. */
  ghost function Remaining(s: Sys, grow: bool): nat {
    if grow then |Unsettled(s)| else |ActiveFibers(s)|
  }

  lemma StepProgress(s: Sys, f: nat, grow: bool)
    requires Valid(s) && Phase(s, grow) && f in s.fibers
    ensures Progress(s, Stepped(s, f), grow)
    ensures Remaining(Stepped(s, f), grow) <= Remaining(s, grow)
    ensures !Stable(s, f) ==> Remaining(Stepped(s, f), grow) < Remaining(s, grow)
  {
    var t := Stepped(s, f);
    StepKeepsValid(s, f);
    if grow {
      GrowStep(s, f);
      SmallerSet(Unsettled(t), Unsettled(s), f);
      if Good(s) && NoneUnloading(s) {
        GrowKeepsGood(s, f);
      }
    } else {
      ShrinkStep(s, f);
      SmallerSet(ActiveFibers(t), ActiveFibers(s), f);
    }
  }

  lemma SmallerSet(a: set<nat>, b: set<nat>, x: nat)
    requires a <= b
    ensures |a| <= |b|
    ensures x in b && x !in a ==> |a| < |b|
  {
    assert b == a + (b - a);
    if x in b && x !in a {
      assert x in b - a;
    }
  }

  lemma ProgressIsTransitive(s: Sys, t: Sys, u: Sys, grow: bool)
    requires Progress(s, t, grow) && Progress(t, u, grow)
    ensures Progress(s, u, grow)
  {
    if NoneUnloading(s) {
      assert NoneUnloading(t);
    }
  }

  /** A removal leaves behind only what is still forced to be active. */
  lemma ShrinkKeepsGrounded(s: Sys, t: Sys)
    requires Good(s) && Rest(t)
    requires Comps(t) <= Comps(s) && Roots(t) <= Roots(s) && ActiveComps(t) <= ActiveComps(s) <= Comps(s)
    ensures Grounded(t)
  {
    hide Rest, ClosedUnder, UniqueProviders, FailuresAreOwn, Comps, ActiveComps, Roots;
    forall b: set<Component> | ClosedUnder(Comps(t), Roots(t), b)
      ensures ActiveComps(t) <= b
    {
      WideIsClosed(s, t, b);
      assert ActiveComps(s) <= b + (Comps(s) - ActiveComps(t));
    }
  }

  lemma WideIsClosed(s: Sys, t: Sys, b: set<Component>)
    requires UniqueProviders(s) && Rest(t) && ClosedUnder(Comps(t), Roots(t), b)
    requires Comps(t) <= Comps(s) && Roots(t) <= Roots(s) && ActiveComps(t) <= Comps(s)
    ensures ClosedUnder(Comps(s), Roots(s), b + (Comps(s) - ActiveComps(t)))
  {
    hide Rest, UniqueProviders, Supported, Comps, ActiveComps, Roots;
    forall c | c in Comps(s) && Supported(Roots(s), b + (Comps(s) - ActiveComps(t)), c)
      ensures c in b + (Comps(s) - ActiveComps(t))
    {
      if c in ActiveComps(t) {
        ShrinkSupport(s, t, b, c);
        ActiveIsRegistered(t);
      }
    }
  }

  lemma ActiveIsRegistered(s: Sys)
    ensures ActiveComps(s) <= Comps(s)
  {
  }

  lemma ShrinkSupport(s: Sys, t: Sys, b: set<Component>, c: Component)
    requires UniqueProviders(s) && Rest(t)
    requires Roots(t) <= Roots(s) && ActiveComps(t) <= Comps(s)
    requires c in ActiveComps(t)
    requires Supported(Roots(s), b + (Comps(s) - ActiveComps(t)), c)
    ensures Supported(Roots(t), b, c)
  {
    RestIsSupported(t, c);
    forall k | k in c.inject
      ensures Provided(Roots(t), b, k)
    {
      assert Provided(Roots(t), ActiveComps(t), k);
      assert Provided(Roots(s), b + (Comps(s) - ActiveComps(t)), k);
      if k !in Roots(t) {
        var e :| e in ActiveComps(t) && k in e.provisions;
        var g :| g in s.fibers && g < |s.heap| && s.heap[g].comp == e;
        assert k !in Roots(s);
        var d :| d in b + (Comps(s) - ActiveComps(t)) && k in d.provisions;
        assert d in b;
      }
    }
  }

}
