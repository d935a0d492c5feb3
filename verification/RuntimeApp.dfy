/**
 The object of internal/core/app.go. Its methods follow the source step by step: the store, the
 fiber fields, the dirty and reconciling flags and the fixpoint loop are updated in place, and a
 binding withdrawn while no reconciliation runs starts one from inside the teardown.
 */
module RuntimeApp {
  import opened Options
  import opened Runtime

  /** The system once only the first `n` bindings of f's scope are left. */
  ghost function Partly(s: Sys, f: nat, n: nat): Sys
    requires f < |s.heap| && n <= |s.heap[f].scope|
  {
    s.(store := Without(s.store, s.heap[f].scope[n..]), heap := s.heap[f := s.heap[f].(scope := s.heap[f].scope[..n])])
  }

  /** The system after one binding has been withdrawn. */
  ghost function Taken(s: Sys, p: Provider, k: KeyRef): Sys {
    if k in s.store && s.store[k] == p then s.(store := map x | x in s.store && x != k :: s.store[x]) else s
  }

  /** Withdrawing the last binding left is one more step of the teardown. */
  lemma PopIsPartly(s: Sys, f: nat, n: nat)
    requires f < |s.heap| && 0 < n <= |s.heap[f].scope| && Bindings(s)
    ensures var u := Partly(s, f, n);
            Taken(u.(heap := u.heap[f := u.heap[f].(scope := u.heap[f].scope[..n - 1])]), By(f), u.heap[f].scope[n - 1])
            == Partly(s, f, n - 1)
  {
    var u := Partly(s, f, n);
    var ks := s.heap[f].scope;
    assert ks[..n][..n - 1] == ks[..n - 1];
    assert ks[n - 1..] == [ks[n - 1]] + ks[n..];
    assert ks[n - 1] in ks && s.store[ks[n - 1]] == By(f);
    assert ks[n - 1] !in ks[n..];
    assert Taken(u, By(f), ks[n - 1]).store == Without(s.store, ks[n - 1..]);
  }

  lemma WholeScope(s: Sys, f: nat)
    requires f < |s.heap|
    ensures Partly(s, f, |s.heap[f].scope|) == s
  {
    var ks := s.heap[f].scope;
    assert ks[|ks|..] == [] && ks[..|ks|] == ks;
    assert Without(s.store, []) == s.store;
    assert s.heap[f := s.heap[f]] == s.heap;
  }

  lemma PartlyKeepsBindings(s: Sys, f: nat, n: nat)
    requires f < |s.heap| && n <= |s.heap[f].scope| && s.heap[f].state in {Loading, Unloading} && Bindings(s)
    ensures Bindings(Partly(s, f, n)) && Roots(Partly(s, f, n)) == Roots(s)
  {
    var t := Partly(s, f, n);
    PartlyHolds(s, f, n);
    PartlyKeepsRoots(s, f, n);
    forall g | 0 <= g < |t.heap|
      ensures NoDup(t.heap[g].scope) && (t.heap[g].state in {Inactive, Failed} ==> t.heap[g].scope == [])
    {
      assert g == f || t.heap[g] == s.heap[g];
    }
    hide Roots, NoDup;
  }

  lemma PartlyHolds(s: Sys, f: nat, n: nat)
    requires f < |s.heap| && n <= |s.heap[f].scope| && Bindings(s)
    ensures var t := Partly(s, f, n); forall g, k | 0 <= g < |t.heap| && k in t.heap[g].scope ::
              k in t.store && t.store[k] == By(g)
  {
    var t := Partly(s, f, n);
    var ks := s.heap[f].scope;
    assert forall k | k in ks[..n] :: k in ks && k !in ks[n..];
    forall g, k | 0 <= g < |t.heap| && k in t.heap[g].scope
      ensures k in t.store && t.store[k] == By(g)
    {
      assert k in s.heap[g].scope;
      if g != f {
        ScopesAreDisjoint(s, f, g, k);
      }
    }
  }

  lemma PartlyKeepsRoots(s: Sys, f: nat, n: nat)
    requires f < |s.heap| && n <= |s.heap[f].scope| && Bindings(s)
    ensures Roots(Partly(s, f, n)) == Roots(s)
  {
    forall k | k in s.heap[f].scope[n..]
      ensures k in s.store && s.store[k] == By(f)
    {
      assert k in s.heap[f].scope;
    }
  }

  /** Tearing a retired fiber down wakes nobody: its bindings were already unavailable. */
  lemma PartlyKeepsStable(s: Sys, f: nat, n: nat)
    requires Valid(s) && AllStable(s)
    requires f < |s.heap| && f !in s.fibers && s.heap[f].state == Unloading && n <= |s.heap[f].scope|
    ensures Valid(Partly(s, f, n)) && AllStable(Partly(s, f, n))
  {
    hide Bindings, AllStable, Avail, Without;
    PartlyKeepsBindings(s, f, n);
    PartlyKeepsAvailable(s, f, n);
    StableTransfers(s, Partly(s, f, n));
  }

  lemma PartlyKeepsAvailable(s: Sys, f: nat, n: nat)
    requires Bindings(s) && f < |s.heap| && s.heap[f].state == Unloading && n <= |s.heap[f].scope|
    ensures var t := Partly(s, f, n);
            forall k :: (Avail(t, k) <==> Avail(s, k)) && (Avail(t, k) ==> t.store[k] == s.store[k])
  {
    forall k | k in s.heap[f].scope[n..]
      ensures k in s.store && s.store[k] == By(f)
    {
      assert k in s.heap[f].scope;
    }
  }

  /** Whether a fiber is due depends only on itself and on who provides what is available. */
  lemma StableTransfers(s: Sys, t: Sys)
    requires AllStable(s) && t.fibers == s.fibers && |t.heap| == |s.heap|
    requires forall g | g in s.fibers && g < |s.heap| :: t.heap[g] == s.heap[g]
    requires forall k :: (Avail(t, k) <==> Avail(s, k)) && (Avail(t, k) ==> t.store[k] == s.store[k])
    ensures AllStable(t)
  {
    hide Avail;
    forall g | g in t.fibers && g < |t.heap|
      ensures Stable(t, g)
    {
      assert Stable(s, g) && Sat(t, g) == Sat(s, g);
      if Sat(t, g) {
        assert Resolve(t, g) == Resolve(s, g);
      }
    }
  }

  lemma MarkKeepsBindings(s: Sys, f: nat, fb: Fiber)
    requires f < |s.heap| && Bindings(s)
    requires fb.scope == s.heap[f].scope && fb.state in {Loading, Unloading}
    ensures Bindings(s.(heap := s.heap[f := fb]))
  {
    var t := s.(heap := s.heap[f := fb]);
    assert forall g | 0 <= g < |s.heap| :: t.heap[g].scope == s.heap[g].scope;
  }

  /** What Apply has done by the time it has published `scope` and stopped. */
  ghost predicate Applied(s: Sys, t: Sys, f: nat, ok: bool) {
    && f < |s.heap| == |t.heap| && s.fibers == t.fibers
    && t.heap == s.heap[f := s.heap[f].(scope := t.heap[f].scope)]
    && t.store == Bound(s.store, t.heap[f].scope, f)
    && (forall k | k in t.heap[f].scope :: k !in s.store)
    && ok == Loads(s.store, s.heap[f].comp)
    && (ok ==> t.heap[f].scope == s.heap[f].comp.provisions)
  }

  /** Disposing, applying and, on failure, rolling back is the load transition. */
  lemma LoadIsLoaded(s: Sys, f: nat, cleared: Sys, applied: Sys, final: Sys, ok: bool)
    requires f < |s.heap| && Sat(s, f)
    requires cleared == Partly(s.(heap := s.heap[f := s.heap[f].(state := Loading, target := Resolve(s, f))]), f, 0)
    requires Applied(cleared, applied, f, ok)
    requires final == if ok then applied else Partly(applied, f, 0)
    ensures final.(heap := final.heap[f := final.heap[f].(state := if ok then Active else Failed)]) == Loaded(s, f)
  {
    var ks := applied.heap[f].scope;
    assert ks[0..] == ks && ks[..0] == [];
    assert s.heap[f].scope[0..] == s.heap[f].scope;
    assert Without(Bound(cleared.store, ks, f), ks) == cleared.store;
  }

  /** Apply with the first `i` declared keys published. */
  ghost function Published(s: Sys, f: nat, i: nat): Sys
    requires f < |s.heap| && i <= |s.heap[f].comp.provisions|
  {
    var ks := s.heap[f].comp.provisions[..i];
    s.(store := Bound(s.store, ks, f), heap := s.heap[f := s.heap[f].(scope := ks)])
  }

  /** None of the first `i` declared keys was taken. */
  ghost predicate Free(s: Sys, f: nat, i: nat)
    requires f < |s.heap| && i <= |s.heap[f].comp.provisions|
  {
    var ks := s.heap[f].comp.provisions[..i];
    NoDup(ks) && forall k | k in ks :: k !in s.store
  }

  lemma BoundNext(store: map<KeyRef, Provider>, ks: seq<KeyRef>, f: nat, i: nat)
    requires i < |ks|
    ensures Bound(store, ks[..i], f)[ks[i] := By(f)] == Bound(store, ks[..i + 1], f)
    ensures ks[i] in Bound(store, ks[..i], f) <==> ks[i] in store || ks[i] in ks[..i]
  {
    assert ks[..i + 1] == ks[..i] + [ks[i]];
  }

  lemma PublishNext(s: Sys, f: nat, i: nat)
    requires f < |s.heap| && i < |s.heap[f].comp.provisions| && Free(s, f, i)
    ensures var k, u := s.heap[f].comp.provisions[i], Published(s, f, i);
            if k in u.store then !Loads(s.store, s.heap[f].comp)
            else Free(s, f, i + 1) &&
                 Sys(u.store[k := By(f)], u.fibers, u.heap[f := u.heap[f].(scope := u.heap[f].scope + [k])]) ==
                   Published(s, f, i + 1)
  {
    hide Bound;
    var ks := s.heap[f].comp.provisions;
    BoundNext(s.store, ks, f, i);
    assert ks[..i + 1] == ks[..i] + [ks[i]];
  }

  lemma PublishedKeepsBindings(s: Sys, f: nat, i: nat)
    requires f < |s.heap| && i <= |s.heap[f].comp.provisions| && Free(s, f, i) && Bindings(s)
    requires s.heap[f].scope == [] && s.heap[f].state == Loading
    ensures Bindings(Published(s, f, i))
  {
    var t := Published(s, f, i);
    forall g, k | 0 <= g < |t.heap| && k in t.heap[g].scope
      ensures k in t.store && t.store[k] == By(g)
    {
      if g != f {
        assert k in s.heap[g].scope;
      }
    }
  }

  lemma NothingPublished(s: Sys, f: nat)
    requires f < |s.heap| && s.heap[f].scope == []
    ensures Published(s, f, 0) == s
  {
    assert Bound(s.store, [], f) == s.store;
    assert s.heap[f := s.heap[f]] == s.heap;
  }

  // ---------------------------------------------------------------- registering and removing

  ghost function Registered(s: Sys, c: Component): Sys {
    s.(fibers := s.fibers + [|s.heap|], heap := s.heap + [Fiber(c, Inactive, map[], [], false)])
  }

  lemma RegisteringGrows(s: Sys, c: Component)
    requires Rest(s)
    ensures Valid(Registered(s, c)) && Growing(Registered(s, c)) && NoneUnloading(Registered(s, c))
  {
    var t := Registered(s, c);
    RestIsBothPhases(s);
    assert |s.heap| !in s.fibers;
    assert NoDup(t.fibers) by {
      forall i, j | 0 <= i < j < |t.fibers|
        ensures t.fibers[i] != t.fibers[j]
      {
        assert t.fibers[i] in s.fibers;
      }
    }
    assert forall k :: Avail(s, k) <==> Avail(t, k);
    forall f | f in t.fibers && f < |t.heap| && t.heap[f].state == Active
      ensures Settled(t, f)
    {
      assert Settled(s, f);
      assert Resolve(t, f) == Resolve(s, f);
    }
  }

  lemma RegisteringKeepsGood(s: Sys, c: Component)
    requires Rest(s) && Good(s) && UniqueProviders(Registered(s, c))
    ensures Good(Registered(s, c))
  {
    var t := Registered(s, c);
    assert ActiveFibers(t) == ActiveFibers(s);
    assert ActiveComps(t) == ActiveComps(s);
    assert Roots(t) == Roots(s);
    assert forall f | f in s.fibers :: f in t.fibers && t.heap[f] == s.heap[f];
    assert Comps(s) <= Comps(t);
    forall b: set<Component> | ClosedUnder(Comps(t), Roots(t), b)
      ensures ActiveComps(t) <= b
    {
      assert ClosedUnder(Comps(s), Roots(s), b);
    }
  }

  lemma UseReached(s: Sys, c: Component)
    requires Rest(s)
    ensures forall t | Progress(Registered(s, c), t, true) && AllStable(t) ::
              Rest(t) && SameShape(Registered(s, c), t) && (Good(Registered(s, c)) ==> Good(t))
                && (UniqueProviders(t) ==> UniqueProviders(Registered(s, c)))
  {
  }

  /** The fiber at position `i` leaves the registration and stops providing. */
  ghost function Retired(s: Sys, i: nat): Sys
    requires i < |s.fibers| && s.fibers[i] < |s.heap|
  {
    var f := s.fibers[i];
    var fb := s.heap[f];
    s.(fibers := s.fibers[..i] + s.fibers[i + 1..],
       heap := s.heap[f := fb.(removed := true, state := if fb.state == Active then Unloading else fb.state)])
  }

  lemma RetiredIs(s: Sys, i: nat, t: Sys)
    requires i < |s.fibers| && s.fibers[i] < |s.heap|
    requires var f, fb := s.fibers[i], s.heap[s.fibers[i]];
             && t.store == s.store && t.fibers == s.fibers[..i] + s.fibers[i + 1..]
             && t.heap == s.heap[f := fb.(removed := true, state := if fb.state == Active then Unloading else fb.state)]
    ensures t == Retired(s, i)
  {
  }

  lemma RegisteredExists(s: Sys, i: nat)
    requires Rest(s) && i < |s.fibers|
    ensures s.fibers[i] < |s.heap| && s.fibers[i] in s.fibers
  {
    assert s.fibers[i] in s.fibers;
  }

  lemma DropAt(s: seq<nat>, i: nat)
    requires i < |s| && NoDup(s)
    ensures NoDup(s[..i] + s[i + 1..])
    ensures forall x :: x in s[..i] + s[i + 1..] <==> x in s && x != s[i]
  {
    var t := s[..i] + s[i + 1..];
    forall x
      ensures x in t <==> x in s && x != s[i]
    {
      if x in s && x != s[i] {
        var j :| 0 <= j < |s| && s[j] == x;
        assert x == t[if j < i then j else j - 1];
      }
    }
  }

  lemma RetiringKeepsLifecycle(s: Sys, i: nat)
    requires Lifecycle(s) && i < |s.fibers| && s.fibers[i] < |s.heap|
    ensures Lifecycle(Retired(s, i))
    ensures forall g :: g in Retired(s, i).fibers <==> g in s.fibers && g != s.fibers[i]
  {
    hide NoDup;
    var t := Retired(s, i);
    DropAt(s.fibers, i);
    assert s.fibers[i] in s.fibers;
    forall g | g in t.fibers
      ensures g < |t.heap| && !t.heap[g].removed && t.heap[g].state in {Inactive, Active, Failed}
    {
      assert g in s.fibers;
    }
    forall g | 0 <= g < |t.heap| && g !in t.fibers
      ensures t.heap[g].removed && t.heap[g].state in {Inactive, Unloading, Failed}
    {
      assert g == s.fibers[i] || g !in s.fibers;
    }
  }

  lemma RetiringKeepsBindings(s: Sys, i: nat)
    requires Bindings(s) && i < |s.fibers| && s.fibers[i] < |s.heap|
    ensures Bindings(Retired(s, i)) && Roots(Retired(s, i)) == Roots(s)
  {
    hide NoDup;
    assert forall g | 0 <= g < |s.heap| :: Retired(s, i).heap[g].scope == s.heap[g].scope;
  }

  lemma RetiringKeepsValid(s: Sys, i: nat)
    requires Rest(s) && i < |s.fibers| && s.fibers[i] < |s.heap|
    ensures Valid(Retired(s, i)) && Roots(Retired(s, i)) == Roots(s)
    ensures forall g :: g in Retired(s, i).fibers <==> g in s.fibers && g != s.fibers[i]
  {
    hide Lifecycle, Bindings, AllStable, Retired;
    RetiringKeepsLifecycle(s, i);
    RetiringKeepsBindings(s, i);
  }

  lemma RetiringShrinks(s: Sys, i: nat)
    requires Rest(s) && i < |s.fibers| && s.fibers[i] < |s.heap|
    ensures Shrinking(Retired(s, i))
  {
    var t := Retired(s, i);
    RetiringKeepsValid(s, i);
    RestIsBothPhases(s);
    hide Valid, AllStable;
    forall g | g in t.fibers && g < |t.heap| && Sat(t, g)
      ensures Settled(t, g)
    {
      forall k | k in t.heap[g].comp.inject
        ensures Avail(s, k)
      {
        assert Avail(t, k);
      }
      assert Settled(s, g);
      assert Resolve(t, g) == Resolve(s, g);
    }
  }

  /** What App.forceUnload does to the system. */
  ghost function Forced(s: Sys, f: nat): Sys
    requires f < |s.heap|
  {
    if s.heap[f].state == Inactive then s
    else s.(store := Without(s.store, s.heap[f].scope),
            heap := s.heap[f := s.heap[f].(state := Inactive, target := map[], scope := [])])
  }

  /** What Remove leaves: f is gone and inert, everything else that is registered kept its component. */
  ghost predicate Removed(s: Sys, t: Sys, f: nat) {
    && f < |s.heap| == |t.heap|
    && (forall g :: g in t.fibers <==> g in s.fibers && g != f)
    && (forall g | 0 <= g < |s.heap| :: t.heap[g].comp == s.heap[g].comp)
    && t.heap[f].state == Inactive && t.heap[f].removed
    && Roots(t) == Roots(s)
    && ActiveFibers(t) <= ActiveFibers(s)
  }

  lemma ForcedIsUnloading(s: Sys, f: nat)
    requires Valid(s) && AllStable(s) && f < |s.heap| && f !in s.fibers && s.heap[f].state != Inactive
    ensures var u := s.(heap := s.heap[f := s.heap[f].(state := Unloading, target := map[])]);
            && Valid(u) && AllStable(u)
            && Partly(u, f, 0).(heap := Partly(u, f, 0).heap[f := Partly(u, f, 0).heap[f].(state := Inactive)]) ==
               Forced(s, f)
  {
    var u := s.(heap := s.heap[f := s.heap[f].(state := Unloading, target := map[])]);
    MarkKeepsBindings(s, f, u.heap[f]);
    StableTransfers(s, u);
    assert s.heap[f].scope[0..] == s.heap[f].scope;
  }

  lemma ForcedRests(s: Sys, f: nat)
    requires Valid(s) && AllStable(s) && f < |s.heap| && f !in s.fibers
    requires forall g | 0 <= g < |s.heap| && g != f :: s.heap[g].state != Unloading
    ensures Rest(Forced(s, f)) && Roots(Forced(s, f)) == Roots(s)
  {
    if s.heap[f].state != Inactive {
      ForcedIsUnloading(s, f);
      var u := s.(heap := s.heap[f := s.heap[f].(state := Unloading, target := map[])]);
      PartlyKeepsStable(u, f, 0);
      PartlyKeepsBindings(u, f, 0);
      SettingInactive(Partly(u, f, 0), f);
    }
  }

  lemma SettingInactive(s: Sys, f: nat)
    requires Valid(s) && AllStable(s) && f < |s.heap| && f !in s.fibers
    requires s.heap[f].state == Unloading && s.heap[f].scope == []
    ensures var t := s.(heap := s.heap[f := s.heap[f].(state := Inactive)]);
            Valid(t) && AllStable(t) && Roots(t) == Roots(s)
  {
    var t := s.(heap := s.heap[f := s.heap[f].(state := Inactive)]);
    assert forall g | 0 <= g < |s.heap| :: t.heap[g].scope == s.heap[g].scope;
    assert Bindings(t);
    StableTransfers(s, t);
  }

  lemma RemoveReached(s: Sys, i: nat, t: Sys)
    requires Rest(s) && i < |s.fibers| && s.fibers[i] < |s.heap|
    requires Progress(Retired(s, i), t, false) && AllStable(t)
    ensures var f := s.fibers[i]; f < |t.heap| && f !in t.fibers && Rest(Forced(t, f)) && Removed(s, Forced(t, f), f)
  {
    hide Rest, Valid, AllStable, Phase, Good, FailuresAreOwn, Progress;
    var f, r := s.fibers[i], Retired(s, i);
    RetiringKeepsValid(s, i);
    ProgressGives(r, t);
    QuietBefore(s, i, t);
    ForcedRests(t, f);
    assert ActiveFibers(Forced(t, f)) == ActiveFibers(t);
    assert ActiveFibers(r) <= ActiveFibers(s);
  }

  lemma ProgressStarts(s: Sys, grow: bool)
    requires Valid(s) && Phase(s, grow)
    ensures Progress(s, s, grow)
  {
  }

  lemma ProgressEnds(s: Sys, t: Sys, grow: bool)
    requires Progress(s, t, grow)
    ensures Valid(t) && Phase(t, grow)
  {
  }

  lemma ProgressHolds(s: Sys, t: Sys, grow: bool, i: nat)
    requires Progress(s, t, grow) && i < |s.fibers|
    ensures Valid(t) && Phase(t, grow) && t.fibers == s.fibers && s.fibers[i] in t.fibers
    ensures s.fibers[i] < |t.heap| == |s.heap|
  {
    hide Good, Phase, Bindings, FailuresAreOwn;
    assert s.fibers[i] in s.fibers;
  }

  lemma SteppedOrNot(s: Sys, f: nat)
    requires Valid(s) && f in s.fibers && f < |s.heap|
    ensures Stable(s, f) ==> Stepped(s, f) == s
    ensures !Stable(s, f) ==> !AllStable(s)
  {
  }

  lemma AllChecked(s: Sys)
    requires forall j | 0 <= j < |s.fibers| :: s.fibers[j] < |s.heap| && Stable(s, s.fibers[j])
    ensures AllStable(s)
  {
  }

  lemma ProgressGives(r: Sys, t: Sys)
    requires Progress(r, t, false)
    ensures Valid(t) && SameShape(r, t) && ActiveFibers(t) <= ActiveFibers(r)
  {
  }

  /** Nothing but the fiber being removed is mid-teardown. */
  lemma QuietBefore(s: Sys, i: nat, t: Sys)
    requires Rest(s) && i < |s.fibers| && s.fibers[i] < |s.heap|
    requires SameShape(Retired(s, i), t) && Valid(t)
    ensures forall g | 0 <= g < |t.heap| && g != s.fibers[i] :: t.heap[g].state != Unloading
  {
    hide Bindings, AllStable;
  }

  /** Once the removal has been reconciled, nothing active injects a key of the removed fiber. */
  lemma NobodyDepends(s: Sys, i: nat, t: Sys)
    requires Rest(s) && i < |s.fibers| && s.fibers[i] < |s.heap|
    requires Progress(Retired(s, i), t, false) && AllStable(t)
    ensures Valid(t) && s.fibers[i] < |t.heap| && s.fibers[i] !in t.fibers
    ensures forall g | g in t.fibers :: g < |t.heap|
    ensures forall g | g in t.fibers && t.heap[g].state == Active :: forall k | k in t.heap[s.fibers[i]].scope ::
              k !in t.heap[g].comp.inject
  {
    hide Rest, Bindings, AllStable, Phase, Good, FailuresAreOwn, NoDup;
    var f := s.fibers[i];
    RetiringKeepsValid(s, i);
    forall g, k | g in t.fibers && t.heap[g].state == Active && k in t.heap[f].scope
      ensures k !in t.heap[g].comp.inject
    {
      InertProvides(t, f, g, k);
    }
  }

  lemma InertProvides(t: Sys, f: nat, g: nat, k: KeyRef)
    requires Bindings(t) && AllStable(t) && g in t.fibers && f < |t.heap| && g < |t.heap|
    requires !t.heap[g].removed && t.heap[g].state == Active && t.heap[f].state != Active && k in t.heap[f].scope
    ensures k !in t.heap[g].comp.inject
  {
    assert Stable(t, g);
  }

  lemma RemoveKeepsGood(s: Sys, i: nat, t: Sys)
    requires Rest(s) && Good(s) && i < |s.fibers| && s.fibers[i] < |s.heap|
    requires Progress(Retired(s, i), t, false) && AllStable(t)
    ensures var f := s.fibers[i]; f < |t.heap| && Good(Forced(t, f))
  {
    hide Bindings, NoDup, AllStable, Phase, NoneUnloading;
    var f := s.fibers[i];
    var u := Forced(t, f);
    RemoveReached(s, i, t);
    assert forall g | g in u.fibers :: g in s.fibers && u.heap[g].comp == s.heap[g].comp && u.heap[g] == t.heap[g];
    assert FailuresAreOwn(Retired(s, i));
    assert Comps(u) <= Comps(s);
    assert ActiveComps(u) <= ActiveComps(s) <= Comps(s);
    ShrinkKeepsGrounded(s, u);
  }

  // ---------------------------------------------------------------- the root context

  lemma RootPublishingGrows(s: Sys, k: KeyRef)
    requires Rest(s) && k !in s.store
    ensures var t := s.(store := s.store[k := Root]);
            Valid(t) && Growing(t) && NoneUnloading(t) && (Good(s) && UniqueProviders(t) ==> Good(t))
  {
    var t := s.(store := s.store[k := Root]);
    RestIsBothPhases(s);
    RootKeepsBindings(s, t, k);
    hide Bindings, UniqueProviders, Grounded;
    assert forall x | Avail(s, x) :: Avail(t, x) && t.store[x] == s.store[x];
    forall f | f in t.fibers && f < |t.heap| && t.heap[f].state == Active
      ensures Settled(t, f)
    {
      assert Settled(s, f);
      assert Resolve(t, f) == Resolve(s, f);
    }
    if Good(s) {
      RootKeepsGrounded(s, t, k);
    }
  }

  lemma RootKeepsBindings(s: Sys, t: Sys, k: KeyRef)
    requires Bindings(s) && k !in s.store && t == s.(store := s.store[k := Root])
    ensures Bindings(t)
  {
    hide NoDup;
  }

  /** A root binding provides for more, so what was forced to be active still is. */
  lemma RootKeepsGrounded(s: Sys, t: Sys, k: KeyRef)
    requires Grounded(s) && k !in s.store && t == s.(store := s.store[k := Root])
    ensures Grounded(t)
  {
    assert Comps(s) == Comps(t) && ActiveFibers(s) == ActiveFibers(t) && ActiveComps(s) == ActiveComps(t);
    assert Roots(s) <= Roots(t);
    forall b: set<Component> | ClosedUnder(Comps(t), Roots(t), b)
      ensures ActiveComps(t) <= b
    {
      assert ClosedUnder(Comps(s), Roots(s), b);
    }
  }

  lemma RootPublicationRests(s: Sys, u: Sys, t: Sys)
    requires Progress(u, t, true) && AllStable(t) && NoneUnloading(u) && (Good(s) && UniqueProviders(u) ==> Good(u))
    ensures Rest(t) && SameShape(u, t)
    ensures Good(s) && UniqueProviders(t) ==> Good(t)
  {
    hide Bindings, AllStable, NoDup;
    if UniqueProviders(t) {
      ShapeKeepsUnique(t, u);
    }
  }

  lemma RootWithdrawalShrinks(s: Sys, k: KeyRef)
    requires Rest(s)
    ensures Valid(Taken(s, Root, k)) && Shrinking(Taken(s, Root, k))
  {
    var t := Taken(s, Root, k);
    RestIsBothPhases(s);
    assert Bindings(t);
    assert forall x | Avail(t, x) :: Avail(s, x) && t.store[x] == s.store[x];
    forall f | f in t.fibers && f < |t.heap| && Sat(t, f)
      ensures Settled(t, f)
    {
      assert Settled(s, f);
      assert Resolve(t, f) == Resolve(s, f);
    }
  }

  lemma RootWithdrawalRests(s: Sys, k: KeyRef, t: Sys)
    requires Rest(s) && Progress(Taken(s, Root, k), t, false) && AllStable(t)
    ensures Rest(t) && SameShape(Taken(s, Root, k), t)
    ensures Good(s) ==> Good(t)
  {
    hide Bindings, AllStable, NoDup, UniqueProviders, FailuresAreOwn, Grounded;
    if Good(s) {
      RootWithdrawalKeepsGood(s, k, t);
    }
  }

  lemma RootWithdrawalKeepsGood(s: Sys, k: KeyRef, t: Sys)
    requires Rest(s) && Good(s)
    requires Progress(Taken(s, Root, k), t, false) && Rest(t)
    ensures Good(t)
  {
    hide Bindings, AllStable, NoDup;
    var u := Taken(s, Root, k);
    assert Roots(u) <= Roots(s);
    assert UniqueProviders(u) && FailuresAreOwn(u);
    ShapeKeepsUnique(u, t);
    assert Comps(t) == Comps(s);
    assert forall f | f in ActiveFibers(t) :: f in ActiveFibers(s) && t.heap[f].comp == s.heap[f].comp;
    assert ActiveComps(t) <= ActiveComps(s) <= Comps(s);
    ShrinkKeepsGrounded(s, t);
  }

  class App {
    var store: map<KeyRef, Provider>
    var fibers: seq<nat>
    var heap: seq<Fiber>
    var reconciling: bool
    var dirty: bool

    ghost function View(): Sys
      reads this
    {
      Sys(store, fibers, heap)
    }

    constructor ()
      ensures View() == Sys(map[], [], []) && !reconciling
      ensures Rest(View()) && Good(View())
    {
      store, fibers, heap := map[], [], [];
      reconciling, dirty := false, false;
      new;
      assert ActiveComps(View()) == {};
    }

    /** The disposer bind returns: withdraw the binding if it is still this provider's. */
    method Withdraw(provider: Provider, k: KeyRef)
      requires reconciling || (Valid(Taken(View(), provider, k)) && AllStable(Taken(View(), provider, k)))
      modifies this
      ensures View() == Taken(old(View()), provider, k) && reconciling == old(reconciling)
      decreases if reconciling then 0 else 1, 2
    {
      if k in store && store[k] == provider {
        store := map x | x in store && x != k :: store[x];
      }
      ghost var s := View();
      if !reconciling {
        RestIsBothPhases(s);
      }
      RequestReconcile(false);
    }

    /** Runs the inverses of one activation, last published first. */
    method Dispose(f: nat)
      requires f < |heap| && Bindings(View()) && heap[f].state in {Loading, Unloading}
      requires reconciling || (Valid(View()) && AllStable(View()) && f !in fibers && heap[f].state == Unloading)
      modifies this
      ensures View() == Partly(old(View()), f, 0) && reconciling == old(reconciling)
      ensures reconciling ==> (dirty ==> old(dirty) || old(heap[f].scope) != [])
      decreases if reconciling then 0 else 1, 3
    {
      hide Bindings, Valid, AllStable, Without;
      ghost var before := View();
      var n := |heap[f].scope|;
      WholeScope(before, f);
      while n != 0
        invariant 0 <= n <= |before.heap[f].scope| && View() == Partly(before, f, n)
        invariant reconciling == old(reconciling)
        invariant reconciling ==> (dirty ==> old(dirty) || before.heap[f].scope != [])
      {
        PopIsPartly(before, f, n);
        if !reconciling {
          PartlyKeepsStable(before, f, n - 1);
        }
        n := n - 1;
        var k := heap[f].scope[n];
        heap := heap[f := heap[f].(scope := heap[f].scope[..n])];
        Withdraw(By(f), k);
      }
    }

    method RequestReconcile(ghost grow: bool)
      requires !reconciling ==> Valid(View()) && Phase(View(), grow)
      modifies this
      ensures old(reconciling) ==> View() == old(View()) && reconciling && dirty
      ensures !old(reconciling) ==> !reconciling && AllStable(View()) && Progress(old(View()), View(), grow)
      ensures AllStable(old(View())) ==> View() == old(View())
      decreases if reconciling then 0 else 1, 1
    {
      dirty := true;
      if reconciling {
        return;
      }
      reconciling := true;
      Reconcile(grow);
    }

    /** Passes over the fibers until no state changes and no new work was requested. */
    method Reconcile(ghost grow: bool)
      requires reconciling && Valid(View()) && Phase(View(), grow)
      modifies this
      ensures !reconciling && AllStable(View()) && Progress(old(View()), View(), grow)
      ensures AllStable(old(View())) ==> View() == old(View())
      decreases if reconciling then 0 else 1, 6
    {
      hide Valid, Phase, Progress, Remaining, AllStable;
      ghost var before := View();
      ProgressStarts(before, grow);
      while true
        invariant reconciling && Progress(before, View(), grow)
        invariant AllStable(before) ==> View() == before
        decreases Remaining(View(), grow)
      {
        dirty := false;
        ghost var u := View();
        ProgressEnds(before, u, grow);
        var changed := Pass(grow);
        ProgressIsTransitive(before, u, View(), grow);
        if !changed && !dirty {
          reconciling := false;
          return;
        }
      }
    }

    method Pass(ghost grow: bool) returns (changed: bool)
      requires reconciling && Valid(View()) && Phase(View(), grow)
      modifies this
      ensures reconciling && Progress(old(View()), View(), grow)
      ensures dirty ==> old(dirty) || changed
      ensures changed ==> Remaining(View(), grow) < Remaining(old(View()), grow) && !AllStable(old(View()))
      ensures !changed ==> View() == old(View()) && AllStable(View())
      decreases if reconciling then 0 else 1, 5
    {
      hide Valid, Phase, Progress, Remaining, Stepped, AllStable, Stable;
      ghost var before := View();
      var snapshot := fibers;
      changed := false;
      ProgressStarts(before, grow);
      for i := 0 to |snapshot|
        invariant reconciling && Progress(before, View(), grow)
        invariant dirty ==> old(dirty) || changed
        invariant if changed then Remaining(View(), grow) < Remaining(before, grow) && !AllStable(before)
                  else View() == before
        invariant !changed ==> forall j | 0 <= j < i :: snapshot[j] < |before.heap| && Stable(before, snapshot[j])
      {
        ghost var u := View();
        ProgressHolds(before, u, grow, i);
        StepProgress(u, snapshot[i], grow);
        var moved := Step(snapshot[i]);
        ProgressIsTransitive(before, u, View(), grow);
        SteppedOrNot(u, snapshot[i]);
        if moved {
          changed := true;
        }
      }
      if !changed {
        AllChecked(before);
      }
    }

    /** Advances one fiber by at most one transition. */
    method Step(f: nat) returns (changed: bool)
      requires reconciling && Valid(View()) && f in fibers
      modifies this
      ensures reconciling && View() == Stepped(old(View()), f)
      ensures changed == !Stable(old(View()), f)
      ensures dirty ==> old(dirty) || changed
      decreases if reconciling then 0 else 1, 4, 1
    {
      if heap[f].removed {
        return false;
      }
      var target, satisfied := ResolveTarget(f);
      var state := heap[f].state;
      if satisfied && (state == Inactive || ((state == Active || state == Failed) && target != heap[f].target)) {
        Load(f, target);
        return true;
      }
      if !satisfied && (state == Active || state == Loading) {
        Unload(f);
        return true;
      }
      return false;
    }

    /** A reload reverts the previous activation before it runs the new one; a failed one is rolled back. */
    method Load(f: nat, target: map<KeyRef, Provider>)
      requires reconciling && f < |heap| && Bindings(View()) && Sat(View(), f) && target == Resolve(View(), f)
      modifies this
      ensures reconciling && View() == Loaded(old(View()), f)
      decreases if reconciling then 0 else 1, 4, 0
    {
      ghost var s := View();
      heap := heap[f := heap[f].(state := Loading, target := target)];
      MarkKeepsBindings(s, f, heap[f]);
      PartlyKeepsBindings(View(), f, 0);
      Dispose(f);
      ghost var cleared := View();
      var ok := Apply(f);
      ghost var applied := View();
      if !ok {
        Dispose(f);
      }
      LoadIsLoaded(s, f, cleared, applied, View(), ok);
      heap := heap[f := heap[f].(state := if ok then Active else Failed)];
    }

    method Unload(f: nat)
      requires reconciling && f < |heap| && Bindings(View())
      modifies this
      ensures reconciling && View() == Unloaded(old(View()), f)
      decreases if reconciling then 0 else 1, 4, 0
    {
      heap := heap[f := heap[f].(state := Unloading)];
      MarkKeepsBindings(old(View()), f, heap[f]);
      Dispose(f);
      heap := heap[f := heap[f].(state := Inactive)];
    }

    /** The provider of every injected key, or false as soon as one has no active provider. */
    method ResolveTarget(f: nat) returns (target: map<KeyRef, Provider>, satisfied: bool)
      requires f < |heap|
      ensures satisfied == Sat(View(), f)
      ensures satisfied ==> target == Resolve(View(), f)
    {
      target := map[];
      var inject := heap[f].comp.inject;
      for i := 0 to |inject|
        invariant forall j | 0 <= j < i :: Avail(View(), inject[j])
        invariant target == map k | k in inject[..i] && k in store :: store[k]
      {
        if inject[i] !in store {
          assert !Avail(View(), inject[i]);
          return map[], false;
        }
        var b := store[inject[i]];
        if b.By? && !(b.fiber < |heap| && heap[b.fiber].state == Active) {
          assert !Avail(View(), inject[i]);
          return map[], false;
        }
        target := target[inject[i] := b];
      }
      satisfied := true;
      assert inject[..|inject|] == inject;
    }

    /** Publishes a key unless it is already bound. */
    method Bind(f: nat, k: KeyRef) returns (ok: bool)
      requires reconciling && f < |heap|
      modifies this
      ensures reconciling && fibers == old(fibers) && ok == (k !in old(store))
      ensures ok ==>
                store == old(store)[k := By(f)]
                && heap == old(heap)[f := old(heap[f]).(scope := old(heap[f].scope) + [k])]
      ensures !ok ==> store == old(store) && heap == old(heap)
      decreases if reconciling then 0 else 1, 2
    {
      if k in store {
        return false;
      }
      store := store[k := By(f)];
      RequestReconcile(true);
      heap := heap[f := heap[f].(scope := heap[f].scope + [k])];
      return true;
    }

    /** Runs the component: publish the declared keys in order, or stop with an error. */
    method Apply(f: nat) returns (ok: bool)
      requires reconciling && f < |heap| && heap[f].scope == [] && Bindings(View()) && heap[f].state == Loading
      modifies this
      ensures reconciling && Bindings(View()) && Applied(old(View()), View(), f, ok)
      decreases if reconciling then 0 else 1, 3
    {
      ghost var before := View();
      var comp := heap[f].comp;
      NothingPublished(before, f);
      for i := 0 to |comp.provisions|
        invariant reconciling && View() == Published(before, f, i) && Free(before, f, i)
        invariant comp.failsAfter.Some? ==> i <= comp.failsAfter.value
      {
        PublishedKeepsBindings(before, f, i);
        PublishNext(before, f, i);
        hide Bindings;
        if comp.failsAfter == Some(i) {
          return false;
        }
        var bound := Bind(f, comp.provisions[i]);
        if !bound {
          return false;
        }
      }
      PublishedKeepsBindings(before, f, |comp.provisions|);
      assert comp.provisions[..|comp.provisions|] == comp.provisions;
      ok := comp.failsAfter.None?;
    }

    /** Registers a component and runs the composition to its fixpoint. */
    method Use(c: Component) returns (f: Option<nat>)
      requires !reconciling && Rest(View())
      modifies this
      ensures !reconciling && Rest(View())
      ensures c.name == "" ==> f == None && View() == old(View())
      ensures c.name != "" ==> f == Some(|old(heap)|) && SameShape(Registered(old(View()), c), View())
      ensures old(Good(View())) && UniqueProviders(View()) ==> Good(View())
    {
      if c.name == "" {
        return None;
      }
      ghost var s := View();
      var id := |heap|;
      heap := heap + [Fiber(c, Inactive, map[], [], false)];
      fibers := fibers + [id];
      RegisteringGrows(s, c);
      if Good(s) && UniqueProviders(View()) {
        RegisteringKeepsGood(s, c);
      }
      UseReached(s, c);
      hide Valid, Growing, AllStable, Progress, Good, Rest;
      RequestReconcile(true);
      return Some(id);
    }

    /** Retires a fiber: its dependents unload first, then its own bindings are withdrawn. */
    method Remove(f: nat) returns (ok: bool)
      requires !reconciling && Rest(View())
      modifies this
      ensures !reconciling && Rest(View())
      ensures ok == (f in old(fibers))
      ensures !ok ==> View() == old(View())
      ensures ok ==> Removed(old(View()), View(), f)
      ensures old(Good(View())) ==> Good(View())
    {
      hide Valid, AllStable, Progress, Good, Rest, Shrinking, Removed, Retired, Forced;
      ghost var s := View();
      var i := 0;
      while i < |fibers| && fibers[i] != f
        invariant 0 <= i <= |fibers| && f !in fibers[..i]
      {
        i := i + 1;
      }
      if i == |fibers| {
        return false;
      }
      RegisteredExists(s, i);
      var state := if heap[f].state == Active then Unloading else heap[f].state;
      heap := heap[f := heap[f].(removed := true, state := state)];
      fibers := fibers[..i] + fibers[i + 1..];
      RetiredIs(s, i, View());
      RetiringKeepsValid(s, i);
      RetiringShrinks(s, i);
      RequestReconcile(false);
      RemoveReached(s, i, View());
      if Good(s) {
        RemoveKeepsGood(s, i, View());
      }
      NobodyDepends(s, i, View());
      ForceUnload(f);
      return true;
    }

    /** Reverts a fiber's effects unconditionally, once nothing active depends on them. */
    method ForceUnload(f: nat)
      requires !reconciling && Valid(View()) && AllStable(View()) && f < |heap| && f !in fibers
      requires forall g | g in fibers && heap[g].state == Active :: forall k | k in heap[f].scope ::
                 k !in heap[g].comp.inject
      modifies this
      ensures !reconciling && View() == Forced(old(View()), f)
    {
      if heap[f].state == Inactive {
        return;
      }
      ForcedIsUnloading(View(), f);
      heap := heap[f := heap[f].(state := Unloading, target := map[])];
      Dispose(f);
      heap := heap[f := heap[f].(state := Inactive)];
    }

    /** Binds a key from the root context, whose bindings are always available. */
    method RootProvide(k: KeyRef) returns (ok: bool)
      requires !reconciling && Rest(View())
      modifies this
      ensures !reconciling && Rest(View())
      ensures ok == (k !in old(store))
      ensures !ok ==> View() == old(View())
      ensures ok ==> SameShape(old(View()).(store := old(store)[k := Root]), View())
      ensures old(Good(View())) && UniqueProviders(View()) ==> Good(View())
    {
      hide Valid, AllStable, Growing, Progress, Good, Rest;
      if k in store {
        return false;
      }
      ghost var s := View();
      RootPublishingGrows(s, k);
      store := store[k := Root];
      ghost var u := View();
      RequestReconcile(true);
      RootPublicationRests(s, u, View());
      return true;
    }

    /** The disposer of a root binding; a second call finds nothing to withdraw. */
    method RootWithdraw(k: KeyRef)
      requires !reconciling && Rest(View())
      modifies this
      ensures !reconciling && Rest(View())
      ensures SameShape(Taken(old(View()), Root, k), View())
      ensures old(Good(View())) ==> Good(View())
    {
      hide Valid, AllStable, Shrinking, Progress, Good, Rest, Roots;
      ghost var s := View();
      RootWithdrawalShrinks(s, k);
      if k in store && store[k] == Root {
        store := map x | x in store && x != k :: store[x];
      }
      RequestReconcile(false);
      RootWithdrawalRests(s, k, View());
    }
  }

  // ---------------------------------------------------------------- whole runs

  datatype Op = Install(comp: Component) | Uninstall(fiber: nat)

  /** What is registered, by the handle that registering it returned, and the next handle. */
  datatype Roster = Roster(comps: map<nat, Component>, next: nat)

  function RosterAfter(ops: seq<Op>): Roster {
    if ops == [] then Roster(map[], 0)
    else
      var r := RosterAfter(ops[..|ops| - 1]);
      match ops[|ops| - 1]
      case Install(c) => if c.name == "" then r else Roster(r.comps[r.next := c], r.next + 1)
      case Uninstall(f) => r.(comps := r.comps - {f})
  }

  /** No key has two registered providers. */
  ghost predicate NoClash(r: Roster) {
    && (forall f | f in r.comps :: NoDup(r.comps[f].provisions))
    && (forall f, g, k | f in r.comps && g in r.comps && k in r.comps[f].provisions && k in r.comps[g].provisions ::
          f == g)
  }

  ghost predicate Registers(s: Sys, r: Roster) {
    && |s.heap| == r.next && Roots(s) == {}
    && (forall f :: f in s.fibers <==> f in r.comps)
    && (forall f | f in r.comps :: f < |s.heap| && s.heap[f].comp == r.comps[f])
  }

  lemma RegistersUniquely(s: Sys, r: Roster)
    requires Registers(s, r) && NoClash(r)
    ensures UniqueProviders(s) && Comps(s) == set f | f in r.comps :: r.comps[f]
  {
  }

  lemma InstallRegisters(s: Sys, r: Roster, c: Component, t: Sys)
    requires Registers(s, r) && SameShape(Registered(s, c), t)
    ensures Registers(t, Roster(r.comps[r.next := c], r.next + 1))
  {
    assert forall f :: f in Registered(s, c).fibers <==> f in s.fibers || f == |s.heap|;
    assert Roots(Registered(s, c)) == Roots(s);
  }

  lemma UninstallRegisters(s: Sys, r: Roster, f: nat, t: Sys)
    requires Registers(s, r) && Removed(s, t, f)
    ensures Registers(t, r.(comps := r.comps - {f}))
  {
  }

  /**
   After any sequence of registrations and removals in which no key ever has two registered providers,
   exactly the least set of components that do not fail and are provided for is active.
   */
  method Drive(ops: seq<Op>) returns (app: App)
    requires forall i | 0 <= i <= |ops| :: NoClash(RosterAfter(ops[..i]))
    ensures fresh(app) && Rest(app.View())
    ensures var r := RosterAfter(ops).comps; IsLeast(set f | f in r :: r[f], {}, ActiveComps(app.View()))
  {
    hide Rest, Good, IsLeast, SameShape, Removed, Registered, UniqueProviders, Comps;
    app := new App();
    NothingRegistered();
    for i := 0 to |ops|
      invariant fresh(app) && !app.reconciling && Rest(app.View()) && Good(app.View())
      invariant Registers(app.View(), RosterAfter(ops[..i]))
    {
      assert ops[..i + 1][..i] == ops[..i];
      ghost var s, r := app.View(), RosterAfter(ops[..i]);
      match ops[i] {
        case Install(c) =>
          var f := app.Use(c);
          if c.name != "" {
            InstallRegisters(s, r, c, app.View());
            RegistersUniquely(app.View(), RosterAfter(ops[..i + 1]));
          }
        case Uninstall(f) =>
          var ok := app.Remove(f);
          if ok {
            UninstallRegisters(s, r, f, app.View());
          } else {
            AbsentStays(s, r, f);
          }
      }
    }
    assert ops[..|ops|] == ops;
    RegistersUniquely(app.View(), RosterAfter(ops));
    RestIsLeast(app.View());
  }

  lemma NothingRegistered()
    ensures Registers(Sys(map[], [], []), RosterAfter([]))
  {
  }

  lemma AbsentStays(s: Sys, r: Roster, f: nat)
    requires Registers(s, r) && f !in s.fibers
    ensures r.(comps := r.comps - {f}) == r
  {
  }
}
