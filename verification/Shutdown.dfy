/**
 unloadOrder in internal/core/app.go: the order in which Shutdown tears the components down, by
 depth-first search over the bindings in place. It puts every dependent before its providers exactly
 when those bindings have no cycle, and at a fixpoint they never have one.
 */
module Shutdown {
  import opened Options
  import opened Runtime

  /** f injects a key that is bound, and bound by g. */
  predicate Uses(s: Sys, f: nat, g: nat) {
    f < |s.heap| && exists k :: k in s.heap[f].comp.inject && k in s.store && s.store[k] == By(g)
  }

  /** Whoever has published something exists. */
  ghost predicate Closed(s: Sys) {
    && (forall f | f in s.fibers :: f < |s.heap|)
    && (forall k | k in s.store && s.store[k].By? :: s.store[k].fiber < |s.heap|)
  }

  /** No cycle: the registered components and all they use can be numbered, providers below dependents. */
  ghost predicate Ranked(s: Sys, rank: map<nat, nat>) {
    && (forall f | f in s.fibers :: f in rank)
    && (forall f, g | f in rank && Uses(s, f, g) :: g in rank && rank[g] < rank[f])
  }

  ghost predicate Acyclic(s: Sys) {
    exists rank :: Ranked(s, rank)
  }

  /** Everything a component uses comes before it. */
  ghost predicate ProvidersFirst(s: Sys, order: seq<nat>) {
    forall i, g | 0 <= i < |order| && Uses(s, order[i], g) :: g in order[..i]
  }

  /** Everything a component uses comes after it. */
  ghost predicate DependentsFirst(s: Sys, order: seq<nat>) {
    forall i, g | 0 <= i < |order| && Uses(s, order[i], g) :: g in order[i + 1..]
  }

  lemma OneMore(s: Sys, order: seq<nat>, f: nat)
    requires ProvidersFirst(s, order) && forall g | Uses(s, f, g) :: g in order
    ensures ProvidersFirst(s, order + [f])
  {
    var more := order + [f];
    forall i, g | 0 <= i < |more| && Uses(s, more[i], g)
      ensures g in more[..i]
    {
      if i < |order| {
        assert more[..i] == order[..i];
      } else {
        assert more[..i] == order;
      }
    }
  }

  class Search {
    const s: Sys
    var seen: set<nat>
    var order: seq<nat>

    constructor (s: Sys)
      ensures this.s == s && seen == {} && order == []
    {
      this.s, seen, order := s, {}, [];
    }

    /** The listed components are seen; the others seen are being visited. */
    ghost predicate Valid()
      reads this
    {
      && Closed(s) && (forall f | f in seen :: f < |s.heap|)
      && (forall f | f in order :: f in seen) && NoDup(order)
    }

    ghost function Open(): set<nat>
      reads this
    {
      seen - set f | f in order
    }

    /** While only components above it are being visited, and every list so far has providers first. */
    ghost predicate Below(rank: map<nat, nat>, f: nat)
      reads this
    {
      Ranked(s, rank) && f in rank && ProvidersFirst(s, order) && forall g | g in Open() ::
        g in rank && rank[f] < rank[g]
    }

    method Visit(f: nat, ghost rank: map<nat, nat>)
      requires Valid() && f < |s.heap|
      modifies this
      ensures Valid() && f in seen && old(seen) <= seen && old(order) <= order && Open() == old(Open())
      ensures old(Below(rank, f)) ==> ProvidersFirst(s, order) && f in order
      decreases |s.heap| - |seen|, 0
    {
      hide NoDup, ProvidersFirst, Ranked;
      SeenIsBounded(seen, |s.heap|);
      if f in seen {
        return;
      }
      ghost var before := Open();
      Enter(f);
      assert Open() == before + {f};
      SeenIsBounded(seen, |s.heap|);
      VisitProviders(f, rank, old(Below(rank, f)));
      Leave(f, before);
    }

    method Enter(f: nat)
      requires Valid() && f < |s.heap| && f !in seen
      modifies this`seen
      ensures Valid() && seen == old(seen) + {f} && f !in order && |seen| == |old(seen)| + 1
    {
      seen := seen + {f};
    }

    method Leave(f: nat, ghost before: set<nat>)
      requires Valid() && Open() == before + {f} && f !in before
      modifies this`order
      ensures Valid() && order == old(order) + [f] && Open() == before
      ensures old(ProvidersFirst(s, order)) && (forall g | Uses(s, f, g) :: g in old(order)) ==>
                ProvidersFirst(s, order)
    {
      assert f in Open();
      if ProvidersFirst(s, order) && forall g | Uses(s, f, g) :: g in order {
        OneMore(s, order, f);
      }
      order := order + [f];
    }

    method VisitProviders(f: nat, ghost rank: map<nat, nat>, ghost ranked: bool)
      requires Valid() && f < |s.heap| && f in seen && |seen| <= |s.heap|
      requires ranked ==> Ranked(s, rank) && f in rank && ProvidersFirst(s, order)
                          && forall g | g in Open() :: g in rank && rank[f] <= rank[g]
      modifies this
      ensures Valid() && old(seen) <= seen && old(order) <= order && Open() == old(Open())
      ensures ranked ==> ProvidersFirst(s, order) && forall g | Uses(s, f, g) :: g in order
      decreases |s.heap| - |seen|, 1
    {
      var inject := s.heap[f].comp.inject;
      ghost var open := Open();
      for j := 0 to |inject|
        invariant Valid() && old(seen) <= seen && old(order) <= order && Open() == open
        invariant |old(seen)| <= |seen| <= |s.heap|
        invariant ranked ==> ProvidersFirst(s, order)
        invariant ranked ==> forall k | k in inject[..j] && k in s.store && s.store[k].By? :: s.store[k].fiber in order
      {
        assert inject[..j + 1] == inject[..j] + [inject[j]];
        if inject[j] in s.store && s.store[inject[j]].By? {
          assert Uses(s, f, s.store[inject[j]].fiber);
          Visit(s.store[inject[j]].fiber, rank);
          SeenIsBounded(seen, |s.heap|);
          Grows(old(seen), seen);
        }
      }
      assert inject[..|inject|] == inject;
    }
  }

  lemma {:induction false} SeenIsBounded(seen: set<nat>, n: nat)
    requires forall f | f in seen :: f < n
    ensures |seen| <= n
  {
    if n == 0 {
      assert seen == {};
    } else {
      var rest := seen - {n - 1};
      SeenIsBounded(rest, n - 1);
      assert seen <= rest + {n - 1};
      Grows(seen, rest + {n - 1});
    }
  }

  lemma {:induction false} Grows(a: set<nat>, b: set<nat>)
    requires a <= b
    ensures |a| <= |b|
    decreases |a|
  {
    if a != {} {
      var x :| x in a;
      Grows(a - {x}, b - {x});
    }
  }

  // ---------------------------------------------------------------- the order

  function Reversed(order: seq<nat>): seq<nat> {
    seq(|order|, i requires 0 <= i < |order| => order[|order| - 1 - i])
  }

  method Reverse(order: seq<nat>) returns (out: seq<nat>)
    ensures out == Reversed(order)
  {
    out := order;
    var i, j := 0, |order| - 1;
    while i < j
      invariant |out| == |order| && 0 <= i && i + j == |order| - 1 && i <= j + 1
      invariant forall k | i <= k <= j :: out[k] == order[k]
      invariant forall k | 0 <= k < i :: out[k] == Reversed(order)[k]
      invariant forall k | j < k < |order| :: out[k] == Reversed(order)[k]
    {
      out := out[i := out[j]][j := out[i]];
      i, j := i + 1, j - 1;
    }
  }

  lemma ReversedTurns(s: Sys, order: seq<nat>)
    ensures forall f :: f in Reversed(order) <==> f in order
    ensures NoDup(order) ==> NoDup(Reversed(order))
    ensures ProvidersFirst(s, order) ==> DependentsFirst(s, Reversed(order))
  {
    var r, n := Reversed(order), |order|;
    forall f
      ensures f in r <==> f in order
    {
      if f in order {
        var i :| 0 <= i < n && order[i] == f;
        assert r[n - 1 - i] == f;
      }
    }
    if ProvidersFirst(s, order) {
      forall i, g | 0 <= i < n && Uses(s, r[i], g)
        ensures g in r[i + 1..]
      {
        assert Uses(s, order[n - 1 - i], g);
        var j :| 0 <= j < n - 1 - i && order[..n - 1 - i][j] == g;
        assert r[n - 1 - j] == g && r[i + 1..][n - 2 - j - i] == g;
      }
    }
  }

  /** A list that has every dependent first numbers its components. */
  lemma OrderRanks(s: Sys, order: seq<nat>)
    requires NoDup(order) && (forall f | f in s.fibers :: f in order) && DependentsFirst(s, order)
    ensures Acyclic(s)
  {
    var rank := map f | f in order :: |order| - Position(order, f);
    forall f, g | f in rank && Uses(s, f, g)
      ensures g in rank && rank[g] < rank[f]
    {
      var i := Position(order, f);
      assert g in order[i + 1..];
      var j :| 0 <= j < |order| - i - 1 && order[i + 1..][j] == g;
      assert order[i + 1 + j] == g;
    }
    assert Ranked(s, rank);
  }

  function Position(order: seq<nat>, f: nat): (i: nat)
    requires f in order
    ensures i < |order| && order[i] == f
  {
    if order[0] == f then 0 else 1 + Position(order[1..], f)
  }

  /** Every registered component once, dependents before their providers if and only if there is no cycle. */
  method UnloadOrder(s: Sys) returns (order: seq<nat>)
    requires Closed(s)
    ensures NoDup(order) && (forall f | f in order :: f < |s.heap|) && (forall f | f in s.fibers :: f in order)
    ensures DependentsFirst(s, order) <==> Acyclic(s)
  {
    hide ProvidersFirst, DependentsFirst;
    ghost var rank: map<nat, nat> := map[];
    if Acyclic(s) {
      rank :| Ranked(s, rank);
    }
    var search := new Search(s);
    NothingYet(s);
    for i := 0 to |s.fibers|
      invariant search.s == s && search.Valid() && search.Open() == {} && fresh(search)
      invariant forall f | f in s.fibers[..i] :: f in search.order
      invariant Acyclic(s) ==> ProvidersFirst(s, search.order)
    {
      assert s.fibers[i] in s.fibers;
      search.Visit(s.fibers[i], rank);
      assert s.fibers[i] in search.order by {
        assert s.fibers[i] !in search.Open();
      }
      assert s.fibers[..i + 1] == s.fibers[..i] + [s.fibers[i]];
    }
    assert s.fibers[..|s.fibers|] == s.fibers;
    ReversedTurns(s, search.order);
    order := Reverse(search.order);
    if DependentsFirst(s, order) {
      OrderRanks(s, order);
    }
  }

  lemma NothingYet(s: Sys)
    ensures ProvidersFirst(s, [])
  {
  }

  // ---------------------------------------------------------------- a fixpoint has no cycle

  /** The numbering covers active components only, and with each all that it uses. */
  ghost predicate Numbers(s: Sys, rank: map<nat, nat>) {
    && (forall f | f in rank :: f in ActiveFibers(s) && rank[f] < |rank|)
    && (forall f, g | f in rank && Uses(s, f, g) :: g in rank && rank[g] < rank[f])
  }

  /** An active component all of whose providers are numbered can be numbered next. */
  predicate Ready(s: Sys, rank: map<nat, nat>, f: nat) {
    f !in rank && f < |s.heap| && forall k | k in s.heap[f].comp.inject && k in s.store && s.store[k].By? ::
      s.store[k].fiber in rank
  }

  lemma NumberNext(s: Sys, rank: map<nat, nat>, f: nat)
    requires Numbers(s, rank) && f in ActiveFibers(s) && Ready(s, rank, f)
    ensures Numbers(s, rank[f := |rank|])
  {
    var more := rank[f := |rank|];
    forall x, g | x in more && Uses(s, x, g)
      ensures g in more && more[g] < more[x]
    {
      if x == f {
        var k :| k in s.heap[f].comp.inject && k in s.store && s.store[k] == By(g);
        assert g in rank;
      }
    }
  }

  lemma {:induction false} NumberAll(s: Sys, rank: map<nat, nat>) returns (all: map<nat, nat>)
    requires Numbers(s, rank)
    ensures Numbers(s, all) && forall f | f in ActiveFibers(s) :: !Ready(s, all, f)
    decreases ActiveFibers(s) - rank.Keys
  {
    hide Numbers;
    if f :| f in ActiveFibers(s) && Ready(s, rank, f) {
      NumberNext(s, rank, f);
      assert f in ActiveFibers(s) - rank.Keys;
      all := NumberAll(s, rank[f := |rank|]);
    } else {
      all := rank;
    }
  }

  ghost function CompsOf(s: Sys, rank: map<nat, nat>): set<Component>
    requires Numbers(s, rank)
  {
    set f | f in rank :: s.heap[f].comp
  }

  /** A key that is provided from among the numbered is bound by one of them, or by the root. */
  lemma ProvidedIsNumbered(s: Sys, rank: map<nat, nat>, k: KeyRef)
    requires Bindings(s) && Numbers(s, rank) && Provided(Roots(s), CompsOf(s, rank), k)
    ensures k in s.store && (s.store[k].By? ==> s.store[k].fiber in rank)
  {
    if k !in Roots(s) {
      var c :| c in CompsOf(s, rank) && k in c.provisions;
      var g :| g in rank && s.heap[g].comp == c;
      assert k in s.heap[g].scope;
    }
  }

  lemma NumberedIsClosed(s: Sys, rank: map<nat, nat>, c: Component)
    requires Rest(s) && FailuresAreOwn(s) && Numbers(s, rank) && forall f | f in ActiveFibers(s) :: !Ready(s, rank, f)
    requires c in Comps(s) && Supported(Roots(s), CompsOf(s, rank), c)
    ensures c in CompsOf(s, rank)
  {
    var b := CompsOf(s, rank);
    assert Supported(Roots(s), ActiveComps(s), c) by {
      forall k | k in c.inject
        ensures Provided(Roots(s), ActiveComps(s), k)
      {
        assert Provided(Roots(s), b, k);
        assert b <= ActiveComps(s);
      }
    }
    RestIsClosed(s, c);
    var f :| f in ActiveFibers(s) && s.heap[f].comp == c;
    hide Rest, Numbers;
    forall k | k in c.inject && k in s.store && s.store[k].By?
      ensures s.store[k].fiber in rank
    {
      assert Bindings(s) by { RestBinds(s); }
      ProvidedIsNumbered(s, rank, k);
    }
    assert !Ready(s, rank, f);
  }

  lemma RestBinds(s: Sys)
    requires Rest(s)
    ensures Bindings(s)
  {
  }

  /** Components that are alike use the same bindings. */
  lemma AllNumbered(s: Sys, rank: map<nat, nat>, f: nat)
    requires Numbers(s, rank) && (forall g | g in ActiveFibers(s) :: !Ready(s, rank, g))
    requires f in ActiveFibers(s) && s.heap[f].comp in CompsOf(s, rank)
    ensures f in rank
  {
    var g :| g in rank && s.heap[g].comp == s.heap[f].comp;
    forall k | k in s.heap[f].comp.inject && k in s.store && s.store[k].By?
      ensures s.store[k].fiber in rank
    {
      assert Uses(s, g, s.store[k].fiber);
    }
    assert !Ready(s, rank, f);
  }

  /** At a fixpoint the bindings in place have no cycle: components that need each other never load. */
  lemma RestIsAcyclic(s: Sys)
    requires Rest(s) && Good(s)
    ensures Acyclic(s)
  {
    var rank := NumberAll(s, map[]);
    forall c | c in Comps(s) && Supported(Roots(s), CompsOf(s, rank), c)
      ensures c in CompsOf(s, rank)
    {
      NumberedIsClosed(s, rank, c);
    }
    assert ClosedUnder(Comps(s), Roots(s), CompsOf(s, rank));
    forall f | f in ActiveFibers(s)
      ensures f in rank
    {
      assert s.heap[f].comp in ActiveComps(s);
      AllNumbered(s, rank, f);
    }
    hide Good;
    RanksTheRest(s, rank);
  }

  /** The components that are not active come on top: nobody uses them. */
  lemma RanksTheRest(s: Sys, rank: map<nat, nat>)
    requires Rest(s) && Numbers(s, rank) && forall f | f in ActiveFibers(s) :: f in rank
    ensures Acyclic(s)
  {
    var all := map f | f in rank.Keys + (set f | f in s.fibers) :: if f in rank then rank[f] else |rank|;
    forall f, g | f in all && Uses(s, f, g)
      ensures g in all && all[g] < all[f]
    {
      UsedIsActive(s, f, g);
    }
    assert Ranked(s, all);
  }

  lemma UsedIsActive(s: Sys, f: nat, g: nat)
    requires Rest(s) && Uses(s, f, g)
    ensures g in ActiveFibers(s)
  {
    var k :| k in s.heap[f].comp.inject && k in s.store && s.store[k] == By(g);
    assert k in s.heap[g].scope;
  }
}
