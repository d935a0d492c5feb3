/**
 App.Check of internal/core/app.go: the static check of a composition for keys that are declared
 twice and for dependency cycles, by depth-first search with colours and a stack. Component names are
 unique.
 */
module Composition {
  import opened Options
  import opened Runtime

  ghost predicate UniqueNames(comps: seq<Component>) {
    forall i, j | 0 <= i < j < |comps| :: comps[i].name != comps[j].name
  }

  function Names(comps: seq<Component>): set<string> {
    set c | c in comps :: c.name
  }

  /** How often each key is declared, counting repeats within one component. */
  function Declared(comps: seq<Component>): multiset<KeyRef> {
    if comps == [] then multiset{} else Declared(comps[..|comps| - 1]) + multiset(comps[|comps| - 1].provisions)
  }

  predicate Declares(comps: seq<Component>, name: string, ref: KeyRef) {
    exists c :: c in comps && c.name == name && ref in c.provisions
  }

  predicate Injects(comps: seq<Component>, name: string, ref: KeyRef) {
    exists c :: c in comps && c.name == name && ref in c.inject
  }

  /** n depends on p: it injects a key that p declares. */
  ghost predicate Edge(comps: seq<Component>, n: string, p: string) {
    exists ref :: Injects(comps, n, ref) && Declares(comps, p, ref)
  }

  ghost predicate IsPath(comps: seq<Component>, path: seq<string>) {
    forall i | 0 <= i < |path| - 1 :: Edge(comps, path[i], path[i + 1])
  }

  /** A closed dependency path; a component that injects its own key is one of length one. */
  ghost predicate IsCycle(comps: seq<Component>, cycle: seq<string>) {
    |cycle| >= 2 && cycle[0] == cycle[|cycle| - 1] && IsPath(comps, cycle)
  }

  // ---------------------------------------------------------------- providers

  function NamesFor(providers: map<KeyRef, seq<string>>, ref: KeyRef): seq<string> {
    if ref in providers then providers[ref] else []
  }

  /** The table of declared providers says who declares a key, and how often it is declared. */
  ghost predicate ProvidersOK(comps: seq<Component>, providers: map<KeyRef, seq<string>>) {
    forall ref ::
      && |NamesFor(providers, ref)| == Declared(comps)[ref]
      && forall p :: p in NamesFor(providers, ref) <==> Declares(comps, p, ref)
  }

  method Providers(comps: seq<Component>) returns (providers: map<KeyRef, seq<string>>)
    ensures ProvidersOK(comps, providers)
  {
    providers := map[];
    for i := 0 to |comps|
      invariant ProvidersOK(comps[..i], providers)
    {
      assert comps[..i + 1][..i] == comps[..i];
      providers := AddDeclarations(comps[..i], comps[i], providers);
      assert comps[..i] + [comps[i]] == comps[..i + 1];
    }
    assert comps[..|comps|] == comps;
  }

  /** The table at one key after `name` has declared `refs`. */
  ghost predicate ExtendedAt(before: map<KeyRef, seq<string>>, after: map<KeyRef, seq<string>>, name: string,
                             refs: seq<KeyRef>, ref: KeyRef)
  {
    && |NamesFor(after, ref)| == |NamesFor(before, ref)| + multiset(refs)[ref]
    && forall p :: p in NamesFor(after, ref) <==> p in NamesFor(before, ref) || (p == name && ref in refs)
  }

  ghost predicate Extended(before: map<KeyRef, seq<string>>, after: map<KeyRef, seq<string>>, name: string,
                           refs: seq<KeyRef>) {
    forall ref :: ExtendedAt(before, after, name, refs, ref)
  }

  lemma ExtendedNext(before: map<KeyRef, seq<string>>, mid: map<KeyRef, seq<string>>, name: string, refs: seq<KeyRef>,
                     ref: KeyRef)
    requires Extended(before, mid, name, refs)
    ensures Extended(before, mid[ref := NamesFor(mid, ref) + [name]], name, refs + [ref])
  {
    var after, more := mid[ref := NamesFor(mid, ref) + [name]], refs + [ref];
    forall r
      ensures ExtendedAt(before, after, name, more, r)
    {
      assert ExtendedAt(before, mid, name, refs, r);
    }
  }

  method AddDeclarations(comps: seq<Component>, c: Component, before: map<KeyRef, seq<string>>)
    returns (providers: map<KeyRef, seq<string>>)
    requires ProvidersOK(comps, before)
    ensures ProvidersOK(comps + [c], providers)
  {
    hide Extended, ProvidersOK;
    providers := before;
    ExtendedAtStart(before, c.name);
    for j := 0 to |c.provisions|
      invariant Extended(before, providers, c.name, c.provisions[..j])
    {
      ExtendedNext(before, providers, c.name, c.provisions[..j], c.provisions[j]);
      assert c.provisions[..j + 1] == c.provisions[..j] + [c.provisions[j]];
      providers := providers[c.provisions[j] := NamesFor(providers, c.provisions[j]) + [c.name]];
    }
    assert c.provisions[..|c.provisions|] == c.provisions;
    ExtendedAtEnd(comps, c, before, providers);
  }

  lemma ExtendedAtStart(before: map<KeyRef, seq<string>>, name: string)
    ensures Extended(before, before, name, [])
  {
  }

  lemma ExtendedAtEnd(comps: seq<Component>, c: Component, before: map<KeyRef, seq<string>>,
                      after: map<KeyRef, seq<string>>)
    requires ProvidersOK(comps, before) && Extended(before, after, c.name, c.provisions)
    ensures ProvidersOK(comps + [c], after)
  {
    hide NamesFor, Declares, Declared;
    DeclaredNext(comps, c);
    forall ref
      ensures |NamesFor(after, ref)| == Declared(comps + [c])[ref]
      ensures forall p :: p in NamesFor(after, ref) <==> Declares(comps + [c], p, ref)
    {
      assert ExtendedAt(before, after, c.name, c.provisions, ref);
    }
  }

  lemma DeclaredNext(comps: seq<Component>, c: Component)
    ensures forall ref :: Declared(comps + [c])[ref] == Declared(comps)[ref] + multiset(c.provisions)[ref]
    ensures forall ref, p :: Declares(comps + [c], p, ref) <==>
            Declares(comps, p, ref) || (p == c.name && ref in c.provisions)
  {
    assert (comps + [c])[..|comps|] == comps;
    forall ref, p
      ensures Declares(comps + [c], p, ref) <==> Declares(comps, p, ref) || (p == c.name && ref in c.provisions)
    {
      assert forall d :: d in comps + [c] <==> d in comps || d == c;
    }
  }

  // ---------------------------------------------------------------- the search

  datatype Colour = Gray | Black

  /** The stack holds the gray components and the finished ones are black. */
  ghost predicate ColoursOK(colour: map<string, Colour>, stack: seq<string>, finished: seq<string>) {
    && (forall n :: n in stack <==> n in colour && colour[n] == Gray)
    && (forall n :: n in finished <==> n in colour && colour[n] == Black)
  }

  class Search {
    const comps: seq<Component>
    const providers: map<KeyRef, seq<string>>
    const byName: map<string, Component>
    var colour: map<string, Colour>
    var stack: seq<string>
    var cycles: set<seq<string>>
    // The order in which components turned black.
    ghost var finished: seq<string>

    constructor (comps: seq<Component>, providers: map<KeyRef, seq<string>>, byName: map<string, Component>)
      requires ProvidersOK(comps, providers) && ByNameOK(comps, byName)
      ensures this.comps == comps && colour == map[] && stack == [] && cycles == {} && Valid()
    {
      this.comps, this.providers, this.byName := comps, providers, byName;
      colour, stack, cycles, finished := map[], [], {}, [];
    }

    /** The gray components are the stack, a path; the black ones are finished; every report is a cycle. */
    ghost predicate Valid()
      reads this
    {
      && ProvidersOK(comps, providers) && ByNameOK(comps, byName)
      && colour.Keys <= Names(comps)
      && ColoursOK(colour, stack, finished)
      && IsPath(comps, stack)
      && (forall c | c in cycles :: IsCycle(comps, c))
      && (cycles == {} ==> Descends(comps, finished))
    }

    /** One dependency of the component on top of the stack: descend, report the closed path, or skip. */
    method Visit(name: string, p: string)
      requires Valid() && stack != [] && stack[|stack| - 1] == name && Edge(comps, name, p) && p in Names(comps)
      modifies this
      ensures Valid() && stack == old(stack) && Grown(old(colour), colour) && old(cycles) <= cycles
      ensures old(finished) <= finished
      ensures cycles == {} ==> p in finished
      decreases Names(comps) - colour.Keys, 1
    {
      if p !in colour {
        Dfs(p);
      } else if colour[p] == Gray {
        var i := Index(stack, p);
        ClosesCycle(comps, stack, i, p);
        cycles := cycles + {stack[i..] + [p]};
      }
    }

    method Dfs(name: string)
      requires Valid() && name in Names(comps) && name !in colour
      requires stack != [] ==> Edge(comps, stack[|stack| - 1], name)
      modifies this
      ensures Valid() && stack == old(stack) && Grown(old(colour), colour) && old(cycles) <= cycles
      ensures old(finished) <= finished
      ensures name in finished
      decreases Names(comps) - colour.Keys, 0
    {
      Enter(name);
      ghost var entered := colour;
      Explore(name);
      Leave(name);
      GrownThrough(old(colour), entered, colour, name);
    }

    method Enter(name: string)
      requires Valid() && name in Names(comps) && name !in colour
      requires stack != [] ==> Edge(comps, stack[|stack| - 1], name)
      modifies this
      ensures Valid() && stack == old(stack) + [name] && colour == old(colour)[name := Gray]
      ensures cycles == old(cycles) && finished == old(finished)
    {
      hide Edge, ProvidersOK, ByNameOK, IsCycle, IsPath, Descends;
      PathNext(comps, stack, name);
      colour := colour[name := Gray];
      stack := stack + [name];
    }

    /** Visits every dependency, key by key and provider by provider. */
    method Explore(name: string)
      requires Valid() && stack != [] && stack[|stack| - 1] == name && name in Names(comps)
      modifies this
      ensures Valid() && stack == old(stack) && Grown(old(colour), colour) && old(cycles) <= cycles
      ensures old(finished) <= finished
      ensures cycles == {} ==> forall p | Edge(comps, name, p) :: p in finished
      decreases Names(comps) - colour.Keys, 3
    {
      hide Valid, Edge, NamesFor, Names, Grown;
      Dependencies(name);
      GrownSelf(colour);
      var inject := byName[name].inject;
      for i := 0 to |inject|
        invariant Valid() && stack == old(stack) && Grown(old(colour), colour) && old(colour).Keys <= colour.Keys
        invariant old(cycles) <= cycles && old(finished) <= finished
        invariant cycles == {} ==> Covered(providers, inject[..i], finished)
      {
        ghost var before, mid := finished, colour;
        VisitAll(name, NamesFor(providers, inject[i]));
        GrownChain(old(colour), mid, colour);
        assert inject[..i + 1] == inject[..i] + [inject[i]];
        if cycles == {} {
          CoveredNext(providers, inject[..i], inject[i], before, finished);
        }
      }
      assert inject[..|inject|] == inject;
      if cycles == {} {
        CoveredAll(name);
      }
    }

    lemma Dependencies(name: string)
      requires Valid() && name in Names(comps)
      ensures name in byName
      ensures forall ref | ref in byName[name].inject :: forall p | p in NamesFor(providers, ref) ::
                p in Names(comps) && Edge(comps, name, p)
    {
      DependenciesOf(comps, providers, byName, name);
    }

    lemma CoveredAll(name: string)
      requires Valid() && name in Names(comps) && name in byName && Covered(providers, byName[name].inject, finished)
      ensures forall p | Edge(comps, name, p) :: p in finished
    {
      DependenciesOf(comps, providers, byName, name);
    }

    method VisitAll(name: string, names: seq<string>)
      requires Valid() && stack != [] && stack[|stack| - 1] == name
      requires forall p | p in names :: p in Names(comps) && Edge(comps, name, p)
      modifies this
      ensures Valid() && stack == old(stack) && Grown(old(colour), colour) && old(cycles) <= cycles
      ensures old(finished) <= finished
      ensures cycles == {} ==> forall p | p in names :: p in finished
      decreases Names(comps) - colour.Keys, 2
    {
      hide Valid, Edge;
      for j := 0 to |names|
        invariant Valid() && stack == old(stack) && Grown(old(colour), colour)
        invariant old(cycles) <= cycles && old(finished) <= finished
        invariant cycles == {} ==> forall r | 0 <= r < j :: names[r] in finished
      {
        ghost var before := finished;
        Visit(name, names[j]);
        assert forall p | p in before :: p in finished;
      }
    }

    method Leave(name: string)
      requires Valid() && stack != [] && stack[|stack| - 1] == name && name !in stack[..|stack| - 1]
      requires cycles == {} ==> forall p | Edge(comps, name, p) :: p in finished
      modifies this
      ensures Valid() && stack == old(stack)[..|old(stack)| - 1] && colour == old(colour)[name := Black]
      ensures cycles == old(cycles) && finished == old(finished) + [name]
    {
      hide Edge, ProvidersOK, ByNameOK, IsCycle, IsPath, Descends, ColoursOK;
      if cycles == {} {
        DescendsNext(comps, finished, name);
      }
      LeaveColours(colour, stack, finished, name);
      LeavePath(comps, stack);
      stack := stack[..|stack| - 1];
      colour := colour[name := Black];
      finished := finished + [name];
    }
  }

  lemma LeaveColours(colour: map<string, Colour>, stack: seq<string>, finished: seq<string>, name: string)
    requires ColoursOK(colour, stack, finished) && stack != []
    requires stack[|stack| - 1] == name && name !in stack[..|stack| - 1]
    ensures name in colour
    ensures ColoursOK(colour[name := Black], stack[..|stack| - 1], finished + [name])
  {
    assert stack == stack[..|stack| - 1] + [name];
  }

  lemma LeavePath(comps: seq<Component>, path: seq<string>)
    requires IsPath(comps, path) && path != []
    ensures IsPath(comps, path[..|path| - 1])
  {
    hide Edge;
  }

  /** Every declared provider of these keys is finished. */
  ghost predicate Covered(providers: map<KeyRef, seq<string>>, refs: seq<KeyRef>, finished: seq<string>) {
    forall ref | ref in refs :: forall p | p in NamesFor(providers, ref) :: p in finished
  }

  lemma CoveredNext(providers: map<KeyRef, seq<string>>, refs: seq<KeyRef>, ref: KeyRef, before: seq<string>,
                    after: seq<string>)
    requires Covered(providers, refs, before) && before <= after
    requires forall p | p in NamesFor(providers, ref) :: p in after
    ensures Covered(providers, refs + [ref], after)
  {
    assert forall p | p in before :: p in after;
  }

  lemma GrownSelf(a: map<string, Colour>)
    ensures Grown(a, a)
  {
  }

  lemma GrownChain(a: map<string, Colour>, b: map<string, Colour>, c: map<string, Colour>)
    requires Grown(a, b) && Grown(b, c)
    ensures Grown(a, c) && a.Keys <= b.Keys <= c.Keys
  {
  }

  lemma GrownThrough(a: map<string, Colour>, b: map<string, Colour>, c: map<string, Colour>, name: string)
    requires name !in a && b == a[name := Gray] && name in c && c[name] == Black
    requires (forall n | n in b && n != name :: n in c && c[n] == b[n])
    requires (forall n | n in c && n !in b :: c[n] == Black)
    ensures Grown(a, c)
  {
  }

  /** What was coloured keeps its colour, and what is coloured since is black. */
  ghost predicate Grown(a: map<string, Colour>, b: map<string, Colour>) {
    && (forall n | n in a :: n in b && b[n] == a[n])
    && (forall n | n in b && n !in a :: b[n] == Black)
  }

  ghost predicate ByNameOK(comps: seq<Component>, byName: map<string, Component>) {
    && byName.Keys == Names(comps)
    && (forall n | n in byName :: byName[n] in comps && byName[n].name == n)
    && (forall c | c in comps :: byName[c.name] == c)
  }

  method ByName(comps: seq<Component>) returns (byName: map<string, Component>)
    requires UniqueNames(comps)
    ensures ByNameOK(comps, byName)
  {
    byName := map[];
    for i := 0 to |comps|
      invariant byName.Keys == Names(comps[..i])
      invariant forall j | 0 <= j < i :: comps[j].name in byName && byName[comps[j].name] == comps[j]
    {
      byName := byName[comps[i].name := comps[i]];
      assert comps[..i + 1] == comps[..i] + [comps[i]];
    }
    assert comps[..|comps|] == comps;
  }

  method Index(s: seq<string>, x: string) returns (i: nat)
    requires x in s
    ensures i < |s| && s[i] == x
  {
    i := 0;
    while s[i] != x
      invariant i < |s| && x in s[i..]
      decreases |s| - i
    {
      i := i + 1;
    }
  }

  lemma ClosesCycle(comps: seq<Component>, stack: seq<string>, i: nat, p: string)
    requires IsPath(comps, stack) && i < |stack| && stack[i] == p && Edge(comps, stack[|stack| - 1], p)
    ensures IsCycle(comps, stack[i..] + [p])
  {
    hide Edge;
  }

  lemma PathNext(comps: seq<Component>, stack: seq<string>, name: string)
    requires IsPath(comps, stack) && (stack != [] ==> Edge(comps, stack[|stack| - 1], name))
    ensures IsPath(comps, stack + [name])
  {
    hide Edge;
  }

  /** A component's dependencies are the declared providers of the keys it injects. */
  lemma DependenciesOf(comps: seq<Component>, providers: map<KeyRef, seq<string>>, byName: map<string, Component>,
                       name: string)
    requires ProvidersOK(comps, providers) && ByNameOK(comps, byName) && name in Names(comps)
    ensures name in byName
    ensures forall p :: Edge(comps, name, p) <==>
            exists ref :: ref in byName[name].inject && p in NamesFor(providers, ref)
    ensures forall ref, p | ref in byName[name].inject && p in NamesFor(providers, ref) ::
              p in Names(comps) && Edge(comps, name, p)
  {
    forall ref
      ensures Injects(comps, name, ref) <==> ref in byName[name].inject
    {
    }
    forall ref, p | p in NamesFor(providers, ref)
      ensures p in Names(comps)
    {
      assert Declares(comps, p, ref);
    }
  }

  /** Everything a component depends on comes before it. */
  ghost predicate Descends(comps: seq<Component>, order: seq<string>) {
    forall i, p | 0 <= i < |order| && Edge(comps, order[i], p) :: p in order[..i]
  }

  lemma DescendsNext(comps: seq<Component>, order: seq<string>, n: string)
    requires Descends(comps, order) && forall p | Edge(comps, n, p) :: p in order
    ensures Descends(comps, order + [n])
  {
    hide Edge;
    forall i, p | 0 <= i < |order| + 1 && Edge(comps, (order + [n])[i], p)
      ensures p in (order + [n])[..i]
    {
      assert (order + [n])[..i] == order[..i];
    }
  }

  lemma {:induction false} Sinks(comps: seq<Component>, order: seq<string>, path: seq<string>, k: nat, i: nat)
    requires Descends(comps, order) && IsPath(comps, path) && 0 < k < |path| && i < |order| && order[i] == path[0]
    ensures exists j | 0 <= j < i :: order[j] == path[k]
    decreases k
  {
    hide Edge;
    if k == 1 {
      assert Edge(comps, path[0], path[1]);
      assert path[1] in order[..i];
    } else {
      Sinks(comps, order, path, k - 1, i);
      var j :| 0 <= j < i && order[j] == path[k - 1];
      assert Edge(comps, path[k - 1], path[k - 1 + 1]);
      assert path[k] in order[..j];
    }
  }

  /** An order in which everything comes after what it depends on leaves no room for a cycle. */
  lemma {:induction false} NoCycleInOrder(comps: seq<Component>, order: seq<string>, cycle: seq<string>, j: nat)
    requires Descends(comps, order) && cycle != [] && j < |order| && order[j] == cycle[0]
    ensures !IsCycle(comps, cycle)
    decreases j
  {
    if IsCycle(comps, cycle) {
      Sinks(comps, order, cycle, |cycle| - 1, j);
      var i :| 0 <= i < j && order[i] == cycle[0];
      NoCycleInOrder(comps, order, cycle, i);
    }
  }

  method Duplicates(providers: map<KeyRef, seq<string>>) returns (duplicates: set<KeyRef>)
    ensures forall ref :: ref in duplicates <==> |NamesFor(providers, ref)| > 1
  {
    duplicates := {};
    var todo := providers.Keys;
    while todo != {}
      invariant todo <= providers.Keys
      invariant forall ref :: ref in duplicates <==> |NamesFor(providers, ref)| > 1 && ref !in todo
      decreases todo
    {
      var ref :| ref in todo;
      if |providers[ref]| > 1 {
        duplicates := duplicates + {ref};
      }
      todo := todo - {ref};
    }
  }

  /** Reports exactly the keys declared twice, only real cycles, and some cycle whenever there is one. */
  method Check(comps: seq<Component>) returns (duplicates: set<KeyRef>, cycles: set<seq<string>>)
    requires UniqueNames(comps)
    ensures forall ref :: ref in duplicates <==> Declared(comps)[ref] > 1
    ensures forall c | c in cycles :: IsCycle(comps, c)
    ensures cycles == {} <==> forall c :: !IsCycle(comps, c)
  {
    hide Edge, IsCycle, Names, NamesFor, Declared, Declares, IsPath, Descends, ColoursOK;
    var providers := Providers(comps);
    var byName := ByName(comps);
    duplicates := Duplicates(providers);
    var search := new Search(comps, providers, byName);
    for i := 0 to |comps|
      invariant search.Valid() && search.stack == [] && search.comps == comps
      invariant forall j | 0 <= j < i :: comps[j].name in search.finished
    {
      NamesContain(comps, i);
      if comps[i].name !in search.colour {
        ghost var before := search.finished;
        search.Dfs(comps[i].name);
        assert forall n | n in before :: n in search.finished;
      } else {
        ColouredIsFinished(search.colour, search.finished, comps[i].name);
      }
    }
    cycles := search.cycles;
    if cycles == {} {
      AllFinished(comps, search.finished);
    }
  }

  lemma ColouredIsFinished(colour: map<string, Colour>, finished: seq<string>, name: string)
    requires ColoursOK(colour, [], finished) && name in colour
    ensures name in finished
  {
    assert colour[name] != Gray;
  }

  lemma NamesContain(comps: seq<Component>, i: nat)
    requires i < |comps|
    ensures comps[i].name in Names(comps)
  {
    assert comps[i] in comps;
  }

  lemma AllFinished(comps: seq<Component>, order: seq<string>)
    requires Descends(comps, order) && forall j | 0 <= j < |comps| :: comps[j].name in order
    ensures forall c :: !IsCycle(comps, c)
  {
    forall c
      ensures !IsCycle(comps, c)
    {
      if IsCycle(comps, c) {
        assert Edge(comps, c[0], c[1]);
        var ref :| Injects(comps, c[0], ref);
        var d :| d in comps && d.name == c[0];
        assert c[0] in order;
        var j :| 0 <= j < |order| && order[j] == c[0];
        NoCycleInOrder(comps, order, c, j);
      }
    }
  }
}
