/**
 Ordered indexes and keyset pages: what vault/repo.go and internal/federation/binding.go share.
 An index is a strictly increasing sequence of keys searched by bisection; a page is the run of keys
 after a cursor; a walk pages pages until one comes back short.
 */
module Ordered {

  newtype byte = x: int | 0 <= x < 256

  /** A string, as the bytes it is compared by. */
  type Text = seq<byte>

  predicate Less(a: Text, b: Text) {
    if b == [] then false
    else if a == [] then true
    else if a[0] != b[0] then a[0] < b[0]
    else Less(a[1..], b[1..])
  }

  ghost predicate StrictOrder<K(!new)>(less: (K, K) -> bool) {
    && (forall a :: !less(a, a))
    && (forall a, b :: a == b || less(a, b) || less(b, a))
    && (forall a, b, c :: less(a, b) && less(b, c) ==> less(a, c))
  }

  lemma {:induction false} LessIsTransitive(a: Text, b: Text, c: Text)
    requires Less(a, b) && Less(b, c)
    ensures Less(a, c)
  {
    if a != [] && a[0] == b[0] == c[0] {
      LessIsTransitive(a[1..], b[1..], c[1..]);
    }
  }

  lemma {:induction false} LessIsTotal(a: Text, b: Text)
    ensures a == b || Less(a, b) || Less(b, a)
    ensures !Less(a, a)
  {
    if a != [] {
      LessIsTotal(a[1..], if b == [] then [] else b[1..]);
      if b != [] && a[0] == b[0] && a[1..] == b[1..] {
        assert a == [a[0]] + a[1..] && b == [b[0]] + b[1..];
      }
    }
  }

  lemma LessIsStrict()
    ensures StrictOrder(Less)
  {
    forall a, b
      ensures a == b || Less(a, b) || Less(b, a)
      ensures !Less(a, a)
    {
      LessIsTotal(a, b);
    }
    forall a, b, c | Less(a, b) && Less(b, c)
      ensures Less(a, c)
    {
      LessIsTransitive(a, b, c);
    }
  }

  // ---------------------------------------------------------------- the index

  ghost predicate Sorted<K(!new)>(less: (K, K) -> bool, s: seq<K>) {
    forall i, j | 0 <= i < j < |s| :: less(s[i], s[j])
  }

  /** The first position at which `found` holds, given that it stays true from there on. */
  method Search<K>(s: seq<K>, found: K -> bool) returns (i: nat)
    requires forall j, k | 0 <= j <= k < |s| :: found(s[j]) ==> found(s[k])
    ensures i <= |s|
    ensures forall j | 0 <= j < i :: !found(s[j])
    ensures forall j | i <= j < |s| :: found(s[j])
  {
    i := 0;
    var j := |s|;
    while i < j
      invariant 0 <= i <= j <= |s|
      invariant forall k | 0 <= k < i :: !found(s[k])
      invariant forall k | j <= k < |s| :: found(s[k])
    {
      var h := i + (j - i) / 2;
      if !found(s[h]) {
        i := h + 1;
      } else {
        j := h;
      }
    }
  }

  /** Where a key is, or where it must be inserted. */
  method IndexOf<K(!new, ==)>(less: (K, K) -> bool, s: seq<K>, key: K) returns (i: nat, present: bool)
    requires StrictOrder(less) && Sorted(less, s)
    ensures i <= |s| && present == (key in s)
    ensures present ==> i < |s| && s[i] == key
    ensures forall j | 0 <= j < i :: less(s[j], key)
    ensures forall j | i <= j < |s| :: !less(s[j], key)
  {
    i := Search(s, (k: K) => !less(k, key));
    present := i < |s| && s[i] == key;
    if key in s {
      ghost var j :| 0 <= j < |s| && s[j] == key;
      assert i <= j;
    }
  }

  function Inserted<K>(s: seq<K>, i: nat, key: K): seq<K>
    requires i <= |s|
  {
    s[..i] + [key] + s[i..]
  }

  function Removed<K>(s: seq<K>, i: nat): seq<K>
    requires i < |s|
  {
    s[..i] + s[i + 1..]
  }

  lemma InsertedIsSorted<K(!new)>(less: (K, K) -> bool, s: seq<K>, i: nat, key: K)
    requires StrictOrder(less) && Sorted(less, s) && i <= |s| && key !in s
    requires forall j | 0 <= j < i :: less(s[j], key)
    requires forall j | i <= j < |s| :: !less(s[j], key)
    ensures Sorted(less, Inserted(s, i, key))
    ensures forall k :: k in Inserted(s, i, key) <==> k in s || k == key
  {
    assert s == s[..i] + s[i..];
  }

  lemma RemovedIsSorted<K(!new)>(less: (K, K) -> bool, s: seq<K>, i: nat)
    requires StrictOrder(less) && Sorted(less, s) && i < |s|
    ensures Sorted(less, Removed(s, i))
    ensures forall k :: k in Removed(s, i) <==> k in s && k != s[i]
  {
    forall k | k in s && k != s[i]
      ensures k in Removed(s, i)
    {
      var j :| 0 <= j < |s| && s[j] == k;
      assert Removed(s, i)[if j < i then j else j - 1] == k;
    }
    forall k | k in Removed(s, i)
      ensures k in s && k != s[i]
    {
      var j :| 0 <= j < |s| - 1 && Removed(s, i)[j] == k;
      assert k == s[if j < i then j else j + 1];
    }
  }

  /** Two strictly sorted sequences with the same keys are the same sequence. */
  lemma {:induction false} SortedIsUnique<K(!new)>(less: (K, K) -> bool, s: seq<K>, t: seq<K>)
    requires StrictOrder(less) && Sorted(less, s) && Sorted(less, t) && (forall k :: k in s <==> k in t)
    ensures s == t
  {
    assert forall i | 0 <= i < |s| :: s[i] in t;
    assert forall i | 0 <= i < |t| :: t[i] in s;
    if s != [] && t != [] {
      assert s[0] in t && t[0] in s;
      assert s[0] == t[0];
      forall k
        ensures k in s[1..] <==> k in t[1..]
      {
        assert k in s[1..] <==> k in s && k != s[0];
        assert k in t[1..] <==> k in t && k != t[0];
      }
      SortedIsUnique(less, s[1..], t[1..]);
    }
  }

  function Keys<K(==)>(s: seq<K>): set<K> {
    set k | k in s
  }

  // ---------------------------------------------------------------- pages

  /** The empty cursor is the start of the list. */
  predicate After<K(==)>(less: (K, K) -> bool, start: K, cursor: K, key: K) {
    cursor == start || less(cursor, key)
  }

  /** The page is the smallest `limit` keys after the cursor, in order, or all of them when it is short. */
  ghost predicate IsPage<K(!new)>(less: (K, K) -> bool, keys: set<K>, start: K, cursor: K, limit: nat, page: seq<K>) {
    && Sorted(less, page) && |page| <= limit
    && (forall k | k in page :: k in keys && After(less, start, cursor, k))
    && (forall k | k in keys && After(less, start, cursor, k) ::
          k in page || (|page| == limit > 0 && less(page[|page| - 1], k)))
  }

  function Limited(limit: int): nat {
    if limit <= 0 then 1 else limit
  }

  method PageAfter<K(!new, ==)>(less: (K, K) -> bool, s: seq<K>, start: K, cursor: K, limit: int)
    returns (page: seq<K>, ghost pos: nat)
    requires StrictOrder(less) && Sorted(less, s)
    ensures IsPage(less, Keys(s), start, cursor, Limited(limit), page)
    ensures IsSlice(less, s, start, cursor, Limited(limit), page, pos)
    ensures |page| <= limit || (limit <= 0 && |page| <= 1)
  {
    var first := Search(s, (k: K) => After(less, start, cursor, k));
    var end := first + Limited(limit);
    if end > |s| {
      end := |s|;
    }
    page, pos := s[first..end], first;
    assert forall j | first <= j < end :: s[j] == page[j - first];
  }

  /** The page as a run of the index, starting at the cursor's successor. */
  ghost predicate IsSlice<K>(less: (K, K) -> bool, s: seq<K>, start: K, cursor: K, limit: nat, page: seq<K>, pos: nat) {
    && pos <= |s| && page == s[pos..if pos + limit > |s| then |s| else pos + limit]
    && (forall j | 0 <= j < pos :: !After(less, start, cursor, s[j]))
    && (forall j | pos <= j < |s| :: After(less, start, cursor, s[j]))
  }

  /**
   A walk over a table that others change: `snapshots[i]` is the index when the i-th page is read.
   Nothing is visited twice, everything visited was there, and what was there at every read is visited.
   */
  method Walk<K(!new, ==)>(less: (K, K) -> bool, start: K, snapshots: seq<seq<K>>, limit: nat)
    returns (visited: seq<K>, pages: nat, complete: bool)
    requires StrictOrder(less) && limit > 0
    requires forall s | s in snapshots :: Sorted(less, s) && start !in s
    ensures pages <= |snapshots| && (!complete ==> pages == |snapshots|)
    ensures Sorted(less, visited)
    ensures forall k | k in visited :: exists i | 0 <= i < pages :: k in snapshots[i]
    ensures complete ==> forall k | (forall i | 0 <= i < pages :: k in snapshots[i]) :: k in visited
  {
    visited, pages, complete := [], 0, false;
    var cursor := start;
    while pages < |snapshots|
      invariant 0 <= pages <= |snapshots| && Sorted(less, visited)
      invariant forall k | k in visited :: exists i | 0 <= i < pages :: k in snapshots[i]
      invariant if pages == 0 then visited == [] && cursor == start
                else visited != [] && cursor == visited[|visited| - 1] != start
      invariant forall k | (forall i | 0 <= i < pages :: k in snapshots[i]) ::
                  k in visited || After(less, start, cursor, k)
    {
      var s := snapshots[pages];
      var page, _ := PageAfter(less, s, start, cursor, limit);
      pages := pages + 1;
      ghost var before := visited;
      visited := visited + page;
      WalkStep(less, start, cursor, s, limit, before, page);
      forall k | k in visited
        ensures exists i | 0 <= i < pages :: k in snapshots[i]
      {
        if k in page {
          assert k in snapshots[pages - 1];
        }
      }
      if |page| < limit {
        complete := true;
        break;
      }
      cursor := page[|page| - 1];
      assert cursor in page && cursor in s;
    }
  }

  lemma WalkStep<K(!new)>(less: (K, K) -> bool, start: K, cursor: K, s: seq<K>, limit: nat, before: seq<K>,
                          page: seq<K>)
    requires StrictOrder(less) && Sorted(less, before) && IsPage(less, Keys(s), start, cursor, limit, page)
    requires (cursor == start && before == []) || (before != [] && cursor == before[|before| - 1] != start)
    ensures Sorted(less, before + page)
  {
    forall i, j | 0 <= i < j < |before + page|
      ensures less((before + page)[i], (before + page)[j])
    {
      if i < |before| <= j {
        assert page[j - |before|] in page && less(cursor, page[j - |before|]);
        assert before[i] == cursor || less(before[i], cursor);
      }
    }
  }
}
