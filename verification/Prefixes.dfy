/**
 hasUniversalPrefix of cmd/re0auth/config.go: whether a list of address prefixes covers a whole
 address family, decided by merging sibling halves until nothing merges.
 */
module Prefixes {
  import opened Options

  function Width(v6: bool): nat {
    if v6 then 128 else 32
  }

  datatype Bits = Bits(v6: bool, bits: seq<bool>)

  type Address = x: Bits | |x.bits| == Width(x.v6) witness Bits(false, Zeros(32))

  /** An address with the number of leading bits that count. */
  datatype Masking = Masking(addr: Address, len: nat)

  type Prefix = p: Masking | p.len <= Width(p.addr.v6) witness Masking(Bits(false, Zeros(32)), 0)

  function Zeros(n: nat): seq<bool> {
    seq(n, _ => false)
  }

  function Masked(p: Prefix): Prefix {
    Masking(Bits(p.addr.v6, p.addr.bits[..p.len] + Zeros(Width(p.addr.v6) - p.len)), p.len)
  }

  predicate IsMasked(p: Prefix) {
    Masked(p) == p
  }

  predicate Contains(p: Prefix, x: Address)
  {
    x.v6 == p.addr.v6 && x.bits[..p.len] == p.addr.bits[..p.len]
  }

  ghost predicate Covered(list: seq<Prefix>, x: Address)
  {
    exists p | p in list :: Contains(p, x)
  }

  ghost predicate Universal(list: seq<Prefix>, v6: bool)
  {
    forall x: Address | x.v6 == v6 :: Covered(list, x)
  }

  function MergeSiblings(a: Prefix, b: Prefix): Option<Prefix>
  {
    if a.len != b.len || a.len == 0 || a == b then None
    else
      var parent := Masked(Masking(a.addr, a.len - 1));
      if Masked(Masking(b.addr, b.len - 1)).addr != parent.addr then None else Some(parent)
  }

  // ---------------------------------------------------------------- merging keeps coverage

  lemma MaskKeepsCoverage(p: Prefix, x: Address)
    ensures IsMasked(Masked(p)) && (Contains(Masked(p), x) <==> Contains(p, x))
  {
    assert Masked(p).addr.bits[..p.len] == p.addr.bits[..p.len];
  }

  lemma HalvesSplit(s: seq<bool>, t: seq<bool>, x: seq<bool>, n: nat)
    requires 0 < n <= |s| == |t| == |x| && s[..n - 1] == t[..n - 1] && s[n - 1] != t[n - 1]
    ensures x[..n - 1] == s[..n - 1] <==> x[..n] == s[..n] || x[..n] == t[..n]
  {
    assert x[..n] == x[..n - 1] + [x[n - 1]];
    assert s[..n] == s[..n - 1] + [s[n - 1]];
    assert t[..n] == t[..n - 1] + [t[n - 1]];
    assert x[n - 1] == s[n - 1] || x[n - 1] == t[n - 1];
    if x[..n] == s[..n] || x[..n] == t[..n] {
      assert x[..n - 1] == x[..n][..n - 1] && s[..n - 1] == s[..n][..n - 1] && t[..n - 1] == t[..n][..n - 1];
    }
  }

  /** Prefixes that merge agree in all bits that count but the last. */
  lemma SiblingBits(a: Prefix, b: Prefix)
    requires IsMasked(a) && IsMasked(b) && MergeSiblings(a, b).Some?
    ensures var parent, n := MergeSiblings(a, b).value, a.len;
            && 0 < n == b.len && parent.len == n - 1 && a.addr.v6 == b.addr.v6 == parent.addr.v6 && IsMasked(parent)
            && a.addr.bits[..n - 1] == b.addr.bits[..n - 1] == parent.addr.bits[..n - 1]
            && a.addr.bits[n - 1] != b.addr.bits[n - 1]
  {
    var parent, n := MergeSiblings(a, b).value, a.len;
    var s, t := a.addr.bits, b.addr.bits;
    MaskKeepsCoverage(Masking(a.addr, n - 1), a.addr);
    assert s[..n - 1] == parent.addr.bits[..n - 1] == t[..n - 1];
    assert s[..n] == s[..n - 1] + [s[n - 1]];
    assert t[..n] == t[..n - 1] + [t[n - 1]];
  }

  /** The parent contains exactly what the two halves contain. */
  lemma MergeKeepsCoverage(a: Prefix, b: Prefix, x: Address)
    requires IsMasked(a) && IsMasked(b) && MergeSiblings(a, b).Some?
    ensures IsMasked(MergeSiblings(a, b).value)
    ensures Contains(MergeSiblings(a, b).value, x) <==> Contains(a, x) || Contains(b, x)
  {
    hide Masked, MergeSiblings;
    SiblingBits(a, b);
    if x.v6 == a.addr.v6 {
      HalvesSplit(a.addr.bits, b.addr.bits, x.bits, a.len);
    }
  }

  // ---------------------------------------------------------------- nothing left to merge

  ghost predicate Unmergeable(list: seq<Prefix>)
  {
    forall a, b | a in list && b in list :: MergeSiblings(a, b).None?
  }

  /** Some prefix of the list contains everything that starts with these bits. */
  ghost predicate Hit(list: seq<Prefix>, v6: bool, bits: seq<bool>)
  {
    exists p: Prefix | p in list :: p.addr.v6 == v6 && p.len <= |bits| && p.addr.bits[..p.len] == bits[..p.len]
  }

  /** Two prefixes whose network bits differ in the last one only do merge. */
  lemma HalvesMerge(a: Prefix, b: Prefix, bits: seq<bool>)
    requires IsMasked(a) && IsMasked(b) && a.addr.v6 == b.addr.v6 && a.len == b.len == |bits| + 1
    requires a.addr.bits[..a.len] == bits + [false] && b.addr.bits[..b.len] == bits + [true]
    ensures MergeSiblings(a, b).Some?
  {
    var n := |bits|;
    assert a.addr.bits[n] == (bits + [false])[n] && b.addr.bits[n] == (bits + [true])[n];
    assert a.addr.bits[..n] == (bits + [false])[..n] == bits && b.addr.bits[..n] == (bits + [true])[..n] == bits;
  }

  /** Walking down from the root, one of the two children is always free. */
  lemma {:induction false} FreePath(list: seq<Prefix>, v6: bool, n: nat) returns (bits: seq<bool>)
    requires (forall p | p in list :: IsMasked(p)) && Unmergeable(list) && n <= Width(v6)
    requires forall p | p in list && p.addr.v6 == v6 :: p.len != 0
    ensures |bits| == n && !Hit(list, v6, bits)
  {
    if n == 0 {
      return [];
    }
    var path := FreePath(list, v6, n - 1);
    var left, right := path + [false], path + [true];
    if !Hit(list, v6, left) {
      return left;
    }
    if Hit(list, v6, right) {
      var a := FullHit(list, v6, path, false);
      var b := FullHit(list, v6, path, true);
      HalvesMerge(a, b, path);
      assert false;
    }
    return right;
  }

  /** What is hit first at its last bit is a prefix of exactly that length. */
  lemma FullHit(list: seq<Prefix>, v6: bool, path: seq<bool>, bit: bool) returns (p: Prefix)
    requires !Hit(list, v6, path) && Hit(list, v6, path + [bit])
    ensures p in list && p.addr.v6 == v6 && p.len == |path| + 1 && p.addr.bits[..p.len] == path + [bit]
  {
    p :| p in list && p.addr.v6 == v6 && p.len <= |path| + 1 && p.addr.bits[..p.len] == (path + [bit])[..p.len];
    assert forall n | 0 <= n <= |path| :: (path + [bit])[..n] == path[..n];
  }

  /** An unmergeable list without a /0 of a family leaves an address of that family uncovered. */
  lemma GapRemains(list: seq<Prefix>, v6: bool)
    requires (forall p | p in list :: IsMasked(p)) && Unmergeable(list)
    requires forall p | p in list && p.addr.v6 == v6 :: p.len != 0
    ensures !Universal(list, v6)
  {
    var bits := FreePath(list, v6, Width(v6));
    var x: Address := Bits(v6, bits);
    assert !Covered(list, x);
  }

  // ---------------------------------------------------------------- the algorithm

  /** The first pair, in scan order, that merges. */
  method FindPair(work: seq<Prefix>) returns (i: nat, j: nat, parent: Option<Prefix>)
    requires forall p | p in work :: IsMasked(p)
    ensures parent.Some? ==> i < j < |work| && MergeSiblings(work[i], work[j]) == parent
    ensures parent.None? ==> Unmergeable(work)
  {
    i := 0;
    while i < |work|
      invariant i <= |work|
      invariant forall a, b | 0 <= a < i && a < b < |work| :: MergeSiblings(work[a], work[b]).None?
    {
      j := i + 1;
      while j < |work|
        invariant i < j <= |work|
        invariant forall b | i < b < j :: MergeSiblings(work[i], work[b]).None?
      {
        parent := MergeSiblings(work[i], work[j]);
        if parent.Some? {
          return;
        }
        j := j + 1;
      }
      i := i + 1;
    }
    j, parent := 0, None;
    PairsSuffice(work);
  }

  /** Merging does not depend on the order of the two, so looking at each pair once is enough. */
  lemma PairsSuffice(work: seq<Prefix>)
    requires forall p | p in work :: IsMasked(p)
    requires forall a, b | 0 <= a < b < |work| :: MergeSiblings(work[a], work[b]).None?
    ensures Unmergeable(work)
  {
  }

  method HasUniversalPrefix(prefixes: seq<Prefix>) returns (universal: bool)
    ensures universal <==> exists v6 :: Universal(prefixes, v6)
  {
    hide Masked, Contains, MergeSiblings, Universal, Covered;
    var work := [];
    for i := 0 to |prefixes|
      invariant |work| == i && forall k | 0 <= k < i :: work[k] == Masked(prefixes[k])
    {
      work := work + [Masked(prefixes[i])];
    }
    MaskedCoversSame(prefixes, work);
    while true
      invariant forall p | p in work :: IsMasked(p)
      invariant forall x: Address :: Covered(work, x) <==> Covered(prefixes, x)
      decreases |work|
    {
      var i, j, parent := FindPair(work);
      if parent.None? {
        break;
      }
      ReplaceCoversSame(work, i, j, parent.value);
      work := work[..j] + work[j + 1..];
      work := work[..i] + work[i + 1..];
      work := work + [parent.value];
    }
    Decides(prefixes, work);
    for k := 0 to |work|
      invariant forall i | 0 <= i < k :: work[i].len != 0
    {
      if work[k].len == 0 {
        assert work[k] in work;
        return true;
      }
    }
    return false;
  }

  lemma MaskedCoversSame(prefixes: seq<Prefix>, work: seq<Prefix>)
    requires |work| == |prefixes|
    requires forall k | 0 <= k < |work| :: work[k] == Masked(prefixes[k])
    ensures forall p | p in work :: IsMasked(p)
    ensures forall x: Address :: Covered(work, x) <==> Covered(prefixes, x)
  {
    hide Masked, Contains;
    forall k | 0 <= k < |work|
      ensures IsMasked(work[k])
    {
      MaskKeepsCoverage(prefixes[k], prefixes[k].addr);
    }
    forall x: Address
      ensures Covered(work, x) <==> Covered(prefixes, x)
    {
      forall k | 0 <= k < |work|
        ensures work[k] in work && prefixes[k] in prefixes && (Contains(work[k], x) <==> Contains(prefixes[k], x))
      {
        MaskKeepsCoverage(prefixes[k], x);
      }
    }
  }

  function Replaced(work: seq<Prefix>, i: nat, j: nat, parent: Prefix): seq<Prefix>
    requires i < j < |work|
  {
    var one := work[..j] + work[j + 1..];
    one[..i] + one[i + 1..] + [parent]
  }

  lemma ReplacedHolds(work: seq<Prefix>, i: nat, j: nat, parent: Prefix)
    requires i < j < |work|
    ensures forall p | p in Replaced(work, i, j, parent) :: p in work || p == parent
    ensures forall p | p in work && p != work[i] && p != work[j] :: p in Replaced(work, i, j, parent)
    ensures parent in Replaced(work, i, j, parent)
  {
    var after := Replaced(work, i, j, parent);
    forall p | p in work && p != work[i] && p != work[j]
      ensures p in after
    {
      var k :| 0 <= k < |work| && work[k] == p;
      assert p == after[if k < i then k else if k < j then k - 1 else k - 2];
    }
    assert after[|after| - 1] == parent;
  }

  lemma ReplaceCoversSame(work: seq<Prefix>, i: nat, j: nat, parent: Prefix)
    requires (forall p | p in work :: IsMasked(p)) && i < j < |work| && MergeSiblings(work[i], work[j]) == Some(parent)
    ensures forall p | p in Replaced(work, i, j, parent) :: IsMasked(p)
    ensures forall x: Address :: Covered(Replaced(work, i, j, parent), x) <==> Covered(work, x)
  {
    hide Masked, Contains, MergeSiblings, Replaced;
    ReplacedHolds(work, i, j, parent);
    MergeKeepsCoverage(work[i], work[j], work[i].addr);
    forall x: Address
      ensures Covered(Replaced(work, i, j, parent), x) <==> Covered(work, x)
    {
      MergeKeepsCoverage(work[i], work[j], x);
    }
  }

  /** What the merged list shows is what the given list covers. */
  lemma Decides(prefixes: seq<Prefix>, work: seq<Prefix>)
    requires (forall p | p in work :: IsMasked(p)) && Unmergeable(work)
    requires forall x: Address :: Covered(work, x) <==> Covered(prefixes, x)
    ensures (exists p :: p in work && p.len == 0) <==> exists v6 :: Universal(prefixes, v6)
  {
    hide Unmergeable, IsMasked, Covered;
    forall v6
      ensures Universal(prefixes, v6) <==> exists p :: p in work && p.addr.v6 == v6 && p.len == 0
    {
      RootDecides(work, v6);
      assert Universal(prefixes, v6) <==> Universal(work, v6);
    }
    hide Universal;
    if p :| p in work && p.len == 0 {
      assert Universal(prefixes, p.addr.v6);
    }
  }

  lemma RootDecides(work: seq<Prefix>, v6: bool)
    requires (forall p | p in work :: IsMasked(p)) && Unmergeable(work)
    ensures Universal(work, v6) <==> exists p :: p in work && p.addr.v6 == v6 && p.len == 0
  {
    hide Unmergeable, Masked;
    if p :| p in work && p.addr.v6 == v6 && p.len == 0 {
      forall x: Address | x.v6 == v6
        ensures Covered(work, x)
      {
        assert Contains(p, x);
      }
    } else {
      GapRemains(work, v6);
    }
  }
}
