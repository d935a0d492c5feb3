/**
 internal/federation/binding.go: the binding table with its two ordered indexes, one over the
 deployment and one per account. The table is keyed by the joined string, as in the source; users and
 games contain no '|'.
 */
module BindingStore {
  import opened Ordered
  import opened Options

  datatype Key = Key(user: Text, game: Text, source: Text)

  datatype Binding = Binding(key: Key, version: nat, expiry: int, refreshable: bool)

  predicate KeyLess(a: Key, b: Key) {
    if a.user != b.user then Less(a.user, b.user)
    else if a.game != b.game then Less(a.game, b.game)
    else Less(a.source, b.source)
  }

  /** The order of one account's list, which ignores the account. */
  predicate UserKeyLess(a: Key, b: Key) {
    if a.game != b.game then Less(a.game, b.game) else Less(a.source, b.source)
  }

  const START := Key([], [], [])
  const BAR: byte := 124

  predicate Plain(k: Key) {
    BAR !in k.user && BAR !in k.game
  }

  function Joined(k: Key): Text {
    k.user + [BAR] + k.game + [BAR] + k.source
  }

  lemma KeyOrder()
    ensures StrictOrder(KeyLess)
  {
    hide Less;
    LessIsStrict();
    forall a, b, c | KeyLess(a, b) && KeyLess(b, c)
      ensures KeyLess(a, c)
    {
    }
    forall a, b
      ensures a == b || KeyLess(a, b) || KeyLess(b, a)
      ensures !KeyLess(a, a)
    {
    }
  }

  lemma BarSplits(a: Text, x: Text, b: Text, y: Text)
    requires BAR !in a && BAR !in b && a + [BAR] + x == b + [BAR] + y
    ensures a == b && x == y
  {
    var z := a + [BAR] + x;
    assert z[|a|] == BAR && z[|b|] == BAR;
    assert forall i | 0 <= i < |a| :: z[i] == a[i] != BAR;
    assert forall i | 0 <= i < |b| :: z[i] == b[i] != BAR;
    assert |a| == |b|;
    assert a == (a + [BAR] + x)[..|a|] && b == (b + [BAR] + y)[..|b|];
    assert x == (a + [BAR] + x)[|a| + 1..] && y == (b + [BAR] + y)[|b| + 1..];
  }

  /** Without '|' in user and game, the joined string names one binding. */
  lemma JoinedIsInjective(k: Key, l: Key)
    requires Plain(k) && Plain(l) && Joined(k) == Joined(l)
    ensures k == l
  {
    assert Joined(k) == k.user + [BAR] + (k.game + [BAR] + k.source);
    assert Joined(l) == l.user + [BAR] + (l.game + [BAR] + l.source);
    BarSplits(k.user, k.game + [BAR] + k.source, l.user, l.game + [BAR] + l.source);
    BarSplits(k.game, k.source, l.game, l.source);
  }

  function Bars(t: Text): nat {
    if t == [] then 0 else (if t[0] == BAR then 1 else 0) + Bars(t[1..])
  }

  lemma {:induction false} BarsAdd(a: Text, b: Text)
    ensures Bars(a + b) == Bars(a) + Bars(b)
  {
    if a != [] {
      BarsAdd(a[1..], b);
      assert a + b == [a[0]] + (a[1..] + b);
    } else {
      assert a + b == b;
    }
  }

  lemma {:induction false} BarsSeen(t: Text)
    ensures Bars(t) > 0 <==> BAR in t
  {
    if t != [] {
      BarsSeen(t[1..]);
      assert t == [t[0]] + t[1..];
    }
  }

  lemma BarsOfJoined(k: Key)
    ensures Bars(Joined(k)) == 2 + Bars(k.user) + Bars(k.game) + Bars(k.source)
  {
    assert Bars([BAR]) == 1;
    BarsAdd(k.user + [BAR] + k.game + [BAR], k.source);
    BarsAdd(k.user + [BAR] + k.game, [BAR]);
    BarsAdd(k.user + [BAR], k.game);
    BarsAdd(k.user, [BAR]);
  }

  /** Some other binding has the same joined string exactly when a '|' occurs in one of the three parts. */
  lemma JoinedCollides(k: Key)
    ensures (exists l :: l != k && Joined(l) == Joined(k)) <==> BAR in k.user || BAR in k.game || BAR in k.source
  {
    if BAR in k.user || BAR in k.game || BAR in k.source {
      var l := Resplit(k);
      assert l != k && Joined(l) == Joined(k);
    } else {
      forall l | Joined(l) == Joined(k)
        ensures l == k
      {
        PlainIsAlone(k, l);
      }
    }
  }

  lemma PlainIsAlone(k: Key, l: Key)
    requires BAR !in k.user && BAR !in k.game && BAR !in k.source && Joined(l) == Joined(k)
    ensures l == k
  {
    BarsOfJoined(k);
    BarsOfJoined(l);
    forall t | t in {k.user, k.game, k.source, l.user, l.game, l.source}
      ensures Bars(t) > 0 <==> BAR in t
    {
      BarsSeen(t);
    }
    JoinedIsInjective(k, l);
  }

  lemma AtBar(t: Text) returns (a: Text, b: Text)
    requires BAR in t
    ensures t == a + [BAR] + b
  {
    var i :| 0 <= i < |t| && t[i] == BAR;
    a, b := t[..i], t[i + 1..];
  }

  /** Four parts with bars between them are three in three ways. */
  lemma Regroup(a: Text, b: Text, c: Text, d: Text)
    ensures Joined(Key(a + [BAR] + b, c, d)) == Joined(Key(a, b, c + [BAR] + d))
    ensures Joined(Key(a, b + [BAR] + c, d)) == Joined(Key(a, b, c + [BAR] + d))
  {
  }

  lemma Resplit(k: Key) returns (l: Key)
    requires BAR in k.user || BAR in k.game || BAR in k.source
    ensures l != k && Joined(l) == Joined(k)
  {
    hide Joined;
    if BAR in k.source {
      var a, b := AtBar(k.source);
      Regroup(k.user, k.game, a, b);
      l := Key(k.user, k.game + [BAR] + a, b);
    } else if BAR in k.game {
      var a, b := AtBar(k.game);
      Regroup(k.user, a, b, k.source);
      l := Key(k.user, a, b + [BAR] + k.source);
      assert |l.game| < |k.game|;
    } else {
      var a, b := AtBar(k.user);
      Regroup(a, b, k.game, k.source);
      l := Key(a, b, k.game + [BAR] + k.source);
      assert |l.user| < |k.user|;
    }
  }

  function OfUser(s: seq<Key>, user: Text): seq<Key> {
    if s == [] then [] else (if s[0].user == user then [s[0]] else []) + OfUser(s[1..], user)
  }

  lemma {:induction false} OfUserIsSorted(s: seq<Key>, user: Text)
    requires Sorted(KeyLess, s)
    ensures Sorted(KeyLess, OfUser(s, user))
    ensures forall k :: k in OfUser(s, user) <==> k in s && k.user == user
  {
    if s != [] {
      OfUserIsSorted(s[1..], user);
      assert s == [s[0]] + s[1..];
      forall k | k in OfUser(s[1..], user)
        ensures KeyLess(s[0], k)
      {
        assert k in s[1..];
      }
    }
  }

  /** An account has a list exactly when it holds something, and the list is its share of the keys, in order. */
  ghost predicate Shares(keys: set<Key>, byUser: map<Text, seq<Key>>) {
    && (forall u | u in byUser :: byUser[u] != [] && Sorted(KeyLess, byUser[u]) && Keys(byUser[u]) == Share(keys, u))
    && (forall k | k in keys :: k.user in byUser)
  }

  function Share(keys: set<Key>, user: Text): set<Key> {
    set k | k in keys && k.user == user
  }

  lemma ShareAfterAdd(keys: set<Key>, byUser: map<Text, seq<Key>>, k: Key, list: seq<Key>)
    requires Shares(keys, byUser) && Sorted(KeyLess, list) && k in list
    requires forall x :: x in list <==> x == k || (k.user in byUser && x in byUser[k.user])
    ensures Shares(keys + {k}, byUser[k.user := list])
  {
    hide KeyLess;
    var after := byUser[k.user := list];
    forall u | u in after
      ensures Keys(after[u]) == Share(keys + {k}, u)
    {
      forall x
        ensures x in Keys(after[u]) <==> x in Share(keys + {k}, u)
      {
        if u in byUser {
          assert x in Keys(byUser[u]) <==> x in Share(keys, u);
        }
      }
    }
  }

  lemma ShareAfterDrop(keys: set<Key>, byUser: map<Text, seq<Key>>, k: Key, list: seq<Key>)
    requires Shares(keys, byUser) && k.user in byUser && Sorted(KeyLess, list)
    requires forall x :: x in list <==> x != k && x in byUser[k.user]
    ensures list == [] ==> Shares(keys - {k}, byUser - {k.user})
    ensures list != [] ==> Shares(keys - {k}, byUser[k.user := list])
  {
    hide KeyLess;
    var after := byUser[k.user := list];
    forall u | u in after
      ensures Keys(after[u]) == Share(keys - {k}, u)
    {
      forall x
        ensures x in Keys(after[u]) <==> x in Share(keys - {k}, u)
      {
        assert x in Keys(byUser[u]) <==> x in Share(keys, u);
      }
    }
    forall x | x in keys - {k} && list == []
      ensures x.user != k.user
    {
      assert x in Share(keys, x.user);
    }
  }

  /** The deployment index is the sorted key set of the table. */
  ghost predicate Indexed(m: map<Text, Binding>, index: seq<Key>) {
    && Sorted(KeyLess, index)
    && (forall k | k in index :: Plain(k) && Joined(k) in m && m[Joined(k)].key == k)
    && (forall t | t in m :: m[t].key in index && Joined(m[t].key) == t)
  }

  lemma IndexedAfterAdd(m: map<Text, Binding>, index: seq<Key>, after: seq<Key>, b: Binding)
    requires Indexed(m, index) && Plain(b.key) && Sorted(KeyLess, after)
    requires forall x :: x in after <==> x in index || x == b.key
    ensures Indexed(m[Joined(b.key) := b], after)
    ensures forall k | k in index && k != b.key :: Joined(k) != Joined(b.key)
  {
    hide Joined, Sorted;
    JoinedApart(Keys(index), b.key);
  }

  class MemoryBindingStore {
    var m: map<Text, Binding>
    var index: seq<Key>
    var byUser: map<Text, seq<Key>>

    ghost predicate Valid()
      reads this
    {
      Indexed(m, index) && Shares(Keys(index), byUser)
    }

    /** The table by key. */
    ghost function Rows(): map<Key, Binding>
      reads this
      requires Valid()
    {
      map k | k in index :: m[Joined(k)]
    }

    constructor ()
      ensures Valid() && Rows() == map[]
    {
      m, index, byUser := map[], [], map[];
    }

    method Get(k: Key) returns (b: Option<Binding>)
      requires Valid() && Plain(k)
      ensures b == if k in Rows() then Some(Rows()[k]) else None
    {
      if Joined(k) !in m {
        return None;
      }
      JoinedIsInjective(k, m[Joined(k)].key);
      return Some(m[Joined(k)]);
    }

    method InsertIndex(k: Key)
      requires Sorted(KeyLess, index) && k !in index
      modifies this`index
      ensures Sorted(KeyLess, index) && forall x :: x in index <==> x in old(index) || x == k
    {
      KeyOrder();
      var i, present := IndexOf(KeyLess, index, k);
      InsertedIsSorted(KeyLess, index, i, k);
      index := Inserted(index, i, k);
    }

    method RemoveIndex(k: Key)
      requires Sorted(KeyLess, index)
      modifies this`index
      ensures Sorted(KeyLess, index) && forall x :: x in index <==> x in old(index) && x != k
    {
      KeyOrder();
      var i, present := IndexOf(KeyLess, index, k);
      if present {
        RemovedIsSorted(KeyLess, index, i);
        index := Removed(index, i);
      }
    }

    method InsertUserIndex(k: Key, ghost keys: set<Key>)
      requires Shares(keys, byUser) && k !in keys
      modifies this`byUser
      ensures Shares(keys + {k}, byUser)
    {
      var list := if k.user in byUser then byUser[k.user] else [];
      assert forall x | x in list :: x in Keys(byUser[k.user]);
      var i, present := UserIndexOf(list, k);
      KeyOrder();
      InsertedIsSorted(KeyLess, list, i, k);
      ShareAfterAdd(keys, byUser, k, Inserted(list, i, k));
      byUser := byUser[k.user := Inserted(list, i, k)];
    }

    method RemoveUserIndex(k: Key, ghost keys: set<Key>)
      requires Shares(keys, byUser)
      modifies this`byUser
      ensures Shares(keys - {k}, byUser)
    {
      var list := if k.user in byUser then byUser[k.user] else [];
      assert forall x | x in list :: x in Keys(byUser[k.user]);
      var i, present := UserIndexOf(list, k);
      if !present {
        assert k.user in byUser ==> (k in Share(keys, k.user) <==> k in Keys(byUser[k.user]));
        assert keys - {k} == keys;
        return;
      }
      KeyOrder();
      RemovedIsSorted(KeyLess, list, i);
      ShareAfterDrop(keys, byUser, k, Removed(list, i));
      if |Removed(list, i)| == 0 {
        byUser := byUser - {k.user};
        return;
      }
      byUser := byUser[k.user := Removed(list, i)];
    }

    /** A row under a key that had none. */
    method Insert(b: Binding)
      requires Valid() && Plain(b.key) && Joined(b.key) !in m
      modifies this
      ensures Valid() && Rows() == old(Rows())[b.key := b]
    {
      hide KeyLess, Shares, Joined, Sorted;
      var before := index;
      assert b.key !in index && Sorted(KeyLess, index);
      InsertIndex(b.key);
      InsertUserIndex(b.key, Keys(before));
      assert Keys(index) == Keys(before) + {b.key};
      IndexedAfterAdd(m, before, index, b);
      m := m[Joined(b.key) := b];
      hide Indexed;
    }

    /** A row under a key that has one: the indexes do not move. */
    method Overwrite(b: Binding)
      requires Valid() && Plain(b.key) && b.key in index
      modifies this
      ensures Valid() && Rows() == old(Rows())[b.key := b]
    {
      hide KeyLess, Shares, Joined, Sorted;
      IndexedAfterAdd(m, index, index, b);
      m := m[Joined(b.key) := b];
    }

    method Put(b: Binding)
      requires Valid() && Plain(b.key)
      modifies this
      ensures Valid() && Rows() == old(Rows())[b.key := b]
    {
      hide KeyLess, Shares, Joined, Sorted;
      if Joined(b.key) !in m {
        Insert(b);
      } else {
        JoinedIsInjective(b.key, m[Joined(b.key)].key);
        Overwrite(b);
      }
    }

    /** The write of a refresh or a rebind: only over the version that was read. */
    method PutIfVersion(b: Binding, expected: nat) returns (won: bool)
      requires Valid() && Plain(b.key)
      modifies this
      ensures Valid()
      ensures won == (b.key in old(Rows()) && old(Rows())[b.key].version == expected)
      ensures Rows() == if won then old(Rows())[b.key := b] else old(Rows())
    {
      hide KeyLess, Shares, Joined, Sorted;
      if Joined(b.key) !in m {
        return false;
      }
      JoinedIsInjective(b.key, m[Joined(b.key)].key);
      if m[Joined(b.key)].version != expected {
        return false;
      }
      Overwrite(b);
      return true;
    }

    /** The write of a first bind: only while the key is absent. */
    method Create(b: Binding) returns (won: bool)
      requires Valid() && Plain(b.key)
      modifies this
      ensures Valid() && won == (b.key !in old(Rows()))
      ensures Rows() == if won then old(Rows())[b.key := b] else old(Rows())
    {
      hide KeyLess, Shares, Joined, Sorted;
      if Joined(b.key) in m {
        JoinedIsInjective(b.key, m[Joined(b.key)].key);
        return false;
      }
      Insert(b);
      return true;
    }

    method Delete(k: Key)
      requires Valid() && Plain(k)
      modifies this
      ensures Valid() && Rows() == old(Rows()) - {k}
    {
      hide KeyLess, Shares, Joined, Sorted;
      var before := index;
      if Joined(k) in m {
        JoinedIsInjective(k, m[Joined(k)].key);
        JoinedApart(Keys(index), k);
        m := m - {Joined(k)};
        RemoveIndex(k);
        RemoveUserIndex(k, Keys(before));
        assert Keys(index) == Keys(before) - {k};
      }
    }

    /** The rows under a list of keys, in its order. */
    method Collect(keys: seq<Key>) returns (out: seq<Binding>)
      requires Valid() && forall k | k in keys :: k in index
      ensures |out| == |keys| && forall i | 0 <= i < |keys| :: keys[i] in Rows() && out[i] == Rows()[keys[i]]
    {
      out := [];
      for i := 0 to |keys|
        invariant |out| == i && forall j | 0 <= j < i :: keys[j] in Rows() && out[j] == Rows()[keys[j]]
      {
        assert keys[i] in keys;
        out := out + [m[Joined(keys[i])]];
      }
    }

    method ListAll() returns (out: seq<Binding>)
      requires Valid()
      ensures IsListing(Rows(), out)
    {
      out := Collect(index);
      assert KeysOf(out) == index;
    }

    /** One account's rows, from its own list: exactly what filtering the whole listing would give. */
    method List(user: Text) returns (out: seq<Binding>)
      requires Valid()
      ensures forall all | IsListing(Rows(), all) :: KeysOf(out) == OfUser(KeysOf(all), user)
      ensures forall i | 0 <= i < |out| :: out[i].key in Rows() && out[i] == Rows()[out[i].key]
    {
      var keys := if user in byUser then byUser[user] else [];
      assert forall k | k in keys :: k in Keys(byUser[user]);
      out := Collect(keys);
      assert KeysOf(out) == keys;
      forall all | IsListing(Rows(), all)
        ensures keys == OfUser(KeysOf(all), user)
      {
        assert Keys(KeysOf(all)) == Keys(index);
        ListIsShare(Keys(index), byUser, KeysOf(all), user);
      }
    }

    method ListAllPage(after: Key, limit: int) returns (page: seq<Binding>)
      requires Valid()
      ensures IsPage(KeyLess, Rows().Keys, START, after, Limited(limit), KeysOf(page))
      ensures forall i | 0 <= i < |page| :: page[i].key in Rows() && page[i] == Rows()[page[i].key]
    {
      KeyOrder();
      var slice, _ := PageAfter(KeyLess, index, START, after, limit);
      assert Keys(index) == Rows().Keys;
      page := Collect(slice);
      assert KeysOf(page) == slice;
    }
  }

  function KeysOf(rows: seq<Binding>): seq<Key> {
    seq(|rows|, i requires 0 <= i < |rows| => rows[i].key)
  }

  /** Every row once, in key order. */
  ghost predicate IsListing(rows: map<Key, Binding>, out: seq<Binding>) {
    && Sorted(KeyLess, KeysOf(out)) && Keys(KeysOf(out)) == rows.Keys
    && forall i | 0 <= i < |out| :: out[i].key in rows && out[i] == rows[out[i].key]
  }

  lemma ListIsShare(keys: set<Key>, byUser: map<Text, seq<Key>>, all: seq<Key>, user: Text)
    requires Shares(keys, byUser) && Sorted(KeyLess, all) && Keys(all) == keys
    ensures OfUser(all, user) == if user in byUser then byUser[user] else []
  {
    var list := if user in byUser then byUser[user] else [];
    OfUserIsSorted(all, user);
    forall k
      ensures k in OfUser(all, user) <==> k in list
    {
      assert k in all <==> k in Keys(all);
      assert user in byUser ==> (k in Keys(list) <==> k in Share(keys, user));
    }
    KeyOrder();
    SortedIsUnique(KeyLess, OfUser(all, user), list);
  }

  lemma JoinedApart(keys: set<Key>, k: Key)
    requires Plain(k) && forall x | x in keys :: Plain(x)
    ensures forall x | x in keys && x != k :: Joined(x) != Joined(k)
  {
    forall x | x in keys && x != k
      ensures Joined(x) != Joined(k)
    {
      if Joined(x) == Joined(k) {
        JoinedIsInjective(x, k);
      }
    }
  }

  /** Where a key belongs in its account's list. */
  lemma UserOrder(keys: seq<Key>, k: Key)
    requires forall x | x in keys :: x.user == k.user
    ensures forall j | 0 <= j < |keys| :: UserKeyLess(keys[j], k) == KeyLess(keys[j], k)
  {
    assert forall j | 0 <= j < |keys| :: keys[j] in keys;
  }

  method UserIndexOf(keys: seq<Key>, k: Key) returns (i: nat, present: bool)
    requires Sorted(KeyLess, keys) && forall x | x in keys :: x.user == k.user
    ensures i <= |keys| && present == (k in keys)
    ensures present ==> i < |keys| && keys[i] == k
    ensures forall j | 0 <= j < i :: KeyLess(keys[j], k)
    ensures forall j | i <= j < |keys| :: !KeyLess(keys[j], k)
  {
    hide KeyLess, UserKeyLess;
    KeyOrder();
    UserOrder(keys, k);
    i := Search(keys, (x: Key) => !UserKeyLess(x, k));
    present := i < |keys| && keys[i] == k;
    if k in keys {
      ghost var j :| 0 <= j < |keys| && keys[j] == k;
      assert i <= j;
    }
  }
}
