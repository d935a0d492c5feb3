/**
 RevokeAllBindings (internal/federation/killswitch.go) over the memory store, by itself: page after page
 is removed while the walk goes on. Which local removals fail is a parameter; the sources' answers,
 which change no binding, are not part of it.
 */
module KillSwitch {
  import opened Ordered
  import opened BindingStore

  datatype Summary = Summary(revoked: nat, failed: nat)

  ghost function Left(rows: map<Key, Binding>, done: set<Key>, fails: Key -> bool): map<Key, Binding> {
    map k | k in rows && (k !in done || fails(k)) :: rows[k]
  }

  /** What is left after one more key, and how many that makes. */
  lemma LeftNext(rows: map<Key, Binding>, done: set<Key>, fails: Key -> bool, k: Key)
    requires k in rows && k !in done && done <= rows.Keys
    ensures Left(rows, done + {k}, fails) == if fails(k) then Left(rows, done, fails) else Left(rows, done, fails) - {k}
    ensures |Left(rows, done, fails)| == |Left(rows, done + {k}, fails)| + if fails(k) then 0 else 1
  {
    var before, after := Left(rows, done, fails), Left(rows, done + {k}, fails);
    if fails(k) {
      assert after == before;
    } else {
      assert after == before - {k};
      assert before.Keys == after.Keys + {k};
      SizeOfKeys(before);
      SizeOfKeys(after);
    }
  }

  lemma SizeOfKeys(m: map<Key, Binding>)
    ensures |m| == |m.Keys|
  {
  }

  /** Where a sweep is: what it has done, what is left and what it has counted. */
  ghost predicate Swept(rows: map<Key, Binding>, now: map<Key, Binding>, done: set<Key>, fails: Key -> bool,
                        s: Summary) {
    && done <= rows.Keys && now == Left(rows, done, fails)
    && s.revoked + s.failed == |done| && |now| + s.revoked == |rows|
  }

  function Counted(s: Summary, failed: bool): Summary {
    if failed then s.(failed := s.failed + 1) else s.(revoked := s.revoked + 1)
  }

  lemma SweepNext(rows: map<Key, Binding>, now: map<Key, Binding>, done: set<Key>, fails: Key -> bool, s: Summary,
                  k: Key)
    requires Swept(rows, now, done, fails, s) && k in rows && k !in done
    ensures k in now
    ensures Swept(rows, if fails(k) then now else now - {k}, done + {k}, fails, Counted(s, fails(k)))
  {
    LeftNext(rows, done, fails, k);
  }

  lemma NextKey(keys: seq<Key>, i: nat, done: set<Key>)
    requires Sorted(KeyLess, keys) && StrictOrder(KeyLess) && i < |keys| && keys[i] !in done
    ensures keys[i] !in done + Keys(keys[..i]) && done + Keys(keys[..i + 1]) == done + Keys(keys[..i]) + {keys[i]}
  {
    assert keys[..i + 1] == keys[..i] + [keys[i]];
  }

  lemma NoKeys(keys: seq<Key>, done: set<Key>)
    requires keys == []
    ensures done + Keys(keys) == done
  {
  }

  method RevokeBindings(store: MemoryBindingStore, page: seq<Binding>, fails: Key -> bool, before: Summary,
                        ghost rows: map<Key, Binding>, ghost done: set<Key>) returns (s: Summary)
    requires store.Valid() && Swept(rows, store.Rows(), done, fails, before)
    requires Sorted(KeyLess, KeysOf(page)) && forall b | b in page :: b.key in rows && b.key !in done
    modifies store
    ensures store.Valid() && Swept(rows, store.Rows(), done + Keys(KeysOf(page)), fails, s)
  {
    hide Swept, Plain, Sorted, StrictOrder, Keys, KeyLess, MemoryBindingStore.Valid, MemoryBindingStore.Rows;
    s := before;
    KeyOrder();
    ghost var keys := KeysOf(page);
    NoKeys(keys[..0], done);
    for i := 0 to |page|
      invariant store.Valid() && Swept(rows, store.Rows(), done + Keys(keys[..i]), fails, s)
    {
      var k := page[i].key;
      assert page[i] in page && keys[i] == k;
      NextKey(keys, i, done);
      SweepNext(rows, store.Rows(), done + Keys(keys[..i]), fails, s, k);
      if fails(k) {
        s := s.(failed := s.failed + 1);
      } else {
        assert Plain(k) by { RowIsPlain(store, k); }
        store.Delete(k);
        s := s.(revoked := s.revoked + 1);
      }
    }
    assert keys[..|page|] == keys;
  }

  lemma RowIsPlain(store: MemoryBindingStore, k: Key)
    requires store.Valid() && k in store.Rows()
    ensures Plain(k)
  {
  }

  /**
   A sweep ends, meets every binding there was once, and leaves exactly those whose removal failed:
   none of them when none did.
   */
  method RevokeAllBindings(store: MemoryBindingStore, pageSize: nat, fails: Key -> bool) returns (s: Summary)
    requires store.Valid() && pageSize > 0 && START !in store.Rows()
    modifies store
    ensures store.Valid()
    ensures store.Rows() == Left(old(store.Rows()), old(store.Rows()).Keys, fails)
    ensures s.revoked + s.failed == |old(store.Rows())| && s.failed == |store.Rows()|
  {
    hide Swept, Met, Plain, Sorted, StrictOrder, KeyLess, IsPage, Left, MemoryBindingStore.Valid;
    hide MemoryBindingStore.Rows;
    ghost var rows, done := store.Rows(), {};
    var after := START;
    s := Summary(0, 0);
    KeyOrder();
    SweepStarts(rows, fails);
    while true
      invariant store.Valid() && Swept(rows, store.Rows(), done, fails, s) && Met(rows, done, after)
      decreases rows.Keys - done
    {
      var page := store.ListAllPage(after, pageSize);
      PageIsNext(rows, store.Rows(), done, fails, s, after, pageSize, page);
      if |page| == 0 {
        break;
      }
      assert page[0] in page;
      s := RevokeBindings(store, page, fails, s, rows, done);
      done := done + Keys(KeysOf(page));
      if |page| < pageSize {
        break;
      }
      after := page[|page| - 1].key;
    }
    SweepEnds(rows, store.Rows(), done, fails, s);
  }

  lemma SweepStarts(rows: map<Key, Binding>, fails: Key -> bool)
    ensures Met(rows, {}, START) && Swept(rows, rows, {}, fails, Summary(0, 0))
  {
    assert Left(rows, {}, fails) == rows;
  }

  lemma SweepEnds(rows: map<Key, Binding>, now: map<Key, Binding>, done: set<Key>, fails: Key -> bool, s: Summary)
    requires Swept(rows, now, done, fails, s) && rows.Keys <= done
    ensures now == Left(rows, rows.Keys, fails) && s.revoked + s.failed == |rows| && s.failed == |now|
  {
    SizeOfKeys(rows);
    assert done == rows.Keys;
  }

  /** The bindings met so far are those up to the cursor. */
  ghost predicate Met(rows: map<Key, Binding>, done: set<Key>, after: Key) {
    forall k | k in rows :: k in done <==> !After(KeyLess, START, after, k)
  }

  /** A page is the next of what has not been met: all of it when it is short, all up to its last key otherwise. */
  lemma KeysAreNext(rows: map<Key, Binding>, now: map<Key, Binding>, done: set<Key>, after: Key, pageSize: nat,
                    keys: seq<Key>)
    requires pageSize > 0 && START !in rows && StrictOrder(KeyLess) && Met(rows, done, after)
    requires now.Keys <= rows.Keys && forall k | k in rows && k !in done :: k in now
    requires IsPage(KeyLess, now.Keys, START, after, pageSize, keys)
    ensures forall k | k in keys :: k in rows && k !in done
    ensures |keys| < pageSize ==> rows.Keys <= done + Keys(keys)
    ensures |keys| >= pageSize ==> Met(rows, done + Keys(keys), keys[|keys| - 1])
  {
    hide KeyLess;
    if |keys| >= pageSize {
      var last := keys[|keys| - 1];
      assert last in keys && last in rows;
      forall k | k in rows
        ensures k in done || k in keys <==> !KeyLess(last, k)
      {
        if k in done {
          assert after != START && (k == after || KeyLess(k, after)) && KeyLess(after, last);
        } else if k in keys {
          var i :| 0 <= i < |keys| && keys[i] == k;
        }
      }
    }
  }

  lemma PageIsNext(rows: map<Key, Binding>, now: map<Key, Binding>, done: set<Key>, fails: Key -> bool, s: Summary,
                   after: Key, pageSize: nat, page: seq<Binding>)
    requires pageSize > 0 && START !in rows && StrictOrder(KeyLess)
    requires Swept(rows, now, done, fails, s) && Met(rows, done, after)
    requires IsPage(KeyLess, now.Keys, START, after, pageSize, KeysOf(page))
    ensures Sorted(KeyLess, KeysOf(page))
    ensures forall b | b in page :: b.key in rows && b.key !in done && b.key in Keys(KeysOf(page))
    ensures |page| < pageSize ==> rows.Keys <= done + Keys(KeysOf(page))
    ensures |page| >= pageSize ==> Met(rows, done + Keys(KeysOf(page)), page[|page| - 1].key)
  {
    hide KeyLess, Met, StrictOrder, Sorted;
    var keys := KeysOf(page);
    KeysAreNext(rows, now, done, after, pageSize, keys);
    hide IsPage, Swept;
    forall b | b in page
      ensures b.key in keys
    {
      var i :| 0 <= i < |page| && page[i] == b;
      assert keys[i] == b.key;
    }
  }
}
