/**
 vault/repo.go: the credential table with its ordered index. Rotation over it alone is in
 VaultRotate.dfy, and beside other callers in Vault.dfy.
 */
module VaultRepo {
  import opened Ordered
  import opened Envelope
  import opened Options

  predicate IdentityLess(a: Identity, b: Identity) {
    if a.subject != b.subject then Less(a.subject, b.subject) else Less(a.provider, b.provider)
  }

  /** The empty cursor, which no stored identity equals because both fields of one are set. */
  const START := Identity([], [])

  predicate RecordAfter(id: Identity, subject: Text, provider: Text) {
    if subject == [] && provider == [] then true
    else if id.subject != subject then Less(subject, id.subject)
    else Less(provider, id.provider)
  }

  lemma IdentityOrder()
    ensures StrictOrder(IdentityLess)
  {
    hide Less;
    LessIsStrict();
    forall a, b, c | IdentityLess(a, b) && IdentityLess(b, c)
      ensures IdentityLess(a, c)
    {
    }
    forall a, b
      ensures a == b || IdentityLess(a, b) || IdentityLess(b, a)
      ensures !IdentityLess(a, a)
    {
    }
  }

  /** The cursor comparison of a page is the order of the index. */
  lemma CursorAgrees(id: Identity, cursor: Identity)
    ensures RecordAfter(id, cursor.subject, cursor.provider) <==> After(IdentityLess, START, cursor, id)
  {
    assert cursor.subject == [] && cursor.provider == [] <==> cursor == START;
  }

  /** The index is the sorted key set, and a record is stored under its own identity. */
  ghost predicate Consistent(records: map<Identity, Record>, ids: seq<Identity>) {
    && Sorted(IdentityLess, ids)
    && (forall id :: id in ids <==> id in records)
    && (forall id | id in records :: records[id].identity == id)
  }

  class MemoryRepo {
    var records: map<Identity, Record>
    var ids: seq<Identity>

    ghost predicate Valid()
      reads this
    {
      Consistent(records, ids)
    }

    constructor ()
      ensures Valid() && records == map[]
    {
      records, ids := map[], [];
    }

    method Put(rec: Record)
      requires Valid()
      modifies this
      ensures Valid() && records == old(records)[rec.identity := rec]
    {
      if rec.identity !in records {
        IdentityOrder();
        var i, present := IndexOf(IdentityLess, ids, rec.identity);
        InsertedIsSorted(IdentityLess, ids, i, rec.identity);
        ids := Inserted(ids, i, rec.identity);
      }
      records := records[rec.identity := rec];
    }

    method Get(id: Identity) returns (rec: Option<Record>)
      requires Valid()
      ensures rec == if id in records then Some(records[id]) else None
    {
      return if id in records then Some(records[id]) else None;
    }

    method Delete(id: Identity) returns (found: bool)
      requires Valid()
      modifies this
      ensures Valid() && found == (id in old(records)) && records == old(records) - {id}
    {
      if id !in records {
        return false;
      }
      records := records - {id};
      IdentityOrder();
      var i, present := IndexOf(IdentityLess, ids, id);
      if present {
        RemovedIsSorted(IdentityLess, ids, i);
        ids := Removed(ids, i);
      }
      return true;
    }

    /** Replaces the envelope only, and only while the row still has the one that was read. */
    method RewrapIfUnchanged(id: Identity, held: Sealed<nat>, kek: Text, wrapped: Sealed<nat>, updated: int)
      returns (applied: bool)
      requires Valid()
      modifies this
      ensures Valid() && ids == old(ids)
      ensures applied == (id in old(records) && old(records)[id].wrapped == held)
      ensures records == if applied
              then old(records)[id := old(records)[id].(wrapped := wrapped, kek := kek, updated := updated)]
                         else old(records)
    {
      if id !in records {
        return false;
      }
      var rec := records[id];
      if rec.wrapped != held {
        return false;
      }
      records := records[id := rec.(wrapped := wrapped, kek := kek, updated := updated)];
      return true;
    }

    method ListPage(subject: Text, provider: Text, limit: int) returns (page: seq<Record>, ghost pos: nat)
      requires Valid()
      ensures forall i | 0 <= i < |page| :: page[i].identity in records && page[i] == records[page[i].identity]
      ensures IsPage(IdentityLess, records.Keys, START, Identity(subject, provider), Limited(limit), Identities(page))
      ensures IsSlice(IdentityLess, ids, START, Identity(subject, provider), Limited(limit), Identities(page), pos)
    {
      hide IdentityLess, IsSlice, Sorted, StrictOrder;
      IdentityOrder();
      assert Keys(ids) == records.Keys;
      var slice;
      slice, pos := PageAfter(IdentityLess, ids, START, Identity(subject, provider), limit);
      page := [];
      for i := 0 to |slice|
        invariant |page| == i
        invariant forall j | 0 <= j < i :: slice[j] in records && page[j] == records[slice[j]]
      {
        assert slice[i] in slice;
        page := page + [records[slice[i]]];
      }
      assert Identities(page) == slice;
    }

    /** Removes one subject's records, which are one contiguous block of the index, and counts them. */
    method DeleteSubject(subject: Text) returns (removed: Option<nat>)
      requires Valid()
      modifies this
      ensures Valid()
      ensures subject == [] ==> removed == None && records == old(records)
      ensures subject != [] ==> records == OtherSubjects(old(records), subject)
      ensures subject != [] ==> exists lo: nat, hi: nat | IsBlock(old(ids), subject, lo, hi) ::
                removed == Some(hi - lo) && ids == old(ids)[..lo] + old(ids)[hi..]
    {
      hide Consistent, StrictOrder, Sorted, Less, IdentityLess, OtherSubjects, IsBlock;
      if subject == [] {
        return None;
      }
      SubjectsAscend(records, ids, subject);
      var lo := Search(ids, (id: Identity) => !Less(id.subject, subject));
      var hi := DropRun(subject, lo);
      BlockRemoved(old(records), ids, subject, lo, hi);
      if hi > lo {
        ids := ids[..lo] + ids[hi..];
      } else {
        assert ids == ids[..lo] + ids[hi..];
      }
      return Some(hi - lo);
    }

    /** Deletes the records from position lo on while they belong to the subject. */
    method DropRun(subject: Text, lo: nat) returns (hi: nat)
      requires lo <= |ids|
      modifies this`records
      ensures lo <= hi <= |ids| && (hi < |ids| ==> ids[hi].subject != subject)
      ensures forall i | lo <= i < hi :: ids[i].subject == subject
      ensures records == old(records) - Keys(ids[lo..hi])
    {
      hi := lo;
      while hi < |ids| && ids[hi].subject == subject
        invariant lo <= hi <= |ids|
        invariant forall i | lo <= i < hi :: ids[i].subject == subject
        invariant records == old(records) - Keys(ids[lo..hi])
      {
        assert ids[lo..hi + 1] == ids[lo..hi] + [ids[hi]];
        records := records - {ids[hi]};
        hi := hi + 1;
      }
    }
  }

  function Identities(page: seq<Record>): seq<Identity> {
    seq(|page|, i requires 0 <= i < |page| => page[i].identity)
  }

  function OtherSubjects(records: map<Identity, Record>, subject: Text): map<Identity, Record> {
    map id | id in records && id.subject != subject :: records[id]
  }

  /** Exactly positions lo to hi hold the subject's identities. */
  ghost predicate IsBlock(ids: seq<Identity>, subject: Text, lo: nat, hi: nat) {
    lo <= hi <= |ids| && forall i | 0 <= i < |ids| :: ids[i].subject == subject <==> lo <= i < hi
  }

  lemma SubjectsAscend(records: map<Identity, Record>, ids: seq<Identity>, subject: Text)
    requires Consistent(records, ids)
    ensures forall j, k | 0 <= j <= k < |ids| :: !Less(ids[j].subject, subject) ==> !Less(ids[k].subject, subject)
  {
    hide Less;
    LessIsStrict();
  }

  /** What is found by bisection and the scan from there is the subject's block, and removing it removes the subject. */
  lemma BlockRemoved(records: map<Identity, Record>, ids: seq<Identity>, subject: Text, lo: nat, hi: nat)
    requires Consistent(records, ids) && lo <= hi <= |ids|
    requires forall i | 0 <= i < lo :: Less(ids[i].subject, subject)
    requires forall i | lo <= i < |ids| :: !Less(ids[i].subject, subject)
    requires forall i | lo <= i < hi :: ids[i].subject == subject
    requires hi < |ids| ==> ids[hi].subject != subject
    ensures IsBlock(ids, subject, lo, hi)
    ensures records - Keys(ids[lo..hi]) == OtherSubjects(records, subject)
    ensures Consistent(OtherSubjects(records, subject), ids[..lo] + ids[hi..])
  {
    hide Less, IdentityLess, Sorted, IsBlock;
    BlockIsSubject(ids, subject, lo, hi);
    BlockRecords(records, ids, subject, lo, hi);
    CutIsSorted(ids, lo, hi);
  }

  lemma CutIsSorted(ids: seq<Identity>, lo: nat, hi: nat)
    requires Sorted(IdentityLess, ids) && lo <= hi <= |ids|
    ensures Sorted(IdentityLess, ids[..lo] + ids[hi..])
  {
    hide IdentityLess;
  }

  lemma BlockRecords(records: map<Identity, Record>, ids: seq<Identity>, subject: Text, lo: nat, hi: nat)
    requires (forall id :: id in ids <==> id in records) && IsBlock(ids, subject, lo, hi)
    ensures records - Keys(ids[lo..hi]) == OtherSubjects(records, subject)
  {
    forall id | id in records
      ensures id in ids[lo..hi] <==> id.subject == subject
    {
      var i :| 0 <= i < |ids| && ids[i] == id;
    }
  }

  lemma BlockIsSubject(ids: seq<Identity>, subject: Text, lo: nat, hi: nat)
    requires Sorted(IdentityLess, ids) && lo <= hi <= |ids|
    requires forall i | 0 <= i < lo :: Less(ids[i].subject, subject)
    requires forall i | lo <= i < |ids| :: !Less(ids[i].subject, subject)
    requires forall i | lo <= i < hi :: ids[i].subject == subject
    requires hi < |ids| ==> ids[hi].subject != subject
    ensures IsBlock(ids, subject, lo, hi)
    ensures forall id :: id in ids[..lo] + ids[hi..] <==> id in ids && id.subject != subject
  {
    hide Less;
    LessIsStrict();
    forall i | hi <= i < |ids|
      ensures ids[i].subject != subject
    {
      assert i > hi ==> IdentityLess(ids[hi], ids[i]);
    }
  }
}
