/**
 vault/rotate.go on a repository nobody else is using: the page loop, the re-wrap of one page, and
 what a rotation that reports success has established.
 */
module VaultRotate {
  import opened Ordered
  import opened Envelope
  import opened VaultRepo
  import opened Options

  datatype Rotation = Rotation(scanned: nat, rewrapped: nat, alreadyCurrent: nat, skipped: nat)

  function Accounted(out: Rotation): nat {
    out.rewrapped + out.alreadyCurrent + out.skipped
  }

  /** The service holds the key that wrapped the record's data key. */
  predicate Openable(svc: Service, rec: Record) {
    rec.kek in svc.keys && Open(rec.wrapped, svc.keys[rec.kek], AADOf(rec)).Some?
  }

  predicate OnCurrent(svc: Service, rec: Record) {
    rec.kek == svc.current && Openable(svc, rec)
  }

  /** Everything but the envelope, and the data key inside the envelope, is the same. */
  predicate SamePayload(a: Record, b: Record) {
    b == a.(wrapped := b.wrapped, kek := b.kek, updated := b.updated) && b.wrapped.plain == a.wrapped.plain
  }

  datatype Outcome = Failed | AlreadyCurrent | Rewrapped | Skipped

  function Count(out: Rotation, o: Outcome): Rotation {
    match o
    case Failed => out.(scanned := out.scanned + 1)
    case AlreadyCurrent => out.(scanned := out.scanned + 1, alreadyCurrent := out.alreadyCurrent + 1)
    case Rewrapped => out.(scanned := out.scanned + 1, rewrapped := out.rewrapped + 1)
    case Skipped => out.(scanned := out.scanned + 1, skipped := out.skipped + 1)
  }

  /** How many of the records are on the current key. */
  ghost function Currents(svc: Service, recs: seq<Record>): nat {
    if recs == [] then 0
    else Currents(svc, recs[..|recs| - 1]) + if OnCurrent(svc, recs[|recs| - 1]) then 1 else 0
  }

  lemma {:induction false} CurrentsAdd(svc: Service, a: seq<Record>, b: seq<Record>)
    ensures Currents(svc, a + b) == Currents(svc, a) + Currents(svc, b)
  {
    hide OnCurrent;
    if b == [] {
      assert a + b == a;
    } else {
      CurrentsAdd(svc, a, b[..|b| - 1]);
      assert (a + b)[..|a + b| - 1] == a + b[..|b| - 1];
    }
  }

  lemma CurrentsNext(svc: Service, page: seq<Record>, i: nat)
    requires i < |page|
    ensures Currents(svc, page[..i + 1]) == Currents(svc, page[..i]) + if OnCurrent(svc, page[i]) then 1 else 0
  {
    assert page[..i + 1][..i] == page[..i];
  }

  /** The records of the first `pos` identities. */
  ghost function Listed(records: map<Identity, Record>, ids: seq<Identity>, pos: nat): seq<Record>
    requires pos <= |ids| && forall id | id in ids :: id in records
  {
    seq(pos, j requires 0 <= j < pos => records[ids[j]])
  }

  /** Over distinct identities that is the number of records on the current key. */
  lemma {:induction false} CurrentsIsSize(svc: Service, records: map<Identity, Record>, ids: seq<Identity>, pos: nat)
    requires pos <= |ids| && (forall id | id in ids :: id in records)
    requires forall i, j | 0 <= i < j < |ids| :: ids[i] != ids[j]
    ensures Currents(svc, Listed(records, ids, pos)) == |set id | id in ids[..pos] && OnCurrent(svc, records[id])|
  {
    hide OnCurrent;
    if pos > 0 {
      CurrentsIsSize(svc, records, ids, pos - 1);
      assert Listed(records, ids, pos)[..pos - 1] == Listed(records, ids, pos - 1);
      assert ids[..pos] == ids[..pos - 1] + [ids[pos - 1]];
      var before, after := set id | id in ids[..pos - 1] && OnCurrent(svc, records[id]),
        set id | id in ids[..pos] && OnCurrent(svc, records[id]);
      assert ids[pos - 1] !in ids[..pos - 1];
      assert after == if OnCurrent(svc, records[ids[pos - 1]]) then before + {ids[pos - 1]} else before;
    } else {
      assert ids[..0] == [];
    }
  }

  /** One record: verify it, or re-wrap it unless the row is no longer the one that was read. */
  method RotateRecord(repo: MemoryRepo, svc: Service, rec: Record) returns (o: Outcome)
    requires repo.Valid() && Configured(svc)
    modifies repo
    ensures repo.Valid() && repo.ids == old(repo.ids) && repo.records.Keys == old(repo.records).Keys
    ensures o == Failed <==> !Openable(svc, rec)
    ensures o == AlreadyCurrent <==> OnCurrent(svc, rec)
    ensures o == Rewrapped ==>
              && rec.identity in old(repo.records) && old(repo.records)[rec.identity].wrapped == rec.wrapped
              && SamePayload(old(repo.records)[rec.identity], repo.records[rec.identity])
              && repo.records[rec.identity].kek == svc.current
              && repo.records[rec.identity].wrapped.key == svc.keys[svc.current]
              && repo.records[rec.identity].wrapped.aad == AADOf(rec)
    ensures o == Skipped ==>
              rec.identity !in old(repo.records) || old(repo.records)[rec.identity].wrapped != rec.wrapped
    ensures forall id | id in repo.records && (o != Rewrapped || id != rec.identity) ::
              repo.records[id] == old(repo.records)[id]
  {
    if !Openable(svc, rec) {
      return Failed;
    }
    if rec.kek == svc.current {
      return AlreadyCurrent;
    }
    var nonce: nat, now: int := *, *;
    var wrapped := Sealed(svc.keys[svc.current], nonce, rec.wrapped.plain, AADOf(rec));
    var applied := repo.RewrapIfUnchanged(rec.identity, rec.wrapped, svc.current, wrapped, now);
    return if applied then Rewrapped else Skipped;
  }

  /** What `i` records of a page rotated alone have done to the table. */
  ghost predicate Rotated(svc: Service, before: map<Identity, Record>, after: map<Identity, Record>, page: seq<Record>,
                          i: nat)
    requires i <= |page|
  {
    && after.Keys == before.Keys
    && (forall id | id in before :: SamePayload(before[id], after[id]))
    && (forall id | id in before && (forall j | 0 <= j < i :: page[j].identity != id) :: after[id] == before[id])
    && (forall j | 0 <= j < i :: page[j].identity in after && OnCurrent(svc, after[page[j].identity]))
  }

  /** The rotation of one page; `ok` is false when a record cannot be unwrapped. */
  method RotateRecords(repo: MemoryRepo, svc: Service, page: seq<Record>, before: Rotation)
    returns (out: Rotation, ok: bool, ghost done: nat)
    requires repo.Valid() && Configured(svc)
    requires forall i, j | 0 <= i < j < |page| :: page[i].identity != page[j].identity
    requires forall i | 0 <= i < |page| :: page[i].identity in repo.records && repo.records[page[i].identity] == page[i]
    modifies repo
    ensures repo.Valid() && repo.ids == old(repo.ids)
    ensures done <= |page| && Rotated(svc, old(repo.records), repo.records, page, done)
    ensures forall i | 0 <= i < done :: Openable(svc, page[i])
    ensures if ok then done == |page| else done < |page| && !Openable(svc, page[done])
    ensures out.skipped == before.skipped
    ensures out.scanned == before.scanned + done + if ok then 0 else 1
    ensures out.alreadyCurrent == before.alreadyCurrent + Currents(svc, page[..done])
    ensures out.rewrapped == before.rewrapped + done - Currents(svc, page[..done])
  {
    hide Openable, OnCurrent, SamePayload, Consistent, AADOf, Rotated, Currents;
    NoCurrents(svc, page);
    out, ok, done := before, true, 0;
    RotatedAtStart(svc, repo.records, page);
    for i := 0 to |page|
      invariant done == i && repo.Valid() && repo.ids == old(repo.ids)
      invariant Rotated(svc, old(repo.records), repo.records, page, i)
      invariant forall j | 0 <= j < i :: Openable(svc, page[j])
      invariant out.skipped == before.skipped && out.scanned == before.scanned + i
      invariant out.alreadyCurrent == before.alreadyCurrent + Currents(svc, page[..i])
      invariant out.rewrapped == before.rewrapped + i - Currents(svc, page[..i])
    {
      CurrentsNext(svc, page, i);
      ghost var mid := repo.records;
      UntouchedYet(svc, old(repo.records), mid, page, i);
      var o := RotateRecord(repo, svc, page[i]);
      out := Count(out, o);
      if o == Failed {
        assert repo.records == mid;
        return out, false, i;
      }
      SettledNow(svc, page[i], repo.records[page[i].identity], o);
      RotatedNext(svc, old(repo.records), mid, repo.records, page, i);
      done := i + 1;
    }
  }

  lemma NoCurrents(svc: Service, page: seq<Record>)
    ensures Currents(svc, page[..0]) == 0
  {
  }

  lemma UntouchedYet(svc: Service, before: map<Identity, Record>, mid: map<Identity, Record>, page: seq<Record>, i: nat)
    requires i < |page| && Rotated(svc, before, mid, page, i) && page[i].identity in before
    requires before[page[i].identity] == page[i]
    requires forall j | 0 <= j < i :: page[j].identity != page[i].identity
    ensures mid.Keys == before.Keys && page[i].identity in mid && mid[page[i].identity] == page[i]
  {
  }

  lemma RotatedAtStart(svc: Service, records: map<Identity, Record>, page: seq<Record>)
    ensures Rotated(svc, records, records, page, 0)
  {
  }

  lemma SettledNow(svc: Service, rec: Record, now: Record, o: Outcome)
    requires Configured(svc) && (o == AlreadyCurrent <==> OnCurrent(svc, rec)) && (o == AlreadyCurrent ==> now == rec)
    requires o == Rewrapped ==>
               SamePayload(rec, now) && now.kek == svc.current && now.wrapped.key == svc.keys[svc.current]
                 && now.wrapped.aad == AADOf(rec)
    requires o == AlreadyCurrent || o == Rewrapped
    ensures SamePayload(rec, now) && OnCurrent(svc, now)
  {
  }

  lemma RotatedNext(svc: Service, before: map<Identity, Record>, mid: map<Identity, Record>,
                    after: map<Identity, Record>,
                    page: seq<Record>, i: nat)
    requires i < |page| && Rotated(svc, before, mid, page, i) && after.Keys == mid.Keys
    requires forall j | 0 <= j < i :: page[j].identity != page[i].identity
    requires page[i].identity in mid && SamePayload(mid[page[i].identity], after[page[i].identity])
    requires OnCurrent(svc, after[page[i].identity])
    requires forall id | id in mid && id != page[i].identity :: after[id] == mid[id]
    ensures Rotated(svc, before, after, page, i + 1)
  {
    hide OnCurrent;
  }

  /** The first `pos` records of the index are on the current key, the others are as they were. */
  ghost predicate Swept(svc: Service, before: map<Identity, Record>, after: map<Identity, Record>, ids: seq<Identity>,
                        pos: nat) {
    && pos <= |ids| && after.Keys == before.Keys
    && (forall id | id in ids :: id in before && SamePayload(before[id], after[id]))
    && (forall j | 0 <= j < pos :: Openable(svc, before[ids[j]]) && OnCurrent(svc, after[ids[j]]))
    && (forall j | pos <= j < |ids| :: after[ids[j]] == before[ids[j]])
  }

  /**
   The whole rotation. It succeeds exactly when every record can be unwrapped, and then every record
   is on the current key with its payload untouched. The counts add up exactly when it succeeds: a run
   that stops at a record has scanned one more than it accounts for.
   */
  method Rotate(repo: MemoryRepo, svc: Service, limit: nat) returns (out: Rotation, ok: bool)
    requires repo.Valid() && Configured(svc) && START !in repo.records && limit > 0
    modifies repo
    ensures repo.Valid() && repo.ids == old(repo.ids) && repo.records.Keys == old(repo.records).Keys
    ensures forall id | id in repo.records :: SamePayload(old(repo.records)[id], repo.records[id])
    ensures ok <==> forall id | id in old(repo.records) :: Openable(svc, old(repo.records)[id])
    ensures ok ==> forall id | id in repo.records :: OnCurrent(svc, repo.records[id])
    ensures ok ==> out.scanned == |repo.ids| && out.skipped == 0
    ensures ok ==> out.alreadyCurrent == |set id | id in old(repo.records) && OnCurrent(svc, old(repo.records)[id])|
    ensures ok ==> out.rewrapped == |old(repo.records)| - out.alreadyCurrent
    ensures out.scanned == out.rewrapped + out.alreadyCurrent + out.skipped + if ok then 0 else 1
  {
    hide SamePayload, Openable, OnCurrent, Swept, Currents;
    ghost var before := repo.records;
    SweptAtStart(svc, before, repo.ids);
    NoneListed(svc, before, repo.ids);
    out, ok := Rotation(0, 0, 0, 0), true;
    var cursor := START;
    var more := true;
    ghost var pos := 0;
    while more
      invariant repo.Valid() && repo.ids == old(repo.ids) && START !in repo.ids
      invariant pos <= |repo.ids| && Swept(svc, before, repo.records, repo.ids, pos)
      invariant ok ==> cursor == if pos == 0 then START else repo.ids[pos - 1]
      invariant out.scanned == pos + (if ok then 0 else 1) && out.skipped == 0
      invariant out.alreadyCurrent == Currents(svc, Listed(before, repo.ids, pos))
      invariant out.rewrapped == pos - Currents(svc, Listed(before, repo.ids, pos))
      invariant !ok ==> !more && exists id | id in before :: !Openable(svc, before[id])
      invariant ok && !more ==> pos == |repo.ids|
      decreases |repo.ids| - pos, more
    {
      out, ok, more, cursor, pos := RotatePage(repo, svc, limit, cursor, out, before, pos);
    }
    SweptAtEnd(svc, before, repo.records, repo.ids, pos);
    AllListed(svc, before, repo.ids);
  }

  lemma NoneListed(svc: Service, records: map<Identity, Record>, ids: seq<Identity>)
    requires forall id | id in ids :: id in records
    ensures Currents(svc, Listed(records, ids, 0)) == 0
  {
  }

  lemma AllListed(svc: Service, records: map<Identity, Record>, ids: seq<Identity>)
    requires Consistent(records, ids)
    ensures |ids| == |records|
    ensures Currents(svc, Listed(records, ids, |ids|)) == |set id | id in records && OnCurrent(svc, records[id])|
  {
    hide OnCurrent, Currents;
    SortedIsDistinct(records, ids);
    CurrentsIsSize(svc, records, ids, |ids|);
    assert ids[..|ids|] == ids;
    assert (set id | id in ids[..|ids|] && OnCurrent(svc, records[id]))
        == set id | id in records && OnCurrent(svc, records[id]);
    SizeOf(ids);
    assert records.Keys == set id | id in ids;
    assert |records| == |records.Keys|;
  }

  lemma SortedIsDistinct(records: map<Identity, Record>, ids: seq<Identity>)
    requires Consistent(records, ids)
    ensures forall i, j | 0 <= i < j < |ids| :: ids[i] != ids[j]
  {
    IdentityOrder();
    hide IdentityLess;
  }

  lemma {:induction false} SizeOf(ids: seq<Identity>)
    requires forall i, j | 0 <= i < j < |ids| :: ids[i] != ids[j]
    ensures |set id | id in ids| == |ids|
  {
    if ids != [] {
      var rest := ids[..|ids| - 1];
      SizeOf(rest);
      assert ids == rest + [ids[|ids| - 1]];
      assert (set id | id in ids) == (set id | id in rest) + {ids[|ids| - 1]};
    }
  }

  /** One turn of the page loop. */
  method RotatePage(repo: MemoryRepo, svc: Service, limit: nat, after: Identity, sofar: Rotation,
                    ghost before: map<Identity, Record>, ghost pos: nat)
    returns (out: Rotation, ok: bool, more: bool, cursor: Identity, ghost next: nat)
    requires repo.Valid() && Configured(svc) && START !in repo.ids && limit > 0
    requires pos <= |repo.ids| && Swept(svc, before, repo.records, repo.ids, pos)
    requires after == if pos == 0 then START else repo.ids[pos - 1]
    modifies repo
    ensures repo.Valid() && repo.ids == old(repo.ids)
    ensures pos <= next <= |repo.ids| && Swept(svc, before, repo.records, repo.ids, next)
    ensures more ==> ok && pos < next
    ensures ok ==> cursor == if next == 0 then START else repo.ids[next - 1]
    ensures ok && !more ==> next == |repo.ids|
    ensures !ok ==> exists id | id in before :: !Openable(svc, before[id])
    ensures forall id | id in repo.ids :: id in before
    ensures out.skipped == sofar.skipped
    ensures out.alreadyCurrent - sofar.alreadyCurrent ==
            Currents(svc, Listed(before, repo.ids, next)) - Currents(svc, Listed(before, repo.ids, pos))
    ensures out.rewrapped + out.alreadyCurrent == sofar.rewrapped + sofar.alreadyCurrent + next - pos
    ensures out.scanned == sofar.scanned + next - pos + if ok then 0 else 1
  {
    hide Consistent, StrictOrder, Sorted, IdentityLess, IsPage, IsSlice, Identities, Keys;
    hide SamePayload, Openable, OnCurrent, Rotated, Swept, AADOf, Open, Currents;
    SweptListed(svc, before, repo.records, repo.ids, pos);
    out, ok, more, cursor, next := sofar, true, false, after, pos;
    ghost var mid := repo.records;
    var page, first := repo.ListPage(after.subject, after.provider, limit);
    PageStarts(repo.records, repo.ids, after, limit, page, pos, first);
    if |page| == 0 {
      return;
    }
    ghost var done;
    out, ok, done := RotateRecords(repo, svc, page, sofar);
    SweptNext(svc, before, mid, repo.records, repo.ids, pos, page, done);
    ListedNext(svc, before, mid, repo.ids, pos, page, done);
    next := pos + done;
    if !ok {
      return;
    }
    cursor := page[|page| - 1].identity;
    more := |page| == limit;
  }

  lemma SweptAtStart(svc: Service, records: map<Identity, Record>, ids: seq<Identity>)
    requires forall id :: id in ids <==> id in records
    ensures Swept(svc, records, records, ids, 0)
  {
  }

  lemma SweptAtEnd(svc: Service, before: map<Identity, Record>, after: map<Identity, Record>, ids: seq<Identity>,
                   pos: nat)
    requires Swept(svc, before, after, ids, pos) && forall id :: id in ids <==> id in after
    ensures after.Keys == before.Keys && forall id | id in after :: SamePayload(before[id], after[id])
    ensures pos == |ids| ==> forall id | id in before :: Openable(svc, before[id]) && OnCurrent(svc, after[id])
  {
    hide Openable, OnCurrent;
    forall id | id in before && pos == |ids|
      ensures Openable(svc, before[id]) && OnCurrent(svc, after[id])
    {
      assert id in ids;
    }
  }

  lemma SweptNext(svc: Service, before: map<Identity, Record>, mid: map<Identity, Record>, after: map<Identity, Record>,
                  ids: seq<Identity>, pos: nat, page: seq<Record>, done: nat)
    requires Swept(svc, before, mid, ids, pos) && done <= |page| && pos + |page| <= |ids|
    requires forall i, j | 0 <= i < j < |ids| :: ids[i] != ids[j]
    requires forall i | 0 <= i < |page| :: page[i].identity == ids[pos + i] && page[i] == mid[ids[pos + i]]
    requires Rotated(svc, mid, after, page, done) && forall i | 0 <= i < done :: Openable(svc, page[i])
    ensures Swept(svc, before, after, ids, pos + done)
    ensures done < |page| && !Openable(svc, page[done]) ==> exists id | id in before :: !Openable(svc, before[id])
  {
    hide Openable, OnCurrent;
    forall j | 0 <= j < |ids|
      ensures if pos <= j < pos + done then Openable(svc, before[ids[j]]) && OnCurrent(svc, after[ids[j]])
              else after[ids[j]] == mid[ids[j]]
    {
      if pos <= j < pos + done {
        assert page[j - pos].identity == ids[j];
      }
    }
  }

  lemma SweptListed(svc: Service, before: map<Identity, Record>, mid: map<Identity, Record>, ids: seq<Identity>,
                    pos: nat)
    requires Swept(svc, before, mid, ids, pos)
    ensures forall id | id in ids :: id in before
  {
  }

  /** A page holds the next records of the index, as they were before the rotation. */
  lemma ListedNext(svc: Service, before: map<Identity, Record>, mid: map<Identity, Record>, ids: seq<Identity>,
                   pos: nat,
                   page: seq<Record>, done: nat)
    requires Swept(svc, before, mid, ids, pos) && done <= |page| && pos + |page| <= |ids|
    requires forall id | id in ids :: id in before
    requires forall i | 0 <= i < |page| :: page[i].identity == ids[pos + i] && page[i] == mid[ids[pos + i]]
    ensures Currents(svc, Listed(before, ids, pos + done)) ==
            Currents(svc, Listed(before, ids, pos)) + Currents(svc, page[..done])
  {
    hide OnCurrent, Openable, Currents, SamePayload;
    assert Listed(before, ids, pos + done) == Listed(before, ids, pos) + page[..done];
    CurrentsAdd(svc, Listed(before, ids, pos), page[..done]);
  }

  /** The page after the cursor starts where the rotation has got to. */
  lemma PageStarts(records: map<Identity, Record>, ids: seq<Identity>, cursor: Identity, limit: nat,
                   page: seq<Record>, pos: nat, first: nat)
    requires Consistent(records, ids) && START !in ids && pos <= |ids|
    requires cursor == if pos == 0 then START else ids[pos - 1]
    requires forall i | 0 <= i < |page| :: page[i].identity in records && page[i] == records[page[i].identity]
    requires IsSlice(IdentityLess, ids, START, cursor, limit, Identities(page), first)
    ensures first == pos && |page| == (if pos + limit > |ids| then |ids| - pos else limit)
    ensures forall i | 0 <= i < |page| ::
              page[i].identity == ids[pos + i] && ids[pos + i] in records && page[i] == records[ids[pos + i]]
    ensures forall i, j | 0 <= i < j < |ids| :: ids[i] != ids[j]
    ensures forall i, j | 0 <= i < j < |page| :: page[i].identity != page[j].identity
  {
    IdentityOrder();
    assert pos > 0 ==> !After(IdentityLess, START, cursor, ids[pos - 1]);
    assert pos < |ids| ==> After(IdentityLess, START, cursor, ids[pos]);
    assert forall i | 0 <= i < |page| :: page[i].identity == Identities(page)[i];
    assert first == pos;
    hide IdentityLess, After;
  }

  /** After a successful rotation every secret reads as before, with the current key alone. */
  lemma CurrentKeySuffices(svc: Service, before: Record, after: Record)
    requires Configured(svc) && SamePayload(before, after) && OnCurrent(svc, after)
    requires before.cipher.key == before.wrapped.plain && before.cipher.aad == AADOf(before)
    ensures Reveal(Service(svc.current, map[svc.current := svc.keys[svc.current]]), after) == Some(before.cipher.plain)
  {
  }
}
