/**
 The vault service (vault/service.go, vault/rotate.go) beside other callers and other processes: every
 repository call is one atomic step, a thread's program counter holds what the source keeps in local
 variables, and any call may report an error without effect.

 Services may disagree about which key is current and which keys they hold; nothing below needs them
 to agree.
 */
module Vault {
  import opened Options
  import opened Ordered
  import opened Envelope
  import opened VaultRepo
  import opened VaultRotate

  const MAX_FIELD := 1024
  const PAGE_SIZE := 200

  predicate ValidIdentity(id: Identity) {
    id.subject != [] && id.provider != [] && |id.subject| <= MAX_FIELD && |id.provider| <= MAX_FIELD
  }

  datatype Answer =
    | Stored
    | Handed(id: Identity, secret: Text)
    | Missing(id: Identity)
    | Erased
    | Completed(svc: Service, out: Rotation)
    | Stopped(svc: Service, out: Rotation, inRecord: bool)
    | Refused

  datatype Pc =
    | Enrolling(svc: Service, id: Identity, secret: Text)
    | Dating(secret: Text, rec: Record)
    | Storing(secret: Text, rec: Record)
    | Reading(svc: Service, id: Identity)
    | Opening(svc: Service, id: Identity, rec: Record)
    | Deleting(id: Identity)
    | Paging(svc: Service, cursor: Identity, out: Rotation)
    | Rewrapping(svc: Service, todo: seq<Record>, last: Option<Identity>, out: Rotation)
    | Swapping(svc: Service, rec: Record, wrapped: Sealed<nat>, updated: int, todo: seq<Record>,
               last: Option<Identity>, out: Rotation)
    | Done(answer: Answer)

  type Records = map<Identity, Record>

  datatype State = State(records: Records, threads: map<nat, Pc>)

  datatype Effect =
    | Nothing
    | Write(rec: Record)
    | Erase(id: Identity)
    | EraseSubject(subject: Text)
    | Rewrap(id: Identity, held: Sealed<nat>, kek: Text, wrapped: Sealed<nat>, updated: int)

  function Perform(records: Records, eff: Effect): Records {
    match eff
    case Nothing => records
    case Write(rec) => records[rec.identity := rec]
    case Erase(id) => records - {id}
    case EraseSubject(subject) => OtherSubjects(records, subject)
    case Rewrap(id, held, kek, wrapped, updated) =>
      if id in records && records[id].wrapped == held
      then records[id := records[id].(wrapped := wrapped, kek := kek, updated := updated)] else records
  }

  /**
   Whether the step's call succeeds, whether the audit entry that follows it is written, the randomness
   it draws, the clock, and the page it is given.
   */
  datatype Draw = Draw(ok: bool, audited: bool, dek: nat, n: nat, m: nat, now: int, page: seq<Record>)

  datatype Move = Move(pc: Pc, eff: Effect)

  function NextRecord(svc: Service, todo: seq<Record>, last: Option<Identity>, out: Rotation, d: Draw): Pc
    requires Configured(svc) && todo != []
  {
    var rec := todo[0];
    if !Openable(svc, rec) then Done(Stopped(svc, Count(out, Failed), true))
    else if rec.kek == svc.current then Rewrapping(svc, todo[1..], last, Count(out, AlreadyCurrent))
    else Swapping(svc, rec, Sealed(svc.keys[svc.current], d.n, rec.wrapped.plain, AADOf(rec)), d.now,
                  todo[1..], last, out)
  }

  /** A rotation that has passed every page reports its counts, or the failure to audit them. */
  function Ended(svc: Service, out: Rotation, d: Draw): Pc {
    Done(if d.audited then Completed(svc, out) else Stopped(svc, out, false))
  }

  function Act(records: Records, pc: Pc, d: Draw): Move {
    match pc
    case Enrolling(svc, id, secret) =>
      Move(if d.ok && Configured(svc) && ValidIdentity(id) then Dating(secret, VaultEnvelope(svc, id, secret, d))
           else Done(Refused), Nothing)
    case Dating(secret, rec) =>
      // A failed read leaves this write's own timestamp.
      var known := d.ok && rec.identity in records;
      Move(Storing(secret, if known then rec.(created := records[rec.identity].created) else rec), Nothing)
    case Storing(secret, rec) => if d.ok then Move(Done(Stored), Write(rec)) else Move(Done(Refused), Nothing)
    case Reading(svc, id) =>
      Move(if !d.ok || !ValidIdentity(id) then Done(Refused)
           else if id in records then Opening(svc, id, records[id])
           else Done(Missing(id)), Nothing)
    case Opening(svc, id, rec) =>
      var secret := Reveal(svc, rec);
      Move(if d.ok && secret.Some? then Done(Handed(id, secret.value)) else Done(Refused), Nothing)
    case Deleting(id) =>
      // The audit entry comes after the delete: without it the caller is told of an error, the record gone.
      if d.ok && ValidIdentity(id) then Move(Done(if d.audited then Erased else Refused), Erase(id))
      else Move(Done(Refused), Nothing)
    case Paging(svc, cursor, out) =>
      Move(if !d.ok then Done(Stopped(svc, out, false))
           else if d.page == [] then Ended(svc, out, d)
           else Rewrapping(svc, d.page,
                           if |d.page| < PAGE_SIZE then None else Some(d.page[|d.page| - 1].identity), out),
           Nothing)
    case Rewrapping(svc, todo, last, out) =>
      Move(if todo != [] && Configured(svc) then NextRecord(svc, todo, last, out, d)
           else if last.None? then Ended(svc, out, d) else Paging(svc, last.value, out), Nothing)
    case Swapping(svc, rec, wrapped, updated, todo, last, out) =>
      if !d.ok then Move(Done(Stopped(svc, Count(out, Failed), true)), Nothing)
      else
        var applied := rec.identity in records && records[rec.identity].wrapped == rec.wrapped;
        Move(Rewrapping(svc, todo, last, Count(out, if applied then Rewrapped else Skipped)),
             Rewrap(rec.identity, rec.wrapped, svc.current, wrapped, updated))
    case Done(_) => Move(pc, Nothing)
  }

  function VaultEnvelope(svc: Service, id: Identity, secret: Text, d: Draw): Record
    requires Configured(svc)
  {
    Enrolled(svc, id, secret, d.dek, d.n, d.m, d.now)
  }

  datatype Event = Step(t: nat, draw: Draw) | Submit(t: nat, pc: Pc) | Erasure(subject: Text)

  predicate Arrives(pc: Pc) {
    match pc
    case Enrolling(svc, _, _) => Configured(svc)
    case Reading(svc, _) => Configured(svc)
    case Deleting(_) => true
    case Paging(svc, cursor, out) => Configured(svc) && cursor == START && out == Rotation(0, 0, 0, 0)
    case _ => false
  }

  /** The repository's page after the cursor, as ListPage promises it. */
  ghost predicate PageRead(records: Records, cursor: Identity, page: seq<Record>) {
    && (forall i | 0 <= i < |page| :: page[i].identity in records && page[i] == records[page[i].identity])
    && IsPage(IdentityLess, records.Keys, START, cursor, PAGE_SIZE, Identities(page))
  }

  ghost predicate Enabled(s: State, e: Event) {
    match e
    case Step(t, d) => t in s.threads && (s.threads[t].Paging? ==> PageRead(s.records, s.threads[t].cursor, d.page))
    case Submit(t, pc) => t !in s.threads && Arrives(pc)
    case Erasure(subject) => subject != []
  }

  function Do(s: State, e: Event): State
    requires e.Step? ==> e.t in s.threads
  {
    match e
    case Step(t, d) => var m := Act(s.records, s.threads[t], d); State(Perform(s.records, m.eff), s.threads[t := m.pc])
    case Submit(t, pc) => s.(threads := s.threads[t := pc])
    case Erasure(subject) => s.(records := Perform(s.records, EraseSubject(subject)))
  }

  ghost predicate IsRun(ss: seq<State>, es: seq<Event>) {
    && |ss| == |es| + 1
    && ss[0] == State(map[], map[])
    && forall i | 0 <= i < |es| :: Enabled(ss[i], es[i]) && ss[i + 1] == Do(ss[i], es[i])
  }

  // ---------------------------------------------------------------- the invariant

  /** Stored under its own identity, bound to it, the payload under the data key its envelope wraps. */
  predicate RecordOK(id: Identity, rec: Record) {
    && rec.identity == id && ValidIdentity(id)
    && rec.cipher.key == rec.wrapped.plain
    && rec.wrapped.aad == AADOf(rec) && rec.cipher.aad == AADOf(rec)
  }

  predicate PcOK(pc: Pc) {
    match pc
    case Enrolling(svc, _, _) => Configured(svc)
    case Dating(secret, rec) => RecordOK(rec.identity, rec) && rec.cipher.plain == secret
    case Storing(secret, rec) => RecordOK(rec.identity, rec) && rec.cipher.plain == secret
    case Opening(svc, id, rec) => RecordOK(id, rec)
    case Paging(svc, _, _) => Configured(svc)
    case Rewrapping(svc, todo, _, _) => Configured(svc) && forall rec | rec in todo :: RecordOK(rec.identity, rec)
    case Swapping(svc, rec, wrapped, _, todo, _, _) =>
      && Configured(svc) && (forall r | r in todo :: RecordOK(r.identity, r)) && RecordOK(rec.identity, rec)
      && wrapped.key == svc.keys[svc.current] && wrapped.plain == rec.wrapped.plain && wrapped.aad == AADOf(rec)
    case _ => true
  }

  ghost predicate RecordsOK(records: Records) {
    forall id | id in records :: RecordOK(id, records[id])
  }

  ghost predicate Invariant(s: State) {
    RecordsOK(s.records) && forall t | t in s.threads :: PcOK(s.threads[t])
  }

  ghost predicate EffectOK(eff: Effect) {
    match eff
    case Write(rec) => RecordOK(rec.identity, rec)
    case Rewrap(_, held, _, wrapped, _) => wrapped.plain == held.plain && wrapped.aad == held.aad
    case _ => true
  }

  lemma ActOK(records: Records, pc: Pc, d: Draw)
    requires RecordsOK(records) && PcOK(pc) && (pc.Paging? ==> PageRead(records, pc.cursor, d.page))
    ensures PcOK(Act(records, pc, d).pc) && EffectOK(Act(records, pc, d).eff)
  {
    hide BindingAAD, IsPage, ValidIdentity, Identities;
  }

  lemma PerformOK(records: Records, eff: Effect)
    requires RecordsOK(records) && EffectOK(eff)
    ensures RecordsOK(Perform(records, eff))
  {
    hide BindingAAD, ValidIdentity;
  }

  lemma DoKeepsInvariant(s: State, e: Event)
    requires Invariant(s) && Enabled(s, e)
    ensures Invariant(Do(s, e))
  {
    hide Act, Perform, PcOK, RecordOK, PageRead, RecordsOK;
    match e
    case Step(t, d) =>
      ActOK(s.records, s.threads[t], d);
      PerformOK(s.records, Act(s.records, s.threads[t], d).eff);
    case Submit(t, pc) => ArrivesOK(pc);
    case Erasure(subject) => PerformOK(s.records, EraseSubject(subject));
  }

  lemma ArrivesOK(pc: Pc)
    requires Arrives(pc)
    ensures PcOK(pc)
  {
  }

  lemma {:induction false} RunKeepsInvariant(ss: seq<State>, es: seq<Event>, i: nat)
    requires IsRun(ss, es) && i < |ss|
    ensures Invariant(ss[i])
  {
    if i > 0 {
      RunKeepsInvariant(ss, es, i - 1);
      hide Invariant, Do, Enabled;
      DoKeepsInvariant(ss[i - 1], es[i - 1]);
    }
  }

  // ---------------------------------------------------------------- refinement

  /** The secrets the table stands for. */
  function Secrets(records: Records): map<Identity, Text> {
    map id | id in records :: records[id].cipher.plain
  }

  /** The plain map from identity to secret, written by enrolments and emptied by revocations only. */
  ghost function Spec(ss: seq<State>, es: seq<Event>, i: nat): map<Identity, Text>
    requires IsRun(ss, es) && i < |ss|
  {
    if i == 0 then map[] else SpecAfter(Spec(ss, es, i - 1), ss[i - 1], es[i - 1])
  }

  function SpecAfter(m: map<Identity, Text>, s: State, e: Event): map<Identity, Text>
    requires e.Step? ==> e.t in s.threads
  {
    match e
    case Step(t, d) =>
      (match s.threads[t]
       case Storing(secret, rec) => if d.ok then m[rec.identity := secret] else m
       case Deleting(id) => if d.ok && ValidIdentity(id) then m - {id} else m
       case _ => m)
    case Erasure(subject) => map id | id in m && id.subject != subject :: m[id]
    case Submit(_, _) => m
  }

  lemma StepRefines(s: State, e: Event)
    requires Invariant(s) && Enabled(s, e)
    ensures Secrets(Do(s, e).records) == SpecAfter(Secrets(s.records), s, e)
  {
    hide BindingAAD, ValidIdentity, NextRecord, IsPage;
  }

  /** At every moment of every run the table stands for the plain map: no re-wrap changes a secret. */
  lemma {:induction false} VaultRefinesMap(ss: seq<State>, es: seq<Event>, i: nat)
    requires IsRun(ss, es) && i < |ss|
    ensures Secrets(ss[i].records) == Spec(ss, es, i)
  {
    if i > 0 {
      VaultRefinesMap(ss, es, i - 1);
      RunKeepsInvariant(ss, es, i - 1);
      hide Invariant, Enabled, SpecAfter;
      StepRefines(ss[i - 1], es[i - 1]);
    }
  }

  /** The secret a Use will hand over, or has handed over, was the last enrolled when it read the row. */
  ghost predicate ReadAt(ss: seq<State>, es: seq<Event>, t: nat, i: nat, id: Identity)
    requires IsRun(ss, es) && i < |es|
  {
    es[i].Step? && es[i].t == t && t in ss[i].threads && ss[i].threads[t].Reading? && ss[i].threads[t].id == id
  }

  predicate Holds(m: map<Identity, Text>, id: Identity, secret: Text) {
    id in m && m[id] == secret
  }

  ghost predicate UseOK(ss: seq<State>, es: seq<Event>, k: nat, t: nat, pc: Pc)
    requires IsRun(ss, es) && k < |ss|
  {
    match pc
    case Opening(svc, id, rec) => exists i | 0 <= i < k ::
        ReadAt(ss, es, t, i, id) && Holds(Spec(ss, es, i), id, rec.cipher.plain)
    case Done(Handed(id, secret)) => exists i | 0 <= i < k ::
        ReadAt(ss, es, t, i, id) && Holds(Spec(ss, es, i), id, secret)
    case Done(Missing(id)) => exists i | 0 <= i < k :: ReadAt(ss, es, t, i, id) && id !in Spec(ss, es, i)
    case _ => true
  }

  /**
   A Use that succeeds hands over exactly the last enrolled, unrevoked secret, as of the read it made;
   one that reports a missing credential read when there was none.
   */
  lemma {:induction false} UseIsExact(ss: seq<State>, es: seq<Event>, k: nat, t: nat)
    requires IsRun(ss, es) && k < |ss| && t in ss[k].threads
    ensures UseOK(ss, es, k, t, ss[k].threads[t])
  {
    if k > 0 {
      var s, e := ss[k - 1], es[k - 1];
      assert Enabled(s, e) && ss[k] == Do(s, e);
      RunKeepsInvariant(ss, es, k - 1);
      VaultRefinesMap(ss, es, k - 1);
      if t in s.threads {
        UseIsExact(ss, es, k - 1, t);
      }
      if e.Step? && e.t == t {
        UseStep(ss, es, k, t);
      }
    }
  }

  lemma UseStep(ss: seq<State>, es: seq<Event>, k: nat, t: nat)
    requires IsRun(ss, es) && 0 < k < |ss| && es[k - 1].Step? && es[k - 1].t == t && t in ss[k - 1].threads
    requires t in ss[k].threads
    requires Invariant(ss[k - 1]) && Secrets(ss[k - 1].records) == Spec(ss, es, k - 1)
    requires UseOK(ss, es, k - 1, t, ss[k - 1].threads[t])
    ensures UseOK(ss, es, k, t, ss[k].threads[t])
  {
    var s, e := ss[k - 1], es[k - 1];
    assert ss[k] == Do(s, e);
    var pc := s.threads[t];
    assert PcOK(pc);
    match pc
    case Reading(svc, id) => assert ReadAt(ss, es, t, k - 1, id);
    case Opening(svc, id, rec) =>
    case _ =>
  }

  /** A Use that read a row opens it exactly when its service holds the key that wrapped it. */
  lemma OpensExactlyWithTheKey(s: State, t: nat, d: Draw)
    requires Invariant(s) && t in s.threads && s.threads[t].Opening? && d.ok
    ensures var pc := s.threads[t];
            Act(s.records, pc, d).pc == if Openable(pc.svc, pc.rec) then Done(Handed(pc.id, pc.rec.cipher.plain))
              else Done(Refused)
  {
  }

  // ---------------------------------------------------------------- rotation beside other callers

  ghost predicate Counted(pc: Pc) {
    match pc
    case Paging(_, _, out) => out.scanned == Accounted(out)
    case Rewrapping(_, _, _, out) => out.scanned == Accounted(out)
    case Swapping(_, _, _, _, _, _, out) => out.scanned == Accounted(out)
    case Done(Completed(_, out)) => out.scanned == Accounted(out)
    case Done(Stopped(_, out, inRecord)) => out.scanned == Accounted(out) + if inRecord then 1 else 0
    case _ => true
  }

  /** The counts of a rotation add up unless it stopped at a record, which then is scanned and not accounted for. */
  lemma {:induction false} CountsAddUp(ss: seq<State>, es: seq<Event>, k: nat, t: nat)
    requires IsRun(ss, es) && k < |ss| && t in ss[k].threads
    ensures Counted(ss[k].threads[t])
  {
    if k > 0 {
      assert Enabled(ss[k - 1], es[k - 1]) && ss[k] == Do(ss[k - 1], es[k - 1]);
      if t in ss[k - 1].threads {
        CountsAddUp(ss, es, k - 1, t);
      }
    }
  }

  /** The record is on the rotation's current key, or the rotation has yet to reach it. */
  ghost predicate Reached(svc: Service, records: Records, id: Identity, pc: Pc) {
    id in records ==>
      || OnCurrent(svc, records[id])
      || (match pc
          case Paging(_, cursor, _) => After(IdentityLess, START, cursor, id)
          case Rewrapping(_, todo, last, _) =>
            records[id] in todo || (last.Some? && After(IdentityLess, START, last.value, id))
          case Swapping(_, rec, _, _, todo, last, _) =>
            rec == records[id] || records[id] in todo || (last.Some? && After(IdentityLess, START, last.value, id))
          case Done(answer) => !answer.Completed?
          case _ => false)
  }

  /** The thread is a rotation to that service's current key. */
  predicate Rotates(svc: Service, pc: Pc) {
    match pc
    case Paging(v, _, _) => v == svc
    case Rewrapping(v, _, _, _) => v == svc
    case Swapping(v, _, _, _, _, _, _) => v == svc
    case Done(Completed(v, _)) => v == svc
    case Done(Stopped(v, _, _)) => v == svc
    case _ => false
  }

  lemma PagingReaches(svc: Service, records: Records, id: Identity, pc: Pc, d: Draw)
    requires pc.Paging? && Rotates(svc, pc) && PageRead(records, pc.cursor, d.page) && Reached(svc, records, id, pc)
    ensures Reached(svc, records, id, Act(records, pc, d).pc)
  {
    if id in records && d.page != [] && id in Identities(d.page) {
      var i :| 0 <= i < |d.page| && Identities(d.page)[i] == id;
      assert d.page[i] == records[id];
    }
  }

  lemma RewrappingReaches(svc: Service, records: Records, id: Identity, pc: Pc, d: Draw)
    requires pc.Rewrapping? && Rotates(svc, pc) && PcOK(pc) && Reached(svc, records, id, pc)
    ensures Reached(svc, records, id, Act(records, pc, d).pc)
  {
    hide IdentityLess, After, BindingAAD, ValidIdentity;
  }

  lemma SwappingReaches(svc: Service, records: Records, id: Identity, pc: Pc, d: Draw)
    requires pc.Swapping? && Rotates(svc, pc) && PcOK(pc) && RecordsOK(records) && Reached(svc, records, id, pc)
    ensures var m := Act(records, pc, d); Reached(svc, Perform(records, m.eff), id, m.pc)
  {
    hide IdentityLess, After, BindingAAD, ValidIdentity;
  }

  /** Somebody else's step leaves the row alone, removes it, or writes it under the rotation's current key. */
  ghost predicate Harmless(svc: Service, before: Records, after: Records, id: Identity) {
    id in after ==> (id in before && after[id] == before[id]) || OnCurrent(svc, after[id])
  }

  lemma {:induction false} RotationReaches(ss: seq<State>, es: seq<Event>, i: nat, k: nat, r: nat, svc: Service,
                                           id: Identity)
    requires IsRun(ss, es) && i <= k < |ss|
    requires r in ss[i].threads && ss[i].threads[r] == Paging(svc, START, Rotation(0, 0, 0, 0))
    requires forall j | i <= j < k && !(es[j].Step? && es[j].t == r) ::
               Harmless(svc, ss[j].records, ss[j + 1].records, id)
    ensures r in ss[k].threads && Rotates(svc, ss[k].threads[r]) && Reached(svc, ss[k].records, id, ss[k].threads[r])
  {
    hide IsRun, PcOK, RecordsOK, Perform, PageRead, Harmless, Act;
    if i < k {
      RotationReaches(ss, es, i, k - 1, r, svc, id);
      hide Reached;
      RunStep(ss, es, k - 1);
      if es[k - 1].Step? && es[k - 1].t == r {
        StepReaches(svc, ss[k - 1].records, id, ss[k - 1].threads[r], es[k - 1].draw);
      } else {
        OthersReach(svc, ss[k - 1].records, ss[k].records, id, ss[k - 1].threads[r]);
      }
    }
  }

  lemma RunStep(ss: seq<State>, es: seq<Event>, k: nat)
    requires IsRun(ss, es) && k + 1 < |ss|
    ensures k < |es| && Enabled(ss[k], es[k]) && ss[k + 1] == Do(ss[k], es[k]) && Invariant(ss[k])
  {
    RunKeepsInvariant(ss, es, k);
    hide Enabled, Do, Invariant;
  }

  lemma OthersReach(svc: Service, before: Records, after: Records, id: Identity, pc: Pc)
    requires Harmless(svc, before, after, id) && Reached(svc, before, id, pc)
    ensures Reached(svc, after, id, pc)
  {
    hide OnCurrent, IdentityLess, After;
  }

  lemma StepReaches(svc: Service, records: Records, id: Identity, pc: Pc, d: Draw)
    requires Rotates(svc, pc) && PcOK(pc) && RecordsOK(records) && Reached(svc, records, id, pc)
    requires pc.Paging? ==> PageRead(records, pc.cursor, d.page)
    ensures var m := Act(records, pc, d); Rotates(svc, m.pc) && Reached(svc, Perform(records, m.eff), id, m.pc)
  {
    hide PageRead, PcOK, RecordsOK, Reached;
    match pc
    case Paging(_, _, _) => PagingReaches(svc, records, id, pc, d);
    case Rewrapping(_, _, _, _) => RewrappingReaches(svc, records, id, pc, d);
    case Swapping(_, _, _, _, _, _, _) => SwappingReaches(svc, records, id, pc, d);
    case _ =>
  }

  /**
   When a rotation completes, every row is on its current key that nobody else rewrote under another
   key meanwhile: the page walk misses nothing, whatever is enrolled, revoked or erased beside it.
   */
  lemma RotationCompletes(ss: seq<State>, es: seq<Event>, i: nat, k: nat, r: nat, svc: Service, id: Identity)
    requires IsRun(ss, es) && i <= k < |ss|
    requires r in ss[i].threads && ss[i].threads[r] == Paging(svc, START, Rotation(0, 0, 0, 0))
    requires forall j | i <= j < k && !(es[j].Step? && es[j].t == r) ::
               Harmless(svc, ss[j].records, ss[j + 1].records, id)
    requires r in ss[k].threads && ss[k].threads[r].Done? && ss[k].threads[r].answer.Completed? && id in ss[k].records
    ensures OnCurrent(svc, ss[k].records[id])
  {
    RotationReaches(ss, es, i, k, r, svc, id);
  }
}
