/**
 What each vault request does, over every run: what an enrolment stores, what a revocation removes, and
 which of its own steps each count of a rotation stands for.
 */
module VaultRequests {
  import opened Options
  import opened Ordered
  import opened Envelope
  import opened VaultRepo
  import opened VaultRotate
  import opened Vault

  ghost predicate StepsAt(ss: seq<State>, es: seq<Event>, i: nat, t: nat) {
    i < |es| < |ss| && i + 1 < |ss| && es[i].Step? && es[i].t == t && t in ss[i].threads
  }

  lemma StepOf(ss: seq<State>, es: seq<Event>, i: nat)
    requires IsRun(ss, es) && i < |es|
    ensures |ss| == |es| + 1 && Enabled(ss[i], es[i]) && ss[i + 1] == Do(ss[i], es[i])
  {
  }

  lemma RunStarts(ss: seq<State>, es: seq<Event>)
    requires IsRun(ss, es)
    ensures |ss| == |es| + 1 && ss[0].threads == map[]
  {
  }

  // ---------------------------------------------------------------- enrolment

  /** The record is the secret sealed for the identity under the service's current key. */
  predicate SealedFor(svc: Service, id: Identity, secret: Text, rec: Record) {
    && rec.identity == id && OnCurrent(svc, rec) && Reveal(svc, rec) == Some(secret)
  }

  /** Where an enrolment has got to with what it was given. */
  predicate Enrols(pc: Pc, svc: Service, id: Identity, secret: Text) {
    match pc
    case Enrolling(v, i, s) => v == svc && i == id && s == secret
    case Dating(_, rec) => SealedFor(svc, id, secret, rec)
    case Storing(_, rec) => SealedFor(svc, id, secret, rec)
    case Done(answer) => answer == Stored || answer == Refused
    case _ => false
  }

  lemma ActEnrols(records: Records, pc: Pc, d: Draw, svc: Service, id: Identity, secret: Text)
    requires Enrols(pc, svc, id, secret)
    ensures Enrols(Act(records, pc, d).pc, svc, id, secret)
  {
  }

  lemma {:induction false} EnrolmentCarries(ss: seq<State>, es: seq<Event>, i: nat, k: nat, t: nat)
    requires IsRun(ss, es) && i <= k < |ss| && t in ss[i].threads && ss[i].threads[t].Enrolling?
    ensures var pc := ss[i].threads[t]; t in ss[k].threads && Enrols(ss[k].threads[t], pc.svc, pc.id, pc.secret)
  {
    hide IsRun, Act, Perform, SealedFor, PageRead;
    if i < k {
      RunStarts(ss, es);
      StepOf(ss, es, k - 1);
      EnrolmentCarries(ss, es, i, k - 1, t);
      var pc, s, e := ss[i].threads[t], ss[k - 1], es[k - 1];
      if e.Step? && e.t == t {
        ActEnrols(s.records, s.threads[t], e.draw, pc.svc, pc.id, pc.secret);
      }
    }
  }

  /** At step `y` the enrolment writes its record and nothing else. */
  ghost predicate WritesAt(ss: seq<State>, es: seq<Event>, y: nat, t: nat, svc: Service, id: Identity, secret: Text) {
    && StepsAt(ss, es, y, t) && id in ss[y + 1].records && SealedFor(svc, id, secret, ss[y + 1].records[id])
    && ss[y + 1].records == ss[y].records[id := ss[y + 1].records[id]]
  }

  /** An enrolment that answers has stored the secret it was given, for the identity it was given. */
  lemma {:induction false} StoredMeansWritten(ss: seq<State>, es: seq<Event>, i: nat, k: nat, t: nat)
    requires IsRun(ss, es) && i <= k < |ss| && t in ss[i].threads && ss[i].threads[t].Enrolling?
    requires t in ss[k].threads && ss[k].threads[t] == Done(Stored)
    ensures var pc := ss[i].threads[t]; exists y | i < y < k :: WritesAt(ss, es, y, t, pc.svc, pc.id, pc.secret)
  {
    hide IsRun, OnCurrent, Reveal, PageRead;
    if i < k {
      RunStarts(ss, es);
      StepOf(ss, es, k - 1);
      EnrolmentCarries(ss, es, i, k - 1, t);
      var pc, s, e := ss[i].threads[t], ss[k - 1], es[k - 1];
      if s.threads[t] == Done(Stored) {
        StoredMeansWritten(ss, es, i, k - 1, t);
      } else {
        assert WritesAt(ss, es, k - 1, t, pc.svc, pc.id, pc.secret);
      }
    }
  }

  /** It carries the creation time of the record it replaces, as far as it could read it. */
  lemma CreationIsKept(ss: seq<State>, es: seq<Event>, i: nat, t: nat)
    requires IsRun(ss, es) && StepsAt(ss, es, i, t) && ss[i].threads[t].Dating?
    ensures var pc, n := ss[i].threads[t], ss[i + 1].threads[t];
            && n.Storing? && ss[i + 1].records == ss[i].records && n.rec == pc.rec.(created := n.rec.created)
            && n.rec.created == if es[i].draw.ok && pc.rec.identity in ss[i].records
                                then ss[i].records[pc.rec.identity].created else pc.rec.created
  {
    StepOf(ss, es, i);
  }

  /** Both fields are set and neither is longer than 1024 bytes. */
  predicate Named(id: Identity) {
    0 < |id.subject| <= 1024 && 0 < |id.provider| <= 1024
  }

  /** An enrolment goes on exactly with a proper identity. */
  lemma EnrolmentIsJudged(ss: seq<State>, es: seq<Event>, i: nat, t: nat)
    requires IsRun(ss, es) && StepsAt(ss, es, i, t) && ss[i].threads[t].Enrolling? && es[i].draw.ok
    ensures ss[i + 1].records == ss[i].records
    ensures if Named(ss[i].threads[t].id) then ss[i + 1].threads[t].Dating? else ss[i + 1].threads[t] == Done(Refused)
  {
    StepOf(ss, es, i);
    RunKeepsInvariant(ss, es, i);
    assert PcOK(ss[i].threads[t]);
  }

  /** So does a use: it reads the record, or reports that there is none. */
  lemma UseIsJudged(ss: seq<State>, es: seq<Event>, i: nat, t: nat)
    requires IsRun(ss, es) && StepsAt(ss, es, i, t) && ss[i].threads[t].Reading?
    ensures var pc, n := ss[i].threads[t], ss[i + 1];
            && n.records == ss[i].records
            && n.threads[t] == if !es[i].draw.ok || !Named(pc.id) then Done(Refused)
                               else if pc.id in ss[i].records then Opening(pc.svc, pc.id, ss[i].records[pc.id])
                               else Done(Missing(pc.id))
  {
    StepOf(ss, es, i);
  }

  // ---------------------------------------------------------------- revocation

  /** A revocation removes exactly its record, and says so unless the call or the audit entry fails. */
  lemma RevocationIsExact(ss: seq<State>, es: seq<Event>, i: nat, t: nat)
    requires IsRun(ss, es) && StepsAt(ss, es, i, t) && ss[i].threads[t].Deleting?
    ensures var id, d, n := ss[i].threads[t].id, es[i].draw, ss[i + 1];
            && n.records == (if d.ok && Named(id) then ss[i].records - {id} else ss[i].records)
            && n.threads[t] == Done(if d.ok && Named(id) && d.audited then Erased else Refused)
  {
    StepOf(ss, es, i);
  }

  // ---------------------------------------------------------------- the counts of a rotation

  function CountsOf(pc: Pc): Option<Rotation> {
    match pc
    case Paging(_, _, out) => Some(out)
    case Rewrapping(_, _, _, out) => Some(out)
    case Swapping(_, _, _, _, _, _, out) => Some(out)
    case Done(Completed(_, out)) => Some(out)
    case Done(Stopped(_, out, _)) => Some(out)
    case _ => None
  }

  datatype Fate = Swapped | Overtaken | Verified

  /** What the thread's step does with a record: re-wraps it, finds it replaced, or finds it on the current key. */
  ghost predicate Does(s: State, e: Event, t: nat, fate: Fate) {
    && e.Step? && e.t == t && t in s.threads
    && match s.threads[t]
       case Swapping(_, rec, _, _, _, _, _) =>
         && e.draw.ok
         && fate == if rec.identity in s.records && s.records[rec.identity].wrapped == rec.wrapped then Swapped
            else Overtaken
       case Rewrapping(svc, todo, _, _) => fate == Verified && Configured(svc) && todo != [] && OnCurrent(svc, todo[0])
       case _ => false
  }

  /** How many of the thread's steps before `k` do that. */
  ghost function Times(ss: seq<State>, es: seq<Event>, k: nat, t: nat, fate: Fate): nat
    requires k <= |es| < |ss|
  {
    if k == 0 then 0 else Times(ss, es, k - 1, t, fate) + if Does(ss[k - 1], es[k - 1], t, fate) then 1 else 0
  }

  ghost predicate CountsAre(ss: seq<State>, es: seq<Event>, k: nat, t: nat, out: Rotation)
    requires k <= |es| < |ss|
  {
    && out.rewrapped == Times(ss, es, k, t, Swapped) && out.skipped == Times(ss, es, k, t, Overtaken)
    && out.alreadyCurrent == Times(ss, es, k, t, Verified)
  }

  lemma StepCounts(s: State, e: Event, t: nat)
    requires Enabled(s, e) && e.Step? && e.t == t && t in s.threads && PcOK(s.threads[t])
    ensures var n := CountsOf(Do(s, e).threads[t]);
            n.Some? ==>
              && CountsOf(s.threads[t]).Some?
              && n.value.rewrapped == CountsOf(s.threads[t]).value.rewrapped + (if Does(s, e, t, Swapped) then 1 else 0)
              && n.value.skipped == CountsOf(s.threads[t]).value.skipped + (if Does(s, e, t, Overtaken) then 1 else 0)
              && n.value.alreadyCurrent ==
                 CountsOf(s.threads[t]).value.alreadyCurrent + (if Does(s, e, t, Verified) then 1 else 0)
  {
    hide BindingAAD, IsPage, ValidIdentity;
  }

  lemma {:induction false} NotYet(ss: seq<State>, es: seq<Event>, k: nat, t: nat, fate: Fate)
    requires IsRun(ss, es) && k <= |es| && t !in ss[k].threads
    ensures Times(ss, es, k, t, fate) == 0
  {
    hide Act, Perform, PageRead;
    if k > 0 {
      StepOf(ss, es, k - 1);
      assert t !in ss[k - 1].threads;
      NotYet(ss, es, k - 1, t, fate);
    }
  }

  /**
   Beside whatever else goes on, a rotation counts as re-wrapped the records whose envelope it found as it
   had read it, as skipped those it found replaced, and as current those it found on the current key.
   */
  lemma {:induction false} CountsAreSteps(ss: seq<State>, es: seq<Event>, k: nat, t: nat)
    requires IsRun(ss, es) && k <= |es| && t in ss[k].threads && CountsOf(ss[k].threads[t]).Some?
    ensures CountsAre(ss, es, k, t, CountsOf(ss[k].threads[t]).value)
  {
    RunStarts(ss, es);
    if k > 0 {
      hide IsRun, Act, Perform, PageRead, Does, Invariant;
      StepOf(ss, es, k - 1);
      var s, e := ss[k - 1], es[k - 1];
      if t !in s.threads {
        forall fate: Fate
          ensures Times(ss, es, k - 1, t, fate) == 0 && !Does(s, e, t, fate)
        {
          NotYet(ss, es, k - 1, t, fate);
          OthersDoNothing(s, e, t, fate);
        }
      } else if e.Step? && e.t == t {
        RunKeepsInvariant(ss, es, k - 1);
        assert PcOK(s.threads[t]) by { PcPart(s, t); }
        StepCounts(s, e, t);
        CountsAreSteps(ss, es, k - 1, t);
      } else {
        CountsAreSteps(ss, es, k - 1, t);
        OthersDoNothing(s, e, t, Swapped);
        OthersDoNothing(s, e, t, Overtaken);
        OthersDoNothing(s, e, t, Verified);
      }
    }
  }

  /** A rotation reports success only when its counts have been audited. */
  lemma CompletionIsAudited(ss: seq<State>, es: seq<Event>, i: nat, t: nat)
    requires IsRun(ss, es) && StepsAt(ss, es, i, t) && !ss[i].threads[t].Done?
    requires ss[i + 1].threads[t].Done? && ss[i + 1].threads[t].answer.Completed?
    ensures es[i].draw.audited
  {
    StepOf(ss, es, i);
    hide BindingAAD, ValidIdentity, PageRead;
  }

  lemma PcPart(s: State, t: nat)
    requires Invariant(s) && t in s.threads
    ensures PcOK(s.threads[t])
  {
  }

  lemma OthersDoNothing(s: State, e: Event, t: nat, fate: Fate)
    requires t !in s.threads || !(e.Step? && e.t == t)
    ensures !Does(s, e, t, fate)
  {
  }
}
