/**
 Revocation against issuance (oauth/as.go): RevokeGrant bumps the grant's epoch and then deletes its
 records; an issuance captures the epoch, claims, saves its pair and checks the epoch again. Which of
 the pair is left is decided by two orders: capture against bump, and save against delete.
 */
module EngineRevocation {
  import opened Options
  import opened TokenStore
  import opened Engine
  import opened EngineInv
  import opened EngineSafety
  import opened EngineTheorems

  /** What a thread that captured `epoch` for its request goes on to carry. */
  ghost predicate CarriesEpoch(pc: Pc, client: string, whose: Option<string>, epoch: nat) {
    match pc
    case Captured(req, w, e) => req.client == client && w == whose && e == epoch
    case Waiting(req, w, e, _) => req.client == client && w == whose && e == epoch
    case Claiming(req, w, e, _) => req.client == client && w == whose && e == epoch
    case _ =>
      && (JobOf(pc).Some? ==>
            JobOf(pc).value.client == client && JobOf(pc).value.epoch == epoch
              && (whose.Some? ==> JobOf(pc).value.subject == whose.value))
      && (JobOf(pc).None? ==> pc.Reusing? || Answer(pc).Some?)
  }

  lemma ActCarriesEpoch(s: Mem, t: nat, pc: Pc, d: Draw, client: string, whose: Option<string>, epoch: nat)
    requires ThreadOK(s, pc) && CarriesEpoch(pc, client, whose, epoch)
    ensures CarriesEpoch(Act(s, t, pc, d).pc, client, whose, epoch)
  {
    hide EpochOK, KeyOK, WroteOK, PairOK, JobOK, OutcomeOK, Proper, Under, KeyFor, EpochOf;
  }

  lemma {:induction false} RunCarriesEpoch(ss: seq<State>, es: seq<Event>, i: nat, k: nat, t: nat)
    requires IsRun(ss, es) && i <= k < |ss| && t in ss[i].threads && ss[i].threads[t].Captured?
    ensures t in ss[k].threads
    ensures var pc := ss[i].threads[t]; CarriesEpoch(ss[k].threads[t], pc.req.client, pc.whose, pc.epoch)
  {
    hide IsRun, ThreadOK, Act, Perform, Fresh, Arrives, Ambient, Extends;
    if i < k {
      RunStep(ss, es, k - 1);
      RunCarriesEpoch(ss, es, i, k - 1, t);
      var pc, s, e := ss[i].threads[t], ss[k - 1], es[k - 1];
      if e.Step? && e.t == t {
        ActCarriesEpoch(s.mem, t, s.threads[t], e.draw, pc.req.client, pc.whose, pc.epoch);
      }
    }
  }

  /** A revocation past its bump goes on to delete exactly that grant, under that bump. */
  ghost predicate Revoking(pc: Pc, subject: string, client: string, bump: nat) {
    || pc == Deleting(subject, client, bump)
    || pc == Done(GrantRevoked(subject, client, bump))
    || pc == Done(StoreError(None))
  }

  lemma {:induction false} RunRevokes(ss: seq<State>, es: seq<Event>, j: nat, k: nat, r: nat)
    requires IsRun(ss, es) && j < k < |ss| && es[j].Step? && es[j].t == r
    requires r in ss[j].threads && ss[j].threads[r].Bumping?
    ensures r in ss[k].threads
    ensures var pc := ss[j].threads[r];
            Revoking(ss[k].threads[r], pc.subject, pc.client, EpochOf(ss[j].mem, pc.subject, pc.client) + 1)
  {
    hide Perform, Act, Fresh, Arrives, Ambient, EpochOf;
    if j + 1 < k {
      RunRevokes(ss, es, j, k - 1, r);
    }
    assert ss[k] == Do(ss[k - 1], es[k - 1]);
    if es[k - 1].Step? {
      ActRevokes(ss[k - 1].mem, r, ss[k - 1].threads[r], es[k - 1].draw);
    }
  }

  lemma ActRevokes(s: Mem, r: nat, pc: Pc, d: Draw)
    ensures pc.Bumping? ==> Revoking(Act(s, r, pc, d).pc, pc.subject, pc.client, EpochOf(s, pc.subject, pc.client) + 1)
    ensures forall subject, client, bump :: Revoking(pc, subject, client, bump) ==>
              Revoking(Act(s, r, pc, d).pc, subject, client, bump)
  {
    hide Inspect, ClaimGrant, ClaimRefresh, Mint, KeyFor;
  }

  /** The captured epoch lies below whatever bump comes later. */
  lemma CapturedEpoch(ss: seq<State>, es: seq<Event>, i: nat, j: nat, t: nat)
    requires IsRun(ss, es) && i <= j < |ss| && t in ss[i].threads && ss[i].threads[t].Captured?
    ensures var pc := ss[i].threads[t];
            if pc.whose.Some? then pc.epoch <= EpochOf(ss[j].mem, pc.whose.value, pc.req.client) else pc.epoch == 0
  {
    hide IsRun, StoreOK, LocksOK, FamiliesOK, DeadOK, OriginsOK, EpochsOK;
    RunExtends(ss, es, i, j);
    RunKeepsInvariant(ss, es, i);
    assert ThreadOK(ss[i].mem, ss[i].threads[t]);
  }

  lemma EndsDead(s: State, t: nat, r: nat)
    requires Invariant(s) && t in s.threads && r in s.threads
    requires Answer(s.threads[t]).Some? && Answer(s.threads[r]).Some?
    ensures var o := Answer(s.threads[t]).value;
            o.RolledBack? || Overtaken(o, Answer(s.threads[r]).value) ==>
              o.at !in s.mem.store.access && o.rt !in s.mem.store.refresh
  {
    IssuedIsMatched(s.mem, s.threads[t]);
    hide StoreOK, LocksOK, FamiliesOK, DeadOK, OriginsOK, PairOK;
  }

  /** No pair outlives a revocation that was bumped after the issuance captured its epoch. */
  lemma RevocationIsNotOutrun(ss: seq<State>, es: seq<Event>, i: nat, j: nat, k: nat, t: nat, r: nat)
    requires IsRun(ss, es) && i <= j < k < |ss|
    requires t in ss[i].threads && ss[i].threads[t].Captured?
    requires es[j].Step? && es[j].t == r && r in ss[j].threads && ss[j].threads[r].Bumping?
    requires r in ss[k].threads && ss[k].threads[r].Done? && ss[k].threads[r].outcome.GrantRevoked?
    requires t in ss[k].threads && Answer(ss[k].threads[t]).Some?
    ensures var o, g := Answer(ss[k].threads[t]).value, ss[j].threads[r];
            (o.Issued? || o.RolledBack?) && o.job.subject == g.subject && o.job.client == g.client ==>
              o.at !in ss[k].mem.store.access && o.rt !in ss[k].mem.store.refresh
  {
    hide IsRun, Invariant, EpochOf;
    var o, pc := Answer(ss[k].threads[t]).value, ss[i].threads[t];
    RunCarriesEpoch(ss, es, i, k, t);
    RunRevokes(ss, es, j, k, r);
    CapturedEpoch(ss, es, i, j, t);
    RunKeepsInvariant(ss, es, k);
    EndsDead(ss[k], t, r);
  }

  // ---------------------------------------------------------------- what the delete reaches

  /** The pair a thread has saved, from its refresh record on. */
  function PairOf(pc: Pc): Option<(Job, string, string)> {
    match pc
    case SavedPair(job, at, rt) => Some((job, at, rt))
    case RollAccess(job, at, rt) => Some((job, at, rt))
    case RollRefresh(job, at, rt, _) => Some((job, at, rt))
    case Leaving(_, Issued(job, at, rt)) => Some((job, at, rt))
    case Leaving(_, RolledBack(job, at, rt)) => Some((job, at, rt))
    case Done(Issued(job, at, rt)) => Some((job, at, rt))
    case Done(RolledBack(job, at, rt)) => Some((job, at, rt))
    case _ => None
  }

  lemma PairIsOK(s: Mem, pc: Pc)
    requires ThreadOK(s, pc) && PairOf(pc).Some?
    ensures PairOK(s, PairOf(pc).value.0, PairOf(pc).value.1, PairOf(pc).value.2)
  {
    hide PairOK;
  }

  /** At step `m` a revocation deletes the grant. */
  ghost predicate Deletes(ss: seq<State>, es: seq<Event>, m: nat, subject: string, client: string) {
    && m < |es| < |ss| && es[m].Step? && es[m].draw.ok && es[m].t in ss[m].threads && ss[m].threads[es[m].t].Deleting?
    && ss[m].threads[es[m].t].subject == subject && ss[m].threads[es[m].t].client == client
  }

  lemma DeleteStep(ss: seq<State>, es: seq<Event>, m: nat, subject: string, client: string)
    requires IsRun(ss, es) && Deletes(ss, es, m, subject, client)
    ensures ss[m + 1].mem == Perform(ss[m].mem, DeleteGrant(subject, client))
    ensures es[m].t in ss[m + 1].threads
    ensures ss[m + 1].threads[es[m].t] == Done(GrantRevoked(subject, client, ss[m].threads[es[m].t].bump))
  {
    hide Perform;
    assert ss[m + 1] == Do(ss[m], es[m]);
  }

  /** A value once gone stays gone. */
  lemma {:induction false} StaysGone(ss: seq<State>, es: seq<Event>, i: nat, k: nat, v: string)
    requires IsRun(ss, es) && i <= k < |ss| && v in ss[i].mem.seen
    ensures v in ss[k].mem.seen
    ensures v !in ss[i].mem.store.access ==> v !in ss[k].mem.store.access
    ensures v !in ss[i].mem.store.refresh ==> v !in ss[k].mem.store.refresh
  {
    hide IsRun, Invariant, Do, Enabled, ExtendsHistory, ExtendsDevices;
    if i < k {
      RunStep(ss, es, k - 1);
      StaysGone(ss, es, i, k - 1, v);
      SeenGrows(ss[k - 1].mem, ss[k].mem);
    }
  }

  /** A pair both of whose records are saved by the delete is gone for good, wherever its issuance then is. */
  lemma SavedFirstIsDeleted(ss: seq<State>, es: seq<Event>, m: nat, k: nat, t: nat)
    requires IsRun(ss, es) && m < k < |ss| && t in ss[m].threads && PairOf(ss[m].threads[t]).Some?
    requires var job := PairOf(ss[m].threads[t]).value.0; Deletes(ss, es, m, job.subject, job.client)
    ensures var (_, at, rt) := PairOf(ss[m].threads[t]).value;
            at !in ss[k].mem.store.access && rt !in ss[k].mem.store.refresh
  {
    hide IsRun, Perform, Extends, StoreOK, LocksOK, FamiliesOK, DeadOK, OriginsOK, EpochsOK, Fresh, Do, Enabled;
    hide ThreadOK;
    var (job, at, rt) := PairOf(ss[m].threads[t]).value;
    RunStep(ss, es, m);
    DeleteStep(ss, es, m, job.subject, job.client);
    PairIsOK(ss[m].mem, ss[m].threads[t]);
    DeleteGrantKills(ss[m].mem, job, at, rt);
    SeenGrows(ss[m].mem, ss[m + 1].mem);
    PairSeen(ss[m].mem, job, at, rt);
    StaysGone(ss, es, m + 1, k, at);
    StaysGone(ss, es, m + 1, k, rt);
  }

  /** An access record saved by the delete is gone for good, even if its refresh record is still to come. */
  lemma SavedAccessIsDeleted(ss: seq<State>, es: seq<Event>, m: nat, k: nat, t: nat)
    requires IsRun(ss, es) && m < k < |ss| && t in ss[m].threads && ss[m].threads[t].SavedAccess?
    requires var job := ss[m].threads[t].job; Deletes(ss, es, m, job.subject, job.client)
    ensures ss[m].threads[t].at !in ss[k].mem.store.access
  {
    hide IsRun, Extends, StoreOK, LocksOK, FamiliesOK, DeadOK, OriginsOK, EpochsOK, Fresh, Do, Enabled, JobOK, Under;
    var pc := ss[m].threads[t];
    RunStep(ss, es, m);
    DeleteStep(ss, es, m, pc.job.subject, pc.job.client);
    assert ThreadOK(ss[m].mem, pc);
    hide Invariant;
    SeenGrows(ss[m].mem, ss[m + 1].mem);
    StaysGone(ss, es, m + 1, k, pc.at);
  }

  // ---------------------------------------------------------------- where a thread is between two of its steps

  lemma {:induction false} RankFalls(ss: seq<State>, es: seq<Event>, i: nat, k: nat, t: nat)
    requires IsRun(ss, es) && i <= k < |ss| && t in ss[i].threads
    ensures t in ss[k].threads && Rank(ss[k].threads[t]) <= Rank(ss[i].threads[t])
    ensures Rank(ss[k].threads[t]) == Rank(ss[i].threads[t]) ==> ss[k].threads[t] == ss[i].threads[t]
  {
    hide IsRun, Act, Perform, Fresh, Arrives, Ambient, Extends, Invariant, Rank, Blocked;
    if i < k {
      RunStep(ss, es, k - 1);
      RankFalls(ss, es, i, k - 1, t);
      var s, e := ss[k - 1], es[k - 1];
      if e.Step? && e.t == t {
        OneStepOnly(s.mem, t, s.threads[t], e.draw);
      }
    }
  }

  lemma OneStepOnly(s: Mem, t: nat, pc: Pc, d: Draw)
    ensures var n := Act(s, t, pc, d).pc; n == pc || Rank(n) < Rank(pc)
  {
    hide Inspect, ClaimGrant, ClaimRefresh, Mint, KeyFor, EpochOf, Rank;
    if pc.Done? || Blocked(s, pc) {
    } else {
      StepsRunOut(s, t, pc, d);
    }
  }

  lemma {:induction false} PairStays(ss: seq<State>, es: seq<Event>, i: nat, k: nat, t: nat)
    requires IsRun(ss, es) && i <= k < |ss| && t in ss[i].threads && PairOf(ss[i].threads[t]).Some?
    ensures t in ss[k].threads
    ensures PairOf(ss[k].threads[t]) == PairOf(ss[i].threads[t]) || Errs(ss[k].threads[t])
  {
    hide IsRun, Act, Perform, Fresh, Arrives, Ambient, Extends, Invariant, PairOf, Errs;
    if i < k {
      RunStep(ss, es, k - 1);
      PairStays(ss, es, i, k - 1, t);
      var s, e := ss[k - 1], es[k - 1];
      if e.Step? && e.t == t {
        PairGoesOn(s.mem, t, s.threads[t], e.draw);
      }
    }
  }

  lemma {:induction false} AnswerStays(ss: seq<State>, es: seq<Event>, i: nat, k: nat, t: nat)
    requires IsRun(ss, es) && i <= k < |ss| && t in ss[i].threads
    ensures t in ss[k].threads
    ensures Answer(ss[i].threads[t]).Some? ==> Answer(ss[k].threads[t]) == Answer(ss[i].threads[t])
  {
    hide IsRun, Act, Perform, Fresh, Arrives, Ambient, Extends, Invariant, Answer;
    if i < k {
      RunStep(ss, es, k - 1);
      AnswerStays(ss, es, i, k - 1, t);
      var s, e := ss[k - 1], es[k - 1];
      if e.Step? && e.t == t {
        PairGoesOn(s.mem, t, s.threads[t], e.draw);
      }
    }
  }

  /** The thread has answered with a store error. */
  predicate Errs(pc: Pc) {
    Answer(pc).Some? && Answer(pc).value.StoreError?
  }

  lemma PairGoesOn(s: Mem, t: nat, pc: Pc, d: Draw)
    ensures var n := Act(s, t, pc, d).pc;
            && (PairOf(pc).Some? ==> PairOf(n) == PairOf(pc) || Errs(n))
            && (Errs(pc) ==> Errs(n))
            && (Answer(pc).Some? ==> Answer(n) == Answer(pc))
  {
    hide Inspect, ClaimGrant, ClaimRefresh, Mint, KeyFor, EpochOf;
  }

  // ---------------------------------------------------------------- exactly when a pair is left

  /**
   Where the two meet: thread `t` captures the epoch, saves its access record, saves its refresh
   record and checks the epoch; thread `r` bumps it and deletes the grant; by `end` both have answered.
   */
  datatype Race = Race(t: nat, r: nat, capture: nat, access: nat, refresh: nat, check: nat, bump: nat, delete: nat,
                       end: nat)

  ghost predicate StepsAt(ss: seq<State>, es: seq<Event>, i: nat, t: nat) {
    i < |es| < |ss| && es[i].Step? && es[i].t == t && t in ss[i].threads
  }

  ghost predicate Issues(ss: seq<State>, es: seq<Event>, x: Race) {
    && x.capture < x.access < x.refresh < x.check < x.end < |ss|
    && StepsAt(ss, es, x.capture, x.t) && ss[x.capture].threads[x.t].Ready? && ss[x.capture].threads[x.t].whose.Some?
    && StepsAt(ss, es, x.access, x.t) && ss[x.access].threads[x.t].Minting? && es[x.access].draw.ok
    && StepsAt(ss, es, x.refresh, x.t) && ss[x.refresh].threads[x.t].SavedAccess? && es[x.refresh].draw.ok
    && StepsAt(ss, es, x.check, x.t) && ss[x.check].threads[x.t].SavedPair?
    && x.t in ss[x.end].threads && Answer(ss[x.end].threads[x.t]).Some?
    && !Answer(ss[x.end].threads[x.t]).value.StoreError?
  }

  /** The revocation is of the grant the issuance is for. */
  ghost predicate Revokes(ss: seq<State>, es: seq<Event>, x: Race) {
    && x.bump < x.delete < x.end < |ss|
    && StepsAt(ss, es, x.bump, x.r) && ss[x.bump].threads[x.r].Bumping?
    && StepsAt(ss, es, x.delete, x.r) && ss[x.delete].threads[x.r].Deleting? && es[x.delete].draw.ok
    && StepsAt(ss, es, x.capture, x.t) && ss[x.capture].threads[x.t].Ready?
    && ss[x.capture].threads[x.t].whose == Some(ss[x.bump].threads[x.r].subject)
    && ss[x.capture].threads[x.t].req.client == ss[x.bump].threads[x.r].client
  }

  /** Until the check nobody else bumps the grant, and nobody else removes either record. */
  ghost predicate NobodyElse(ss: seq<State>, es: seq<Event>, x: Race, subject: string, client: string, at: string,
                             rt: string) {
    && x.check < x.end < |ss| == |es| + 1
    && (forall y | x.capture <= y < x.check && y != x.bump ::
          EpochOf(ss[y + 1].mem, subject, client) == EpochOf(ss[y].mem, subject, client))
    && (forall y | x.access < y < x.end && y != x.delete && !(es[y].Step? && es[y].t == x.t) ::
          && (at in ss[y].mem.store.access ==> at in ss[y + 1].mem.store.access)
          && (rt in ss[y].mem.store.refresh ==> rt in ss[y + 1].mem.store.refresh))
  }

  /** Everything above: one issuance, one revocation of the same grant, and nobody else in between. */
  ghost predicate Meet(ss: seq<State>, es: seq<Event>, x: Race) {
    && IsRun(ss, es) && Issues(ss, es, x) && Revokes(ss, es, x)
    && var g := ss[x.bump].threads[x.r];
       NobodyElse(ss, es, x, g.subject, g.client, es[x.access].draw.a, es[x.refresh].draw.a)
  }

  /** Where the issuance is while its records are being saved. */
  ghost predicate Places(ss: seq<State>, x: Race, job: Job, family: string, at: string, rt: string) {
    && x.access < x.refresh < x.check < |ss|
    && (forall y | x.access < y <= x.refresh ::
          x.t in ss[y].threads && ss[y].threads[x.t] == SavedAccess(job, family, at))
    && (forall y | x.refresh < y <= x.check :: x.t in ss[y].threads && ss[y].threads[x.t] == SavedPair(job, at, rt))
  }

  /** The same, for the job the issuance claimed and the values it drew. */
  ghost predicate Placed(ss: seq<State>, es: seq<Event>, x: Race, job: Job, family: string) {
    && Issues(ss, es, x) && job == ss[x.access].threads[x.t].job
    && Places(ss, x, job, family, es[x.access].draw.a, es[x.refresh].draw.a)
  }

  lemma SavesInOrder(ss: seq<State>, es: seq<Event>, x: Race) returns (job: Job, family: string)
    requires IsRun(ss, es) && Issues(ss, es, x)
    ensures Placed(ss, es, x, job, family)
  {
    hide IsRun, Perform, Extends, Invariant, Fresh, Answer;
    RunStep(ss, es, x.access);
    RunStep(ss, es, x.refresh);
    job, family := ss[x.access + 1].threads[x.t].job, ss[x.access + 1].threads[x.t].family;
    hide Do, Enabled, Act;
    forall y | x.access < y <= x.refresh
      ensures x.t in ss[y].threads && ss[y].threads[x.t] == SavedAccess(job, family, es[x.access].draw.a)
    {
      RankFalls(ss, es, x.access + 1, y, x.t);
      RankFalls(ss, es, y, x.refresh, x.t);
    }
    forall y | x.refresh < y <= x.check
      ensures x.t in ss[y].threads && ss[y].threads[x.t] == SavedPair(job, es[x.access].draw.a, es[x.refresh].draw.a)
    {
      RankFalls(ss, es, x.refresh + 1, y, x.t);
      RankFalls(ss, es, y, x.check, x.t);
    }
  }

  /** The job carries the grant's subject and client and the epoch as it was captured. */
  lemma JobCarries(ss: seq<State>, es: seq<Event>, x: Race)
    requires IsRun(ss, es) && Issues(ss, es, x) && Revokes(ss, es, x)
    ensures var job, g := ss[x.access].threads[x.t].job, ss[x.bump].threads[x.r];
            && job.subject == g.subject && job.client == g.client
            && job.epoch == EpochOf(ss[x.capture].mem, g.subject, g.client)
    ensures x.t in ss[x.capture + 1].threads && ss[x.capture + 1].threads[x.t].Captured?
  {
    hide IsRun, Perform, Extends, Invariant, Fresh, Answer, EpochOf;
    RunStep(ss, es, x.capture);
    RunCarriesEpoch(ss, es, x.capture + 1, x.access, x.t);
  }

  lemma {:induction false} EpochStays(ss: seq<State>, i: nat, k: nat, subject: string, client: string)
    requires i <= k < |ss|
    requires forall y | i <= y < k :: EpochOf(ss[y + 1].mem, subject, client) == EpochOf(ss[y].mem, subject, client)
    ensures EpochOf(ss[k].mem, subject, client) == EpochOf(ss[i].mem, subject, client)
  {
    if i < k {
      EpochStays(ss, i, k - 1, subject, client);
    }
  }

  /** With the bump before the capture, the check passes. */
  lemma CheckPasses(ss: seq<State>, es: seq<Event>, x: Race, job: Job, family: string)
    requires Meet(ss, es, x) && Placed(ss, es, x, job, family) && x.bump < x.capture
    ensures var at, rt := es[x.access].draw.a, es[x.refresh].draw.a;
            x.t in ss[x.check + 1].threads && ss[x.check + 1].threads[x.t] == Leaving(job.key, Issued(job, at, rt))
  {
    hide IsRun, Perform, Extends, Invariant, Fresh, Answer, EpochOf;
    var g := ss[x.bump].threads[x.r];
    JobCarries(ss, es, x);
    RunStep(ss, es, x.check);
    EpochStays(ss, x.capture, x.check, g.subject, g.client);
  }

  /** Saving, checking, leaving: none of these steps removes a record. */
  lemma SavingKeeps(s: Mem, t: nat, pc: Pc, d: Draw)
    requires (pc.SavedAccess? && d.ok) || pc.SavedPair? || Answer(pc).Some?
    ensures var u := Perform(s, Act(s, t, pc, d).eff);
            s.store.access.Keys <= u.store.access.Keys && s.store.refresh.Keys <= u.store.refresh.Keys
  {
    hide Inspect, ClaimGrant, ClaimRefresh, Mint, KeyFor, EpochOf, DevicesAfter, LocksAfter, GrantedAfter, SeenAfter;
  }

  /** Where the issuance is at any time from its first save to its end, once its check passes. */
  lemma StaysSaving(ss: seq<State>, es: seq<Event>, x: Race, y: nat, job: Job, family: string)
    requires Meet(ss, es, x) && Placed(ss, es, x, job, family) && x.bump < x.capture
    requires x.access < y < x.end
    ensures x.t in ss[y].threads
    ensures es[y].Step? && es[y].t == x.t ==>
              var pc := ss[y].threads[x.t]; (pc.SavedAccess? && es[y].draw.ok) || pc.SavedPair? || Answer(pc).Some?
  {
    hide IsRun, Perform, Extends, Invariant, Fresh, EpochOf, Revokes;
    if y > x.check {
      CheckPasses(ss, es, x, job, family);
      AnswerStays(ss, es, x.check + 1, y, x.t);
    } else if y < x.refresh {
      RunStep(ss, es, y);
      assert ss[y + 1].threads[x.t] == ss[y].threads[x.t];
    }
  }

  lemma StepKeepsPair(ss: seq<State>, es: seq<Event>, x: Race, y: nat, job: Job, family: string)
    requires Meet(ss, es, x) && Placed(ss, es, x, job, family) && x.bump < x.capture
    requires x.access < y < x.end && y != x.delete
    ensures var at, rt := es[x.access].draw.a, es[x.refresh].draw.a;
            && (at in ss[y].mem.store.access ==> at in ss[y + 1].mem.store.access)
            && (rt in ss[y].mem.store.refresh ==> rt in ss[y + 1].mem.store.refresh)
  {
    hide IsRun, Issues, Revokes, Perform, Act, Fresh, Extends, Invariant;
    if es[y].Step? && es[y].t == x.t {
      StaysSaving(ss, es, x, y, job, family);
      RunStep(ss, es, y);
      SavingKeeps(ss[y].mem, x.t, ss[y].threads[x.t], es[y].draw);
    }
  }

  lemma {:induction false} AccessLives(ss: seq<State>, i: nat, k: nat, at: string)
    requires i <= k < |ss| && at in ss[i].mem.store.access
    requires forall y | i <= y < k :: at in ss[y].mem.store.access ==> at in ss[y + 1].mem.store.access
    ensures at in ss[k].mem.store.access
  {
    if i < k {
      AccessLives(ss, i, k - 1, at);
    }
  }

  lemma {:induction false} RefreshLives(ss: seq<State>, i: nat, k: nat, rt: string)
    requires i <= k < |ss| && rt in ss[i].mem.store.refresh
    requires forall y | i <= y < k :: rt in ss[y].mem.store.refresh ==> rt in ss[y + 1].mem.store.refresh
    ensures rt in ss[k].mem.store.refresh
  {
    if i < k {
      RefreshLives(ss, i, k - 1, rt);
    }
  }

  lemma RecordsSaved(ss: seq<State>, es: seq<Event>, x: Race)
    requires IsRun(ss, es) && Issues(ss, es, x)
    ensures es[x.access].draw.a in ss[x.access + 1].mem.store.access
    ensures es[x.refresh].draw.a in ss[x.refresh + 1].mem.store.refresh
  {
    hide IsRun, Extends, Invariant, Fresh, DevicesAfter, LocksAfter, GrantedAfter, SeenAfter;
    RunStep(ss, es, x.access);
    RunStep(ss, es, x.refresh);
  }

  /** Both orders late: what was saved after the delete is left. */
  lemma LateIsLeft(ss: seq<State>, es: seq<Event>, x: Race)
    requires Meet(ss, es, x) && x.bump < x.capture
    ensures x.delete < x.access ==> es[x.access].draw.a in ss[x.end].mem.store.access
    ensures x.delete < x.refresh ==> es[x.refresh].draw.a in ss[x.end].mem.store.refresh
  {
    var job, family := SavesInOrder(ss, es, x);
    RecordsSaved(ss, es, x);
    hide IsRun, Placed, Revokes, NobodyElse, StepsAt;
    var at, rt := es[x.access].draw.a, es[x.refresh].draw.a;
    forall y | x.access < y < x.end && y != x.delete
      ensures at in ss[y].mem.store.access ==> at in ss[y + 1].mem.store.access
      ensures rt in ss[y].mem.store.refresh ==> rt in ss[y + 1].mem.store.refresh
    {
      StepKeepsPair(ss, es, x, y, job, family);
    }
    if x.delete < x.access {
      AccessLives(ss, x.access + 1, x.end, at);
    }
    if x.delete < x.refresh {
      RefreshLives(ss, x.refresh + 1, x.end, rt);
    }
  }

  lemma RevokerDeletes(ss: seq<State>, es: seq<Event>, x: Race)
    requires IsRun(ss, es) && Revokes(ss, es, x)
    ensures var g := ss[x.bump].threads[x.r];
            && Deletes(ss, es, x.delete, g.subject, g.client)
            && x.r in ss[x.end].threads && ss[x.end].threads[x.r].Done? && ss[x.end].threads[x.r].outcome.GrantRevoked?
  {
    hide IsRun, Perform, Extends, Invariant, Fresh, EpochOf, Act;
    var g := ss[x.bump].threads[x.r];
    RunRevokes(ss, es, x.bump, x.delete, x.r);
    DeleteStep(ss, es, x.delete, g.subject, g.client);
    RankFalls(ss, es, x.delete + 1, x.end, x.r);
  }

  /** Both saved before the delete: gone. */
  lemma EarlyPairIsGone(ss: seq<State>, es: seq<Event>, x: Race)
    requires IsRun(ss, es) && Issues(ss, es, x) && Revokes(ss, es, x) && x.refresh < x.delete
    ensures es[x.access].draw.a !in ss[x.end].mem.store.access && es[x.refresh].draw.a !in ss[x.end].mem.store.refresh
  {
    var job, family := SavesInOrder(ss, es, x);
    JobCarries(ss, es, x);
    RevokerDeletes(ss, es, x);
    var pair := Some((job, es[x.access].draw.a, es[x.refresh].draw.a));
    assert PairOf(ss[x.refresh + 1].threads[x.t]) == pair;
    assert x.end < |ss| && x.t in ss[x.refresh + 1].threads && !Answer(ss[x.end].threads[x.t]).value.StoreError?;
    hide IsRun, Deletes, Revokes, Issues, Places, PairOf;
    PairStays(ss, es, x.refresh + 1, x.delete, x.t);
    AnswerStays(ss, es, x.delete, x.end, x.t);
    SavedFirstIsDeleted(ss, es, x.delete, x.end, x.t);
  }

  /** Only the access record saved before the delete: that one is gone. */
  lemma EarlyAccessIsGone(ss: seq<State>, es: seq<Event>, x: Race)
    requires IsRun(ss, es) && Issues(ss, es, x) && Revokes(ss, es, x) && x.access < x.delete < x.refresh
    ensures es[x.access].draw.a !in ss[x.end].mem.store.access
  {
    var job, family := SavesInOrder(ss, es, x);
    JobCarries(ss, es, x);
    RevokerDeletes(ss, es, x);
    assert ss[x.delete].threads[x.t] == SavedAccess(job, family, es[x.access].draw.a);
    hide IsRun, Deletes, Revokes, Issues, Places;
    SavedAccessIsDeleted(ss, es, x.delete, x.end, x.t);
  }

  /** Captured before the bump: gone, whatever the saves. */
  lemma EarlyCaptureIsGone(ss: seq<State>, es: seq<Event>, x: Race)
    requires IsRun(ss, es) && Issues(ss, es, x) && Revokes(ss, es, x) && x.capture < x.bump
    ensures es[x.access].draw.a !in ss[x.end].mem.store.access && es[x.refresh].draw.a !in ss[x.end].mem.store.refresh
  {
    var job, family := SavesInOrder(ss, es, x);
    JobCarries(ss, es, x);
    RevokerDeletes(ss, es, x);
    hide IsRun, Deletes;
    PairStays(ss, es, x.refresh + 1, x.end, x.t);
    RevocationIsNotOutrun(ss, es, x.capture + 1, x.bump, x.end, x.t, x.r);
  }

  /**
   Exactly when a record of the pair outlives the revocation: its issuance captured the epoch after
   the bump, and saved the record after the delete.
   */
  lemma RevocationDecides(ss: seq<State>, es: seq<Event>, x: Race)
    requires Meet(ss, es, x)
    ensures es[x.access].draw.a in ss[x.end].mem.store.access <==> x.bump < x.capture && x.delete < x.access
    ensures es[x.refresh].draw.a in ss[x.end].mem.store.refresh <==> x.bump < x.capture && x.delete < x.refresh
  {
    assert x.bump != x.capture && x.delete != x.access && x.delete != x.refresh;
    hide IsRun, NobodyElse;
    if x.refresh < x.delete {
      EarlyPairIsGone(ss, es, x);
    } else if x.access < x.delete {
      EarlyAccessIsGone(ss, es, x);
    }
    if x.bump < x.capture {
      LateIsLeft(ss, es, x);
    } else {
      EarlyCaptureIsGone(ss, es, x);
    }
  }
}
