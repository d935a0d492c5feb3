/**
 What holds between threads, in every interleaving: one live refresh record per rotation family,
 nothing ever again in a family a detected reuse revoked, one token pair per code, approval and
 refresh value, and no live pair behind a revocation its issuance was overtaken by.
 */
module EngineSafety {
  import opened Options
  import opened TokenStore
  import opened Engine
  import opened EngineInv

  // ---------------------------------------------------------------- the family lock

  function HeldBy(pc: Pc): Option<Key> {
    match pc
    case Claiming(_, _, _, key) => Some(key)
    case Reusing(_, key) => Some(key)
    case Minting(job) => job.key
    case SavedAccess(job, _, _) => job.key
    case SavedPair(job, _, _) => job.key
    case UndoAccess(job, _) => job.key
    case RollAccess(job, _, _) => job.key
    case RollRefresh(job, _, _, _) => job.key
    case Leaving(held, _) => held
    case _ => None
  }

  ghost predicate LocksOK(s: State) {
    forall t | t in s.threads && HeldBy(s.threads[t]).Some? ::
      HeldBy(s.threads[t]).value in s.mem.locks && s.mem.locks[HeldBy(s.threads[t]).value] == t
  }

  lemma ActHolds(s: Mem, t: nat, pc: Pc, d: Draw)
    requires ThreadOK(s, pc)
    ensures var m := Act(s, t, pc, d);
            if m.eff.Acquire? then m.eff.t == t && m.eff.key !in s.locks && HeldBy(pc) == None
                && HeldBy(m.pc) == Some(m.eff.key)
            else if m.eff.Release? then HeldBy(pc) == Some(m.eff.key) && HeldBy(m.pc) == None
            else HeldBy(m.pc) == HeldBy(pc)
  {
    hide WhoseOK, EpochOK, KeyOK, WroteOK, PairOK, OutcomeOK, Proper, Under;
  }

  lemma DoKeepsLocks(s: State, e: Event)
    requires ThreadsOK(s) && LocksOK(s) && Enabled(s, e)
    ensures LocksOK(Do(s, e))
  {
    hide ThreadOK, Act, StoreAfter, DevicesAfter, SeenAfter, GrantedAfter;
    if e.Step? {
      ActHolds(s.mem, e.t, s.threads[e.t], e.draw);
    }
  }

  // ---------------------------------------------------------------- rotation families

  /** The family a thread is about to save a refresh record in. */
  function MinterOf(pc: Pc): Option<string> {
    match pc
    case Minting(job) => job.family
    case SavedAccess(_, family, _) => Some(family)
    case _ => None
  }

  /** The thread is saving the first pair of a family nobody has seen a refresh record of. */
  predicate Founding(pc: Pc) {
    pc.SavedAccess? && pc.job.family.None?
  }

  ghost predicate FamiliesOK(s: State) {
    && (forall v, w | v in s.mem.store.refresh && w in s.mem.store.refresh ::
          s.mem.store.refresh[v].family == s.mem.store.refresh[w].family ==> v == w)
    && (forall t, v | t in s.threads && v in s.mem.store.refresh ::
          MinterOf(s.threads[t]) != Some(s.mem.store.refresh[v].family))
    && (forall t, r | t in s.threads && r in s.threads && MinterOf(s.threads[t]).Some? ::
          MinterOf(s.threads[t]) == MinterOf(s.threads[r]) ==> t == r)
    && (forall t | t in s.threads && Founding(s.threads[t]) :: MinterOf(s.threads[t]).value !in s.mem.born)
  }

  /** How a thread comes to mint into a family. */
  lemma ActMints(s: Mem, t: nat, pc: Pc, d: Draw)
    requires StoreOK(s) && ThreadOK(s, pc) && Fresh(s, d)
    ensures var m := Act(s, t, pc, d);
            MinterOf(m.pc).Some? ==>
              || (MinterOf(m.pc) == MinterOf(pc) && Founding(m.pc) == Founding(pc) && !m.eff.TakeRefresh?
                  && !m.eff.PutRefresh?)
              || (m.eff.TakeRefresh? && m.eff.value in s.store.refresh && !Founding(m.pc)
                  && MinterOf(m.pc) == Some(s.store.refresh[m.eff.value].family))
              || (m.eff.PutAccess? && MinterOf(m.pc).value !in s.seen)
    ensures var m := Act(s, t, pc, d);
            m.eff.PutRefresh? ==> MinterOf(pc) == Some(m.eff.token.family) && MinterOf(m.pc) == None
  {
    hide WhoseOK, EpochOK, KeyOK, WroteOK, PairOK, OutcomeOK, Proper, Under, StoreOK;
  }

  lemma RefreshAfter(s: Mem, eff: Effect)
    ensures forall v | v in Perform(s, eff).store.refresh ::
              var t := Perform(s, eff).store.refresh[v];
              if eff.PutRefresh? && eff.value == v then t == eff.token
              else v in s.store.refresh && t == s.store.refresh[v] && !(eff.TakeRefresh? && eff.value == v)
    ensures Perform(s, eff).born == if eff.PutRefresh? then s.born + {eff.token.family} else s.born
  {
    hide DevicesAfter, LocksAfter, SeenAfter, GrantedAfter;
  }

  /** A family that a thread is minting into, or that has a record, has been drawn. */
  lemma MintersAreSeen(s: Mem, pc: Pc)
    requires StoreOK(s) && ThreadOK(s, pc)
    ensures MinterOf(pc).Some? ==> MinterOf(pc).value in s.seen
    ensures forall v | v in s.store.refresh :: s.store.refresh[v].family in s.seen
    ensures s.born <= s.seen
  {
    hide WhoseOK, EpochOK, KeyOK, WroteOK, PairOK, OutcomeOK, Proper, Under, CodesOK, DevicesOK, TombsOK;
  }

  /** A thread that starts minting into a family is the only one, and the family has no live record. */
  ghost predicate MintsAlone(s: State, u: State, t: nat)
    requires t in u.threads
  {
    MinterOf(u.threads[t]).Some? ==>
      && (forall r | r in u.threads && r != t :: MinterOf(u.threads[r]) != MinterOf(u.threads[t]))
      && (forall v | v in u.mem.store.refresh :: u.mem.store.refresh[v].family != MinterOf(u.threads[t]).value)
      && (Founding(u.threads[t]) ==> MinterOf(u.threads[t]).value !in u.mem.born)
  }

  lemma StepMintsAlone(s: State, e: Event)
    requires StoreOK(s.mem) && ThreadsOK(s) && FamiliesOK(s) && Enabled(s, e) && e.Step?
    ensures MintsAlone(s, Do(s, e), e.t)
  {
    hide StoreOK, ThreadOK, Act, Perform, Fresh;
    var pc := s.threads[e.t];
    var m := Act(s.mem, e.t, pc, e.draw);
    ActMints(s.mem, e.t, pc, e.draw);
    RefreshAfter(s.mem, m.eff);
    forall r | r in s.threads
      ensures MinterOf(s.threads[r]).Some? ==> MinterOf(s.threads[r]).value in s.mem.seen
      ensures forall v | v in s.mem.store.refresh :: s.mem.store.refresh[v].family in s.mem.seen
      ensures s.mem.born <= s.mem.seen
    {
      MintersAreSeen(s.mem, s.threads[r]);
    }
    assert s.mem.born <= s.mem.seen by { MintersAreSeen(s.mem, pc); }
  }

  /** One step on families, seen only through the refresh records and the minting threads. */
  lemma FamiliesAfter(s: State, u: State, t: nat, added: Option<string>)
    requires FamiliesOK(s) && t in s.threads && t in u.threads && u.threads == s.threads[t := u.threads[t]]
    requires MintsAlone(s, u, t)
    requires forall v | v in u.mem.store.refresh ::
               added == Some(v) || (v in s.mem.store.refresh && u.mem.store.refresh[v] == s.mem.store.refresh[v])
    requires added.Some? ==> added.value in u.mem.store.refresh && MinterOf(u.threads[t]) == None
                             && MinterOf(s.threads[t]) == Some(u.mem.store.refresh[added.value].family)
    requires u.mem.born == if added.Some? then s.mem.born + {u.mem.store.refresh[added.value].family} else s.mem.born
    ensures FamiliesOK(u)
  {
    forall r, v | r in u.threads && v in u.mem.store.refresh
      ensures MinterOf(u.threads[r]) != Some(u.mem.store.refresh[v].family)
    {
      if r != t && added == Some(v) {
        assert MinterOf(s.threads[r]) != MinterOf(s.threads[t]);
      }
    }
  }

  lemma StepKeepsFamilies(s: State, e: Event)
    requires StoreOK(s.mem) && ThreadsOK(s) && FamiliesOK(s) && Enabled(s, e) && e.Step?
    ensures FamiliesOK(Do(s, e))
  {
    var eff := EffectOf(s, e);
    RefreshAfter(s.mem, eff);
    PutRefreshIsMinting(s, e);
    StepMintsAlone(s, e);
    assert eff.PutRefresh? ==> eff.value in Do(s, e).mem.store.refresh;
    hide StoreOK, ThreadsOK, FamiliesOK, MintsAlone, Perform, Act, Fresh, MinterOf, Founding;
    FamiliesAfter(s, Do(s, e), e.t, if eff.PutRefresh? then Some(eff.value) else None);
  }

  lemma PutRefreshIsMinting(s: State, e: Event)
    requires StoreOK(s.mem) && ThreadsOK(s) && Enabled(s, e) && e.Step?
    ensures var eff := EffectOf(s, e); eff.PutRefresh? ==>
              MinterOf(s.threads[e.t]) == Some(eff.token.family) && MinterOf(Do(s, e).threads[e.t]) == None
  {
    hide StoreOK, ThreadOK, Perform, Act;
    ActMints(s.mem, e.t, s.threads[e.t], e.draw);
  }

  lemma DoKeepsFamilies(s: State, e: Event)
    requires StoreOK(s.mem) && ThreadsOK(s) && FamiliesOK(s) && Enabled(s, e)
    ensures FamiliesOK(Do(s, e))
  {
    hide StoreOK, ThreadsOK, Perform, Act, Fresh;
    if e.Step? {
      StepKeepsFamilies(s, e);
    } else {
      RefreshAfter(s.mem, EffectOf(s, e));
    }
  }

  // ---------------------------------------------------------------- revoked families

  /** No record and no tombstone of the family is left. */
  ghost predicate Empty(m: Mem, f: string) {
    && (forall v | v in m.store.access :: m.store.access[v].family != f)
    && (forall v | v in m.store.refresh :: m.store.refresh[v].family != f)
    && (forall v | v in m.store.tombs :: m.store.tombs[v].family != f)
  }

  ghost predicate DeadOK(s: State) {
    forall f | f in s.mem.dead :: Empty(s.mem, f) && forall t | t in s.threads :: MinterOf(s.threads[t]) != Some(f)
  }

  lemma EmptyAfter(s: Mem, eff: Effect, f: string)
    requires Empty(s, f)
    requires eff.PutAccess? || eff.PutRefresh? ==> eff.token.family != f
    ensures Empty(Perform(s, eff), f)
  {
    hide DevicesAfter, LocksAfter, SeenAfter, GrantedAfter;
  }

  /** Access records are saved only by a thread minting into their family. */
  lemma PutAccessIsMinting(s: Mem, t: nat, pc: Pc, d: Draw)
    requires ThreadOK(s, pc) && Fresh(s, d)
    ensures var m := Act(s, t, pc, d);
            m.eff.PutAccess? ==> MinterOf(pc) == Some(m.eff.token.family) || m.eff.token.family !in s.seen
    ensures var m := Act(s, t, pc, d);
            m.eff.RevokeFamily? ==> pc == Reusing(m.eff.family, FamilyKey(m.eff.family)) && MinterOf(m.pc) == None
  {
    hide WhoseOK, EpochOK, KeyOK, WroteOK, PairOK, OutcomeOK, Proper, Under;
  }

  /** Whoever detected the reuse holds the family lock, so nobody is minting into the family. */
  lemma ReuserIsAlone(s: State, t: nat, r: nat)
    requires StoreOK(s.mem) && ThreadsOK(s) && LocksOK(s) && FamiliesOK(s)
    requires t in s.threads && r in s.threads && s.threads[t].Reusing?
    ensures MinterOf(s.threads[r]) != Some(s.threads[t].family)
  {
    hide StoreOK, WhoseOK, EpochOK, KeyOK, WroteOK, PairOK, OutcomeOK, Proper, Under;
    assert ThreadOK(s.mem, s.threads[t]) && ThreadOK(s.mem, s.threads[r]);
  }

  lemma RevokedIsEmpty(s: Mem, f: string)
    requires f != ""
    ensures Empty(Perform(s, RevokeFamily(f)), f)
  {
  }

  lemma StepKeepsDead(s: State, e: Event, f: string)
    requires StoreOK(s.mem) && ThreadsOK(s) && LocksOK(s) && FamiliesOK(s) && DeadOK(s) && Enabled(s, e) && e.Step?
    requires f in Do(s, e).mem.dead
    ensures Empty(Do(s, e).mem, f) && MinterOf(Do(s, e).threads[e.t]) != Some(f)
    ensures forall t | t in s.threads && t != e.t :: MinterOf(s.threads[t]) != Some(f)
  {
    var pc := s.threads[e.t];
    var eff := EffectOf(s, e);
    assert ThreadOK(s.mem, pc);
    ActMints(s.mem, e.t, pc, e.draw);
    PutAccessIsMinting(s.mem, e.t, pc, e.draw);
    FamilyIsSeen(s.mem);
    EventOK(s, e);
    if f in s.mem.dead {
      EmptyAfter(s.mem, eff, f);
    } else {
      assert eff == RevokeFamily(f);
      RevokedIsEmpty(s.mem, f);
      forall t | t in s.threads
        ensures MinterOf(s.threads[t]) != Some(f)
      {
        ReuserIsAlone(s, e.t, t);
      }
    }
  }

  lemma FamilyIsSeen(s: Mem)
    requires StoreOK(s)
    ensures s.dead <= s.born <= s.seen
    ensures "" !in s.born
  {
  }

  lemma DoKeepsDead(s: State, e: Event)
    requires StoreOK(s.mem) && ThreadsOK(s) && LocksOK(s) && FamiliesOK(s) && DeadOK(s) && Enabled(s, e)
    ensures DeadOK(Do(s, e))
  {
    hide StoreOK, ThreadsOK, LocksOK, FamiliesOK, Perform, Act, Fresh, Empty, Arrives, Ambient;
    var u := Do(s, e);
    forall f | f in u.mem.dead
      ensures Empty(u.mem, f) && forall t | t in u.threads :: MinterOf(u.threads[t]) != Some(f)
    {
      if e.Step? {
        StepKeepsDead(s, e, f);
      } else {
        QuietDead(s, e);
        EmptyAfter(s.mem, EffectOf(s, e), f);
      }
    }
  }

  lemma QuietDead(s: State, e: Event)
    requires Enabled(s, e) && !e.Step?
    ensures Do(s, e).mem.dead == s.mem.dead && !EffectOf(s, e).PutAccess? && !EffectOf(s, e).PutRefresh?
    ensures e.Submit? ==> MinterOf(Do(s, e).threads[e.t]) == None
  {
  }

  // ---------------------------------------------------------------- single use

  function OutcomeJob(o: Outcome): Option<Job> {
    match o
    case StoreError(lost) => lost
    case Issued(job, _, _) => Some(job)
    case RolledBack(job, _, _) => Some(job)
    case _ => None
  }

  /** The claim a thread has won, from the claim to the end of the thread. */
  function JobOf(pc: Pc): Option<Job> {
    match pc
    case Minting(job) => Some(job)
    case SavedAccess(job, _, _) => Some(job)
    case SavedPair(job, _, _) => Some(job)
    case UndoAccess(job, _) => Some(job)
    case RollAccess(job, _, _) => Some(job)
    case RollRefresh(job, _, _, _) => Some(job)
    case Leaving(_, o) => OutcomeJob(o)
    case Done(o) => OutcomeJob(o)
    case _ => None
  }

  ghost predicate OriginsOK(s: State) {
    forall t, r | t in s.threads && r in s.threads && t != r ::
      JobOf(s.threads[t]).Some? && JobOf(s.threads[r]).Some? ==>
        JobOf(s.threads[t]).value.origin != JobOf(s.threads[r]).value.origin
  }

  predicate Claimable(s: Mem, o: Origin) {
    match o
    case FromCode(v) => v in s.store.codes
    case FromDevice(v) => v in s.devices
    case FromRefresh(v) => v in s.store.refresh
  }

  lemma JobIsSpent(s: Mem, pc: Pc)
    requires ThreadOK(s, pc) && JobOf(pc).Some?
    ensures JobOK(s, JobOf(pc).value) && !Claimable(s, JobOf(pc).value.origin)
  {
    hide WhoseOK, EpochOK, KeyOK, WroteOK, Proper, Under;
  }

  lemma ActClaims(s: Mem, t: nat, pc: Pc, d: Draw)
    requires ThreadOK(s, pc)
    ensures var m := Act(s, t, pc, d);
            JobOf(m.pc).Some? ==> JobOf(m.pc) == JobOf(pc) || Claimable(s, JobOf(m.pc).value.origin)
  {
    hide WhoseOK, EpochOK, KeyOK, WroteOK, PairOK, OutcomeOK, Proper, Under;
  }

  lemma DoKeepsOrigins(s: State, e: Event)
    requires ThreadsOK(s) && OriginsOK(s) && Enabled(s, e)
    ensures OriginsOK(Do(s, e))
  {
    var u := Do(s, e);
    hide ThreadOK, Perform, Act, Fresh, JobOK;
    if e.Step? {
      var pc := s.threads[e.t];
      ActClaims(s.mem, e.t, pc, e.draw);
      forall r | r in s.threads && r != e.t && JobOf(s.threads[r]).Some? && JobOf(u.threads[e.t]).Some?
        ensures JobOf(s.threads[r]).value.origin != JobOf(u.threads[e.t]).value.origin
      {
        JobIsSpent(s.mem, s.threads[r]);
      }
    }
  }

  // ---------------------------------------------------------------- revocation against issuance

  /** What a thread has answered, once it has passed its last decision. */
  function Answer(pc: Pc): Option<Outcome> {
    match pc
    case Leaving(_, o) => Some(o)
    case Done(o) => Some(o)
    case _ => None
  }

  /** The pair was issued under an epoch that the revocation's bump has passed. */
  ghost predicate Overtaken(o: Outcome, g: Outcome) {
    o.Issued? && g.GrantRevoked? && g.subject == o.job.subject && g.client == o.job.client && o.job.epoch < g.bump
  }

  /** A pair issued under an epoch that a completed revocation has overtaken is not live. */
  ghost predicate EpochsOK(s: State) {
    forall t, r | t in s.threads && r in s.threads && Answer(s.threads[t]).Some? && Answer(s.threads[r]).Some? ::
      Overtaken(Answer(s.threads[t]).value, Answer(s.threads[r]).value) ==>
        Answer(s.threads[t]).value.at !in s.mem.store.access && Answer(s.threads[t]).value.rt !in s.mem.store.refresh
  }

  /** A thread's answer is new only when it has just checked the epoch, or just deleted the grant. */
  lemma ActAnswers(s: Mem, t: nat, pc: Pc, d: Draw)
    requires ThreadOK(s, pc)
    ensures var m := Act(s, t, pc, d);
            && (Answer(pc).Some? ==> Answer(m.pc) == Answer(pc))
            && (Answer(pc).None? && Answer(m.pc).Some? ==>
                  && (Answer(m.pc).value.Issued? ==>
                        EpochOf(s, Answer(m.pc).value.job.subject, Answer(m.pc).value.job.client) ==
                          Answer(m.pc).value.job.epoch)
                  && (Answer(m.pc).value.GrantRevoked? ==>
                        m.eff == DeleteGrant(Answer(m.pc).value.subject, Answer(m.pc).value.client)))
  {
    hide WhoseOK, EpochOK, KeyOK, WroteOK, JobOK, PairOK, OutcomeOK, Proper, Under;
  }

  lemma IssuedIsMatched(s: Mem, pc: Pc)
    requires ThreadOK(s, pc) && Answer(pc).Some?
    ensures OutcomeOK(s, Answer(pc).value)
  {
  }

  lemma DeleteGrantKills(s: Mem, job: Job, at: string, rt: string)
    requires PairOK(s, job, at, rt)
    ensures var u := Perform(s, DeleteGrant(job.subject, job.client)); at !in u.store.access && rt !in u.store.refresh
  {
    hide JobOK, DevicesAfter, LocksAfter, SeenAfter, GrantedAfter;
  }

  lemma OvertakenIsDead(s: State, e: Event, t: nat, r: nat)
    requires StoreOK(s.mem) && ThreadsOK(s) && EpochsOK(s) && Enabled(s, e)
    requires t in s.threads && r in s.threads
    requires Answer(Do(s, e).threads[t]).Some? && Answer(Do(s, e).threads[r]).Some?
    requires Overtaken(Answer(Do(s, e).threads[t]).value, Answer(Do(s, e).threads[r]).value)
    ensures var o := Answer(Do(s, e).threads[t]).value;
            o.at !in Do(s, e).mem.store.access && o.rt !in Do(s, e).mem.store.refresh
  {
    hide StoreOK, ThreadOK, Perform, Act, Fresh, PairOK, JobOK, Extends, Arrives, Ambient;
    var u := Do(s, e);
    var o, g := Answer(u.threads[t]).value, Answer(u.threads[r]).value;
    assert t != r;
    DoKeepsOK(s, e);
    if e.Step? {
      ActAnswers(s.mem, e.t, s.threads[e.t], e.draw);
    }
    if Answer(s.threads[r]).None? {
      IssuedIsMatched(s.mem, s.threads[t]);
      DeleteGrantKills(s.mem, o.job, o.at, o.rt);
    } else {
      IssuedIsMatched(s.mem, s.threads[r]);
      assert Answer(s.threads[t]) == Some(o);
      IssuedIsMatched(s.mem, s.threads[t]);
      PairSeen(s.mem, o.job, o.at, o.rt);
      ExtendsKeepsPair(s.mem, u.mem, o.job, o.at, o.rt);
    }
  }

  lemma DoKeepsEpochs(s: State, e: Event)
    requires StoreOK(s.mem) && ThreadsOK(s) && EpochsOK(s) && Enabled(s, e)
    ensures EpochsOK(Do(s, e))
  {
    var u := Do(s, e);
    hide StoreOK, ThreadsOK, Perform, Act, Fresh;
    forall t, r | t in u.threads && r in u.threads && Answer(u.threads[t]).Some? && Answer(u.threads[r]).Some?
      ensures Overtaken(Answer(u.threads[t]).value, Answer(u.threads[r]).value) ==>
                Answer(u.threads[t]).value.at !in u.mem.store.access
                  && Answer(u.threads[t]).value.rt !in u.mem.store.refresh
    {
      if Overtaken(Answer(u.threads[t]).value, Answer(u.threads[r]).value) {
        assert t in s.threads && r in s.threads;
        OvertakenIsDead(s, e, t, r);
      }
    }
  }

  // ---------------------------------------------------------------- every reachable state

  ghost predicate Invariant(s: State) {
    StoreOK(s.mem) && ThreadsOK(s) && LocksOK(s) && FamiliesOK(s) && DeadOK(s) && OriginsOK(s) && EpochsOK(s)
  }

  ghost predicate IsRun(ss: seq<State>, es: seq<Event>) {
    && |ss| == |es| + 1
    && ss[0] == Init()
    && forall i | 0 <= i < |es| :: Enabled(ss[i], es[i]) && ss[i + 1] == Do(ss[i], es[i])
  }

  lemma DoKeepsInvariant(s: State, e: Event)
    requires Invariant(s) && Enabled(s, e)
    ensures Invariant(Do(s, e)) && Extends(s.mem, Do(s, e).mem)
  {
    hide StoreOK, ThreadsOK, LocksOK, FamiliesOK, DeadOK, OriginsOK, EpochsOK, Extends, Do;
    DoKeepsOK(s, e);
    DoKeepsLocks(s, e);
    DoKeepsFamilies(s, e);
    DoKeepsDead(s, e);
    DoKeepsOrigins(s, e);
    DoKeepsEpochs(s, e);
  }

  lemma {:induction false} RunKeepsInvariant(ss: seq<State>, es: seq<Event>, i: nat)
    requires IsRun(ss, es) && i < |ss|
    ensures Invariant(ss[i])
  {
    if i > 0 {
      RunKeepsInvariant(ss, es, i - 1);
      hide Invariant, Do, Enabled;
      DoKeepsInvariant(ss[i - 1], es[i - 1]);
    }
  }
}
