/**
 What each request of the token engine does, over every run and in terms of the stored records: what a
 claim must have found, what is refused and left alone, what an issued pair consists of, and what a
 revocation takes away.
 */
module EngineRequests {
  import opened Options
  import opened TokenStore
  import opened Engine
  import opened EngineInv
  import opened EngineSafety
  import opened EngineTheorems
  import opened EngineRevocation

  // ---------------------------------------------------------------- what a claim must have found

  /** The code is this client's, unexpired, for this redirect URI, and the verifier matches its challenge. */
  predicate CodeFits(m: Mem, client: string, v: string, redirect: string, verifier: string) {
    && v in m.store.codes && m.now < m.store.codes[v].expires
    && m.store.codes[v].client == client && m.store.codes[v].redirect == redirect
    && verifier != "" && m.store.codes[v].challenge == S256(verifier)
  }

  /** The exchange at `pc` wins this job from its code. */
  ghost predicate WinsCode(m: Mem, pc: Pc, job: Job) {
    && pc.Captured? && pc.req.Exchange? && CodeFits(m, pc.req.client, pc.req.value, pc.req.redirect, pc.req.verifier)
    && var c := m.store.codes[pc.req.value];
       job == Job(FromCode(pc.req.value), c.client, c.subject, c.scopes, None, None, pc.epoch)
  }

  /** The poll at `pc` wins this job from its approved device request. */
  ghost predicate WinsDevice(m: Mem, pc: Pc, job: Job) {
    && pc.Captured? && pc.req.Poll? && pc.req.value in m.devices
    && var d := m.devices[pc.req.value];
       && d.status == Approved && d.client == pc.req.client
       && job == Job(FromDevice(pc.req.value), d.client, d.subject, d.scopes, None, None, pc.epoch)
  }

  /** The refresh at `pc` wins this job: the asked scopes when it asks for any, and never wider ones. */
  ghost predicate WinsRefresh(m: Mem, pc: Pc, job: Job) {
    && pc.Claiming? && pc.req.Refresh? && pc.req.value in m.store.refresh
    && var rt := m.store.refresh[pc.req.value];
       && m.now < rt.expires && rt.client == pc.req.client
       && (if pc.req.scopes == [] then job.scopes == rt.scopes
           else job.scopes == pc.req.scopes && forall sc | sc in job.scopes :: sc in rt.scopes)
       && job == Job(FromRefresh(pc.req.value), rt.client, rt.subject, job.scopes, Some(rt.family), Some(pc.key),
                     pc.epoch)
  }

  /** At step `k` the thread, acting on its request, wins the job. */
  ghost predicate Wins(ss: seq<State>, es: seq<Event>, k: nat, t: nat, req: Request, job: Job) {
    && k < |es| < |ss| && es[k].Step? && es[k].t == t && es[k].draw.ok && t in ss[k].threads
    && RequestOf(ss[k].threads[t]) == Some(req)
    && var m, pc := ss[k].mem, ss[k].threads[t];
       WinsCode(m, pc, job) || WinsDevice(m, pc, job) || WinsRefresh(m, pc, job)
  }

  /** The request a thread is still to spend. */
  function RequestOf(pc: Pc): Option<Request> {
    match pc
    case Start(req) => Some(req)
    case Looked(req) => Some(req)
    case Ready(req, _) => Some(req)
    case Captured(req, _, _) => Some(req)
    case Waiting(req, _, _, _) => Some(req)
    case Claiming(req, _, _, _) => Some(req)
    case _ => None
  }

  /** A step keeps the request, or wins a job from it, or is past it. */
  lemma ActWins(s: Mem, t: nat, pc: Pc, d: Draw)
    requires ThreadOK(s, pc)
    ensures var n := Act(s, t, pc, d).pc;
            && (RequestOf(n).Some? ==> RequestOf(n) == RequestOf(pc))
            && (JobOf(n).Some? && JobOf(n) != JobOf(pc) ==>
                  d.ok && RequestOf(pc).Some? &&
                  (WinsCode(s, pc, JobOf(n).value) || WinsDevice(s, pc, JobOf(n).value)
                   || WinsRefresh(s, pc, JobOf(n).value)))
  {
    hide WhoseOK, EpochOK, KeyOK, WroteOK, PairOK, OutcomeOK, JobOK, Proper, Under, KeyFor, EpochOf;
  }

  lemma {:induction false} RunCarriesRequest(ss: seq<State>, es: seq<Event>, i: nat, k: nat, t: nat)
    requires IsRun(ss, es) && i <= k < |ss| && t in ss[i].threads && ss[i].threads[t].Start?
    ensures t in ss[k].threads
    ensures RequestOf(ss[k].threads[t]).Some? ==> RequestOf(ss[k].threads[t]).value == ss[i].threads[t].req
  {
    hide IsRun, ThreadOK, Act, Perform, Fresh, Arrives, Ambient, Extends;
    if i < k {
      RunStep(ss, es, k - 1);
      RunCarriesRequest(ss, es, i, k - 1, t);
      var s, e := ss[k - 1], es[k - 1];
      if e.Step? && e.t == t {
        ActWins(s.mem, t, s.threads[t], e.draw);
      }
    }
  }

  /**
   Whatever a request goes on to mint, it has won itself at one of its own steps, from a record that
   fitted the request there and then, and the job is what that record and the request say.
   */
  lemma {:induction false} JobWasWon(ss: seq<State>, es: seq<Event>, i: nat, q: nat, t: nat)
    requires IsRun(ss, es) && i <= q < |ss| && t in ss[i].threads && ss[i].threads[t].Start?
    requires t in ss[q].threads && JobOf(ss[q].threads[t]).Some?
    ensures exists k | i <= k < q :: Wins(ss, es, k, t, ss[i].threads[t].req, JobOf(ss[q].threads[t]).value)
  {
    hide IsRun, ThreadOK, Act, Perform, Fresh, Arrives, Ambient, Extends, WinsCode, WinsDevice, WinsRefresh;
    hide StoreOK, LocksOK, FamiliesOK, DeadOK, OriginsOK, EpochsOK;
    if i < q {
      RunStep(ss, es, q - 1);
      RunCarriesRequest(ss, es, i, q - 1, t);
      var s, e := ss[q - 1], es[q - 1];
      if e.Step? && e.t == t {
        ActWins(s.mem, t, s.threads[t], e.draw);
        if JobOf(s.threads[t]) == JobOf(ss[q].threads[t]) {
          JobWasWon(ss, es, i, q - 1, t);
        } else {
          assert Wins(ss, es, q - 1, t, ss[i].threads[t].req, JobOf(ss[q].threads[t]).value);
        }
      } else {
        JobWasWon(ss, es, i, q - 1, t);
      }
    }
  }

  /** In particular a code is spent only with its own client, redirect URI and verifier, before its deadline. */
  lemma CodeWasProved(ss: seq<State>, es: seq<Event>, i: nat, q: nat, t: nat, v: string)
    requires IsRun(ss, es) && i <= q < |ss| && t in ss[i].threads && ss[i].threads[t].Start?
    requires t in ss[q].threads && JobOf(ss[q].threads[t]).Some?
    requires JobOf(ss[q].threads[t]).value.origin == FromCode(v)
    ensures var req := ss[i].threads[t].req;
            && req.Exchange? && req.value == v
            && exists k | i <= k < q ::
                 && StepsAt(ss, es, k, t) && ss[k].threads[t].Captured? && ss[k].threads[t].req == req
                 && v in ss[k].mem.store.codes
                 && var c := ss[k].mem.store.codes[v];
                    && ss[k].mem.now < c.expires && c.client == req.client && c.redirect == req.redirect
                    && req.verifier != "" && c.challenge == S256(req.verifier)
  {
    JobWasWon(ss, es, i, q, t);
    var k :| i <= k < q && Wins(ss, es, k, t, ss[i].threads[t].req, JobOf(ss[q].threads[t]).value);
  }

  lemma RunStarts(ss: seq<State>, es: seq<Event>)
    requires IsRun(ss, es)
    ensures |ss| == |es| + 1 && ss[0].threads == map[]
  {
  }

  /** One step of one thread, and what is known of it. */
  lemma StepOf(ss: seq<State>, es: seq<Event>, i: nat, t: nat)
    requires IsRun(ss, es) && StepsAt(ss, es, i, t)
    ensures i + 1 < |ss| && StoreOK(ss[i].mem) && ThreadOK(ss[i].mem, ss[i].threads[t])
    ensures var x := Act(ss[i].mem, t, ss[i].threads[t], es[i].draw);
            ss[i + 1] == State(Perform(ss[i].mem, x.eff), ss[i].threads[t := x.pc])
  {
    hide StoreOK, ThreadOK, LocksOK, FamiliesOK, DeadOK, OriginsOK, EpochsOK, Act, Perform, Fresh, Extends;
    RunStep(ss, es, i);
  }

  // ---------------------------------------------------------------- what is judged before anything is spent

  /** The step at which a request that has arrived is judged. */
  ghost predicate Judges(ss: seq<State>, es: seq<Event>, i: nat, t: nat, req: Request) {
    StepsAt(ss, es, i, t) && es[i].draw.ok && ss[i].threads[t] == Start(req)
  }

  /** An exchange goes on exactly when its code fits; the code stays where it is either way. */
  lemma ExchangeIsJudged(ss: seq<State>, es: seq<Event>, i: nat, t: nat, req: Request)
    requires IsRun(ss, es) && Judges(ss, es, i, t, req) && req.Exchange?
    ensures var m, v := ss[i].mem, req.value;
            if && v in m.store.codes && m.now < m.store.codes[v].expires && m.store.codes[v].client == req.client
               && m.store.codes[v].redirect == req.redirect && req.verifier != ""
               && m.store.codes[v].challenge == S256(req.verifier)
            then ss[i + 1].threads[t] == Ready(req, Some(m.store.codes[v].subject))
            else ss[i + 1].threads[t] == Done(Refused)
    ensures ss[i + 1].mem == ss[i].mem
  {
    hide Perform;
    assert ss[i + 1] == Do(ss[i], es[i]);
    NothingIsNothing(ss[i].mem);
  }

  /** A poll is answered from the record: approved goes on, pending is stamped unless it comes too soon. */
  lemma PollIsJudged(ss: seq<State>, es: seq<Event>, i: nat, t: nat, req: Request)
    requires IsRun(ss, es) && Judges(ss, es, i, t, req) && req.Poll?
    ensures var m, v, n := ss[i].mem, req.value, ss[i + 1].threads[t];
            if v !in m.devices || m.devices[v].client != req.client || m.devices[v].expires <= m.now
                then n == Done(Refused)
            else
              && (m.devices[v].status == Denied ==> n == Done(Refused))
              && (m.devices[v].status == Approved ==> n == Ready(req, Some(m.devices[v].subject)))
              && (m.devices[v].status == Pending ==>
                    n == if m.devices[v].lastPoll.Some? && m.now - m.devices[v].lastPoll.value < 5 then Done(Refused)
                         else Polling(v))
    ensures ss[i + 1].mem == ss[i].mem
  {
    hide Perform;
    assert ss[i + 1] == Do(ss[i], es[i]);
    NothingIsNothing(ss[i].mem);
  }

  /** A refresh of what is live for another client is refused; anything else goes on. */
  lemma RefreshIsJudged(ss: seq<State>, es: seq<Event>, i: nat, t: nat, req: Request)
    requires IsRun(ss, es) && Judges(ss, es, i, t, req) && req.Refresh?
    ensures var s, v := ss[i].mem.store, req.value;
            ss[i + 1].threads[t] ==
              if (v in s.access && s.access[v].client != req.client)
                  || (v in s.refresh && s.refresh[v].client != req.client)
              then Done(Refused) else Looked(req)
    ensures ss[i + 1].mem == ss[i].mem
  {
    hide Perform;
    RunKeepsInvariant(ss, es, i);
    assert ss[i + 1] == Do(ss[i], es[i]);
    NothingIsNothing(ss[i].mem);
    assert DistinctOK(ss[i].mem);
  }

  /** The grant whose epoch a refresh captures is that of the record it presents. */
  lemma RefreshIsLookedUp(ss: seq<State>, es: seq<Event>, i: nat, t: nat)
    requires IsRun(ss, es) && StepsAt(ss, es, i, t) && ss[i].threads[t].Looked?
    ensures var req, s := ss[i].threads[t].req, ss[i].mem.store;
            ss[i + 1].threads[t] ==
              if es[i].draw.ok && req.value in s.refresh then Ready(req, Some(s.refresh[req.value].subject))
              else Captured(req, None, 0)
    ensures ss[i + 1].mem == ss[i].mem
  {
    hide Perform;
    assert ss[i + 1] == Do(ss[i], es[i]);
    NothingIsNothing(ss[i].mem);
  }

  /** It then goes for the lock of the value's family, live or spent, or of the value itself if it has none. */
  lemma RefreshGoesForItsLock(ss: seq<State>, es: seq<Event>, i: nat, t: nat)
    requires IsRun(ss, es) && StepsAt(ss, es, i, t) && es[i].draw.ok
    requires ss[i].threads[t].Captured? && ss[i].threads[t].req.Refresh?
    ensures var pc, m := ss[i].threads[t], ss[i].mem;
            var v, n := pc.req.value, ss[i + 1].threads[t];
            && n.Waiting? && n.req == pc.req && n.whose == pc.whose && n.epoch == pc.epoch && ss[i + 1].mem == m
            && n.key == if v in m.store.refresh then FamilyKey(m.store.refresh[v].family)
                        else if v in m.store.tombs && m.now < m.store.tombs[v].expires
                        then FamilyKey(m.store.tombs[v].family) else ValueKey(v)
  {
    hide IsRun, Perform, CodesOK, DevicesOK, WhoseOK, EpochOK, OwnedOK, Proper, Under;
    StepOf(ss, es, i, t);
    NothingIsNothing(ss[i].mem);
    FamilyIsSeen(ss[i].mem);
  }

  /** It waits while the lock is taken, and takes it when it is free. */
  lemma RefreshTakesItsLock(ss: seq<State>, es: seq<Event>, i: nat, t: nat)
    requires IsRun(ss, es) && StepsAt(ss, es, i, t) && ss[i].threads[t].Waiting?
    ensures var pc, m, n := ss[i].threads[t], ss[i].mem, ss[i + 1];
            && (pc.key in m.locks ==> n.threads[t] == pc && n.mem == m)
            && (pc.key !in m.locks ==>
                  && n.threads[t] == Claiming(pc.req, pc.whose, pc.epoch, pc.key)
                  && n.mem == m.(locks := m.locks[pc.key := t]))
  {
    hide IsRun, StoreOK, ThreadOK;
    StepOf(ss, es, i, t);
  }

  /** What a request has won it never loses sight of: it answers with the pair, or with what it could not issue. */
  lemma {:induction false} JobStays(ss: seq<State>, es: seq<Event>, i: nat, k: nat, t: nat)
    requires IsRun(ss, es) && i <= k < |ss| && t in ss[i].threads && JobOf(ss[i].threads[t]).Some?
    ensures t in ss[k].threads && JobOf(ss[k].threads[t]) == JobOf(ss[i].threads[t])
  {
    hide IsRun, Act, Perform, Fresh, Arrives, Ambient, Extends, Invariant, JobOf;
    if i < k {
      RunStep(ss, es, k - 1);
      JobStays(ss, es, i, k - 1, t);
      var s, e := ss[k - 1], es[k - 1];
      if e.Step? && e.t == t {
        ActKeepsJob(s.mem, t, s.threads[t], e.draw);
      }
    }
  }

  lemma ActKeepsJob(s: Mem, t: nat, pc: Pc, d: Draw)
    requires JobOf(pc).Some?
    ensures JobOf(Act(s, t, pc, d).pc) == JobOf(pc)
  {
    hide EpochOf;
  }

  // ---------------------------------------------------------------- what a claim answers

  /** A code is handed out once: whoever claims it has it, and mints from it exactly if it fits. */
  lemma ExchangeIsClaimed(ss: seq<State>, es: seq<Event>, i: nat, t: nat)
    requires IsRun(ss, es) && StepsAt(ss, es, i, t) && es[i].draw.ok
    requires ss[i].threads[t].Captured? && ss[i].threads[t].req.Exchange?
    ensures var pc, m, u := ss[i].threads[t], ss[i].mem, ss[i + 1];
            && (if CodeFits(m, pc.req.client, pc.req.value, pc.req.redirect, pc.req.verifier)
                then u.threads[t].Minting? && WinsCode(m, pc, u.threads[t].job)
                else u.threads[t] == Done(Refused))
            && u.mem.store == m.store.(codes := m.store.codes - {pc.req.value})
  {
    assert ss[i + 1] == Do(ss[i], es[i]);
    hide DevicesAfter, LocksAfter, SeenAfter, GrantedAfter;
  }

  lemma PollClaim(m: Mem, t: nat, pc: Pc, d: Draw)
    requires ThreadOK(m, pc) && pc.Captured? && pc.req.Poll? && d.ok
    ensures var v := Act(m, t, pc, d);
            if pc.req.value in m.devices && m.devices[pc.req.value].status == Approved
            then v.pc.Minting? && WinsDevice(m, pc, v.pc.job) && v.eff == TakeDevice(pc.req.value)
            else v == Move(Done(Refused), Nothing)
  {
  }

  /** An approved device request is redeemed by the poll that removes it. */
  lemma PollIsClaimed(ss: seq<State>, es: seq<Event>, i: nat, t: nat)
    requires IsRun(ss, es) && StepsAt(ss, es, i, t) && es[i].draw.ok
    requires ss[i].threads[t].Captured? && ss[i].threads[t].req.Poll?
    ensures var pc, m, u := ss[i].threads[t], ss[i].mem, ss[i + 1];
            if pc.req.value in m.devices && m.devices[pc.req.value].status == Approved
            then u.threads[t].Minting? && WinsDevice(m, pc, u.threads[t].job)
              && u.mem.devices == m.devices - {pc.req.value}
            else u.threads[t] == Done(Refused) && u.mem == m
  {
    hide IsRun, Act, WinsDevice, StoreAfter, LocksAfter, SeenAfter, GrantedAfter, StoreOK, ThreadOK;
    StepOf(ss, es, i, t);
    NothingIsNothing(ss[i].mem);
    PollClaim(ss[i].mem, t, ss[i].threads[t], es[i].draw);
  }

  /** The record of a refresh value that its claim rotates. */
  predicate RefreshFits(m: Mem, req: Request)
    requires req.Refresh?
  {
    && req.value in m.store.refresh && m.now < m.store.refresh[req.value].expires
    && m.store.refresh[req.value].client == req.client
    && forall sc | sc in req.scopes :: sc in m.store.refresh[req.value].scopes
  }

  lemma RefreshClaims(m: Mem, t: nat, pc: Pc, d: Draw)
    requires ThreadOK(m, pc) && pc.Claiming? && pc.req.Refresh? && d.ok
    ensures var v, x := pc.req.value, Act(m, t, pc, d);
            if v in m.store.refresh then
              && x.eff == TakeRefresh(v)
              && (if RefreshFits(m, pc.req) then x.pc.Minting? && WinsRefresh(m, pc, x.pc.job)
                  else x.pc == Leaving(Some(pc.key), Refused))
            else
              && x.eff == Nothing
              && x.pc == if v in m.store.tombs && m.now < m.store.tombs[v].expires
                         then Reusing(m.store.tombs[v].family, pc.key) else Leaving(Some(pc.key), Refused)
  {
    hide KeyOK, WhoseOK;
  }

  lemma TakesRefresh(m: Mem, v: string)
    requires v in m.store.refresh
    ensures var s, n := m.store, Perform(m, TakeRefresh(v)).store;
            && n.refresh == s.refresh - {v} && n.access == s.access && n.codes == s.codes
            && n.tombs == s.tombs[v := Tomb(s.refresh[v].family, s.refresh[v].client, s.refresh[v].subject,
                                            s.refresh[v].expires)]
  {
    hide DevicesAfter, LocksAfter, SeenAfter, GrantedAfter;
  }

  /** A refresh rotates a live value it may have, is caught presenting a spent one, or is refused. */
  lemma RefreshIsClaimed(ss: seq<State>, es: seq<Event>, i: nat, t: nat)
    requires IsRun(ss, es) && StepsAt(ss, es, i, t) && es[i].draw.ok
    requires ss[i].threads[t].Claiming? && ss[i].threads[t].req.Refresh?
    ensures var pc, s, n, next := ss[i].threads[t], ss[i].mem.store, ss[i + 1].mem.store, ss[i + 1].threads[t];
            var v := pc.req.value;
            if v in s.refresh then
              && (if RefreshFits(ss[i].mem, pc.req) then next.Minting? && WinsRefresh(ss[i].mem, pc, next.job)
                  else next == Leaving(Some(pc.key), Refused))
              && n.refresh == s.refresh - {v} && n.access == s.access && n.codes == s.codes
              && n.tombs == s.tombs[v := Tomb(s.refresh[v].family, s.refresh[v].client, s.refresh[v].subject,
                                              s.refresh[v].expires)]
            else
              && n == s
              && next == if v in s.tombs && ss[i].mem.now < s.tombs[v].expires then Reusing(s.tombs[v].family, pc.key)
                         else Leaving(Some(pc.key), Refused)
  {
    RunKeepsInvariant(ss, es, i);
    var pc, m := ss[i].threads[t], ss[i].mem;
    assert ThreadOK(m, pc);
    assert ss[i + 1] == Do(ss[i], es[i]);
    RefreshClaims(m, t, pc, es[i].draw);
    NothingIsNothing(m);
    if pc.req.value in m.store.refresh {
      TakesRefresh(m, pc.req.value);
    }
    hide IsRun, Invariant, ThreadOK, Act, Perform, WinsRefresh, Fresh, RefreshFits;
  }

  // ---------------------------------------------------------------- what an issued pair consists of

  /** At step `a` the thread saves the access record of its job, in the family it is to join or a new one. */
  ghost predicate SavesAccessAt(ss: seq<State>, es: seq<Event>, a: nat, t: nat, job: Job, family: string, at: string) {
    && StepsAt(ss, es, a, t) && a + 1 < |ss| && at in ss[a + 1].mem.store.access && at !in ss[a].mem.seen
    && ss[a + 1].mem.store.access[at].(expires := 0) ==
       Token(job.client, job.subject, job.scopes, family, ss[a].mem.now, 0)
    && ss[a + 1].mem.store.access[at].expires == ss[a].mem.now + es[a].draw.ttl
    && (if job.family.Some? then family == job.family.value else family !in ss[a].mem.seen)
  }

  /** At step `n` it saves the refresh record, with the same fields and in the same family. */
  ghost predicate SavesRefreshAt(ss: seq<State>, es: seq<Event>, n: nat, t: nat, job: Job, family: string, rt: string) {
    && StepsAt(ss, es, n, t) && n + 1 < |ss| && rt in ss[n + 1].mem.store.refresh && rt !in ss[n].mem.seen
    && ss[n + 1].mem.store.refresh[rt].(expires := 0) ==
       Token(job.client, job.subject, job.scopes, family, ss[n].mem.now, 0)
    && ss[n + 1].mem.store.refresh[rt].expires == ss[n].mem.now + es[n].draw.ttl
  }

  lemma SavesStep(s: State, e: Event)
    requires Enabled(s, e) && e.Step? && StoreOK(s.mem) && ThreadOK(s.mem, s.threads[e.t])
    ensures var pc, u, n := s.threads[e.t], Do(s, e), Do(s, e).threads[e.t];
            && (n.SavedAccess? && n != pc ==>
                  && pc == Minting(n.job) && n.at !in s.mem.seen && n.at in u.mem.store.access
                  && u.mem.store.access[n.at] == Token(n.job.client, n.job.subject, n.job.scopes, n.family, s.mem.now,
                                                       s.mem.now + e.draw.ttl)
                  && (if n.job.family.Some? then n.family == n.job.family.value else n.family !in s.mem.seen))
            && (PairOf(n).Some? && PairOf(n) != PairOf(pc) ==>
                  var (job, at, rt) := PairOf(n).value;
                  && pc.SavedAccess? && pc.job == job && pc.at == at && rt !in s.mem.seen && rt in u.mem.store.refresh
                  && u.mem.store.refresh[rt] == Token(job.client, job.subject, job.scopes, pc.family, s.mem.now,
                                                      s.mem.now + e.draw.ttl))
  {
    hide WhoseOK, OwnedOK, EpochOK, KeyOK, WroteOK, PairOK, OutcomeOK, JobOK, Proper, Under, KeyFor, EpochOf, StoreOK;
    hide DevicesAfter, LocksAfter, SeenAfter, GrantedAfter;
  }

  lemma {:induction false} AccessWasSaved(ss: seq<State>, es: seq<Event>, q: nat, t: nat)
    requires IsRun(ss, es) && q < |ss| && t in ss[q].threads && ss[q].threads[t].SavedAccess?
    ensures var pc := ss[q].threads[t]; exists a | 0 <= a < q :: SavesAccessAt(ss, es, a, t, pc.job, pc.family, pc.at)
  {
    hide IsRun, ThreadOK, StoreOK, Act, Perform, Fresh, Ambient, Extends, LocksOK, FamiliesOK, DeadOK, OriginsOK;
    hide EpochsOK;
    RunStarts(ss, es);
    if q > 0 {
      RunStep(ss, es, q - 1);
      var s, e, pc := ss[q - 1], es[q - 1], ss[q].threads[t];
      if e.Step? && e.t == t && s.threads[t] != pc {
        SavesStep(s, e);
        assert SavesAccessAt(ss, es, q - 1, t, pc.job, pc.family, pc.at);
      } else {
        AccessWasSaved(ss, es, q - 1, t);
      }
    }
  }

  /** The two records of a pair: what the job says, issued at their saves, fresh values in one family. */
  ghost predicate SavesPair(ss: seq<State>, es: seq<Event>, a: nat, n: nat, t: nat, family: string,
                            pair: (Job, string, string)) {
    a < n && SavesAccessAt(ss, es, a, t, pair.0, family, pair.1) && SavesRefreshAt(ss, es, n, t, pair.0, family, pair.2)
  }

  lemma {:induction false} PairWasSaved(ss: seq<State>, es: seq<Event>, q: nat, t: nat)
    requires IsRun(ss, es) && q < |ss| && t in ss[q].threads && PairOf(ss[q].threads[t]).Some?
    ensures exists a, n, family | 0 <= a < n < q :: SavesPair(ss, es, a, n, t, family, PairOf(ss[q].threads[t]).value)
  {
    hide IsRun, ThreadOK, StoreOK, Act, Perform, Fresh, Ambient, Extends, LocksOK, FamiliesOK, DeadOK, OriginsOK;
    hide EpochsOK;
    hide SavesAccessAt;
    RunStarts(ss, es);
    if q > 0 {
      RunStep(ss, es, q - 1);
      var s, e := ss[q - 1], es[q - 1];
      if e.Step? && e.t == t && PairOf(s.threads[t]) != PairOf(ss[q].threads[t]) {
        SavesStep(s, e);
        var pc := s.threads[t];
        AccessWasSaved(ss, es, q - 1, t);
        var a :| 0 <= a < q - 1 && SavesAccessAt(ss, es, a, t, pc.job, pc.family, pc.at);
        assert SavesPair(ss, es, a, q - 1, t, pc.family, PairOf(ss[q].threads[t]).value);
      } else {
        PairWasSaved(ss, es, q - 1, t);
      }
    }
  }

  /** An access record whose refresh record could not be saved is taken back. */
  lemma FailedSaveIsUndone(ss: seq<State>, es: seq<Event>, i: nat, j: nat, k: nat, t: nat)
    requires IsRun(ss, es) && i < j < k < |ss| && StepsAt(ss, es, i, t) && StepsAt(ss, es, j, t)
    requires ss[i].threads[t].SavedAccess? && !es[i].draw.ok && es[j].draw.ok
    requires forall x | i < x < j :: !(es[x].Step? && es[x].t == t)
    ensures var pc := ss[i].threads[t];
            && pc.at !in ss[k].mem.store.access
            && t in ss[k].threads && Answer(ss[k].threads[t]) == Some(StoreError(Some(pc.job)))
    ensures ss[i + 1].mem == ss[i].mem
  {
    hide IsRun, Invariant, Do, Enabled, JobOK, Under, ThreadOK, Act, Perform, Extends;
    FailedSaveIsTakenBack(ss, es, i, j, t);
    var pc := ss[i].threads[t];
    SeenStays(ss, es, i, j + 1, pc.at);
    StaysGone(ss, es, j + 1, k, pc.at);
    AnswerStays(ss, es, j + 1, k, t);
  }

  lemma FailedSaveIsTakenBack(ss: seq<State>, es: seq<Event>, i: nat, j: nat, t: nat)
    requires IsRun(ss, es) && i < j < |es| && StepsAt(ss, es, i, t) && StepsAt(ss, es, j, t)
    requires ss[i].threads[t].SavedAccess? && !es[i].draw.ok && es[j].draw.ok
    requires forall x | i < x < j :: !(es[x].Step? && es[x].t == t)
    ensures var pc := ss[i].threads[t];
            && j + 1 < |ss| && ss[i + 1].mem == ss[i].mem && pc.at in ss[i].mem.seen
            && pc.at !in ss[j + 1].mem.store.access
            && t in ss[j + 1].threads && Answer(ss[j + 1].threads[t]) == Some(StoreError(Some(pc.job)))
  {
    hide IsRun, Extends, StoreOK, LocksOK, FamiliesOK, DeadOK, OriginsOK, EpochsOK, Fresh, DevicesAfter, LocksAfter;
    hide GrantedAfter;
    RunStarts(ss, es);
    StepOf(ss, es, i, t);
    StepOf(ss, es, j, t);
    NothingIsNothing(ss[i].mem);
    StandsStill(ss, es, i + 1, j, t);
  }

  lemma {:induction false} StandsStill(ss: seq<State>, es: seq<Event>, i: nat, k: nat, t: nat)
    requires IsRun(ss, es) && i <= k < |ss| && t in ss[i].threads
    requires forall x | i <= x < k :: !(es[x].Step? && es[x].t == t)
    ensures t in ss[k].threads && ss[k].threads[t] == ss[i].threads[t]
  {
    hide Act, Perform, Fresh, Arrives, Ambient;
    if i < k {
      StandsStill(ss, es, i, k - 1, t);
      assert ss[k] == Do(ss[k - 1], es[k - 1]);
    }
  }

  lemma SeenStays(ss: seq<State>, es: seq<Event>, i: nat, k: nat, v: string)
    requires IsRun(ss, es) && i <= k < |ss| && v in ss[i].mem.seen
    ensures v in ss[k].mem.seen
  {
    RunExtends(ss, es, i, k);
  }

  // ---------------------------------------------------------------- what a revocation takes away

  /** The value is the client's: a live record of its own, or the unexpired tombstone of one. */
  predicate Owns(m: Mem, client: string, v: string) {
    || (v in m.store.access && m.store.access[v].client == client)
    || (v in m.store.refresh && m.store.refresh[v].client == client)
    || (v in m.store.tombs && m.now < m.store.tombs[v].expires && m.store.tombs[v].client == client)
  }

  /** Nothing is left of the value, and nothing can come back. */
  predicate Vanished(m: Mem, v: string) {
    v in m.seen && v !in m.store.access && v !in m.store.refresh && v !in m.store.tombs
  }

  /** Where a revocation of a value of its own client has got to. */
  ghost predicate Progress(m: Mem, pc: Pc, client: string, v: string) {
    && v in m.seen
    && (|| pc == DeletingAccess(client, v)
        || (pc == DeletingRefresh(client, v) && v !in m.store.access)
        || (pc == Done(Finished) && Vanished(m, v))
        || pc == Done(StoreError(None)))
  }

  lemma OwningProceeds(m: Mem, t: nat, pc: Pc, d: Draw)
    requires StoreOK(m) && ThreadOK(m, pc) && pc.Owning?
    ensures var x := Act(m, t, pc, d);
            && x.eff == Nothing
            && x.pc == if !d.ok then Done(StoreError(None)) else if Owns(m, pc.client, pc.value)
                       then DeletingAccess(pc.client, pc.value) else Done(Finished)
  {
    hide CodesOK, DevicesOK, HistoryOK;
    assert TombsOK(m) && DistinctOK(m);
  }

  lemma ProgressStep(m: Mem, t: nat, pc: Pc, d: Draw, client: string, v: string)
    requires Progress(m, pc, client, v)
    ensures var x := Act(m, t, pc, d); Progress(Perform(m, x.eff), x.pc, client, v)
  {
    hide DevicesAfter, LocksAfter, GrantedAfter;
  }

  lemma ProgressStays(m: Mem, n: Mem, pc: Pc, client: string, v: string)
    requires Extends(m, n) && Progress(m, pc, client, v)
    ensures Progress(n, pc, client, v)
  {
  }

  lemma {:induction false} RevocationProceeds(ss: seq<State>, es: seq<Event>, i: nat, k: nat, t: nat)
    requires IsRun(ss, es) && i < k < |ss| && StepsAt(ss, es, i, t) && es[i].draw.ok && ss[i].threads[t].Owning?
    requires Owns(ss[i].mem, ss[i].threads[t].client, ss[i].threads[t].value)
    ensures t in ss[k].threads && Progress(ss[k].mem, ss[k].threads[t], ss[i].threads[t].client, ss[i].threads[t].value)
  {
    hide IsRun, Act, Perform, Fresh, Arrives, Ambient, Extends, LocksOK, FamiliesOK, DeadOK, OriginsOK, EpochsOK;
    hide StoreOK;
    hide Owns, OwnedOK;
    RunStep(ss, es, k - 1);
    var s, e, pc := ss[k - 1], es[k - 1], ss[i].threads[t];
    if i + 1 == k {
      assert ThreadOK(s.mem, pc);
      OwningProceeds(s.mem, t, pc, e.draw);
      NothingIsNothing(s.mem);
    } else {
      RevocationProceeds(ss, es, i, k - 1, t);
      hide Progress;
      if e.Step? && e.t == t {
        ProgressStep(s.mem, t, s.threads[t], e.draw, pc.client, pc.value);
      } else {
        ProgressStays(s.mem, ss[k].mem, s.threads[t], pc.client, pc.value);
      }
    }
  }

  /** A client that revokes a value of its own and is told so has nothing of it left, ever again. */
  lemma RevokedIsGone(ss: seq<State>, es: seq<Event>, i: nat, j: nat, k: nat, t: nat)
    requires IsRun(ss, es) && i < j <= k < |ss| && StepsAt(ss, es, i, t) && es[i].draw.ok && ss[i].threads[t].Owning?
    requires Owns(ss[i].mem, ss[i].threads[t].client, ss[i].threads[t].value)
    requires t in ss[j].threads && ss[j].threads[t] == Done(Finished)
    ensures var v := ss[i].threads[t].value;
            v !in ss[k].mem.store.access && v !in ss[k].mem.store.refresh && v !in ss[k].mem.store.tombs
  {
    RevocationProceeds(ss, es, i, k, t);
    hide IsRun;
    AnswerStays(ss, es, j, k, t);
    RankFalls(ss, es, j, k, t);
  }

  /** A revocation of anything else is told the same and changes nothing. */
  lemma ForeignRevocationTouchesNothing(ss: seq<State>, es: seq<Event>, i: nat, k: nat, t: nat)
    requires IsRun(ss, es) && i <= k < |es| && StepsAt(ss, es, i, t) && ss[i].threads[t].Owning?
    requires !Owns(ss[i].mem, ss[i].threads[t].client, ss[i].threads[t].value)
    ensures es[i].draw.ok ==> ss[i + 1].threads[t] == Done(Finished)
    ensures es[k].Step? && es[k].t == t ==> ss[k + 1].mem == ss[k].mem
  {
    hide IsRun, Perform, Fresh, Arrives, Ambient, Extends, LocksOK, FamiliesOK, DeadOK, OriginsOK, EpochsOK, StoreOK;
    RunStep(ss, es, i);
    RunStep(ss, es, k);
    assert ThreadOK(ss[i].mem, ss[i].threads[t]);
    OwningProceeds(ss[i].mem, t, ss[i].threads[t], es[i].draw);
    NothingIsNothing(ss[k].mem);
    if i < k {
      RankFalls(ss, es, i + 1, k, t);
    }
  }

  /** The delete of a grant takes exactly the records, tombstones and codes of that subject and client. */
  lemma GrantDeleteIsExact(ss: seq<State>, es: seq<Event>, m: nat, subject: string, client: string, v: string)
    requires IsRun(ss, es) && Deletes(ss, es, m, subject, client)
    ensures var s, n := ss[m].mem.store, ss[m + 1].mem.store;
            && (v in n.codes <==> v in s.codes && !(s.codes[v].subject == subject && s.codes[v].client == client))
            && (v in n.access <==> v in s.access && !(s.access[v].subject == subject && s.access[v].client == client))
            && (v in n.refresh <==>
                  v in s.refresh && !(s.refresh[v].subject == subject && s.refresh[v].client == client))
            && (v in n.tombs <==> v in s.tombs && !(s.tombs[v].subject == subject && s.tombs[v].client == client))
            && (v in n.access ==> n.access[v] == s.access[v]) && (v in n.refresh ==> n.refresh[v] == s.refresh[v])
    ensures ss[m + 1].mem.devices == ss[m].mem.devices
  {
    DeleteStep(ss, es, m, subject, client);
    hide IsRun, LocksAfter, SeenAfter, GrantedAfter;
  }

  /** A detected reuse takes exactly the records and tombstones of its family. */
  lemma ReuseIsExact(ss: seq<State>, es: seq<Event>, i: nat, t: nat, v: string)
    requires IsRun(ss, es) && StepsAt(ss, es, i, t) && es[i].draw.ok && ss[i].threads[t].Reusing?
    ensures var f, s, n := ss[i].threads[t].family, ss[i].mem.store, ss[i + 1].mem.store;
            && (v in n.access <==> v in s.access && s.access[v].family != f)
            && (v in n.refresh <==> v in s.refresh && s.refresh[v].family != f)
            && (v in n.tombs <==> v in s.tombs && s.tombs[v].family != f) && n.codes == s.codes
    ensures ss[i + 1].threads[t] == Leaving(Some(ss[i].threads[t].key), Refused)
  {
    hide IsRun, StoreOK, LocksAfter, SeenAfter, GrantedAfter, DevicesAfter;
    StepOf(ss, es, i, t);
    FamilyIsSeen(ss[i].mem);
  }

  /** A sweep takes exactly what has expired, and the operator's bulk revocation exactly what its filter names. */
  lemma UpkeepIsExact(ss: seq<State>, es: seq<Event>, i: nat, v: string)
    requires IsRun(ss, es) && i < |es| && es[i].Environment? && (es[i].eff.Sweep? || es[i].eff.DeleteTokens?)
    ensures var e, s, n, now := es[i].eff, ss[i].mem.store, ss[i + 1].mem.store, ss[i].mem.now;
            && (e.Sweep? ==>
                  && (v in n.access <==> v in s.access && now < s.access[v].expires)
                  && (v in n.refresh <==> v in s.refresh && now < s.refresh[v].expires)
                  && (v in n.tombs <==> v in s.tombs && now < s.tombs[v].expires)
                  && (v in n.codes <==> v in s.codes && now < s.codes[v].expires))
            && (e.DeleteTokens? ==>
                  && (v in n.access <==> v in s.access && ((e.client != "" && s.access[v].client != e.client)
                                                           || (e.subject != "" && s.access[v].subject != e.subject)))
                  && (v in n.refresh <==> v in s.refresh && ((e.client != "" && s.refresh[v].client != e.client)
                                                             || (e.subject != ""
                                                                 && s.refresh[v].subject != e.subject))))
            && SameWhereLeft(s, n, v)
    ensures ss[i + 1].threads == ss[i].threads
  {
    assert ss[i + 1] == Do(ss[i], es[i]);
    hide IsRun, DevicesAfter, LocksAfter, SeenAfter, GrantedAfter;
    if es[i].eff.Sweep? {
      SweepIsExact(ss[i].mem.store, ss[i].mem.now, v);
    } else {
      RevokeTokensIsExact(ss[i].mem.store, es[i].eff.client, es[i].eff.subject, v);
    }
  }

  // ---------------------------------------------------------------- device requests

  /** A decision takes effect exactly on a pending record. */
  lemma DecisionTakesEffect(ss: seq<State>, es: seq<Event>, i: nat, t: nat)
    requires IsRun(ss, es) && StepsAt(ss, es, i, t) && es[i].draw.ok && ss[i].threads[t].Deciding?
    ensures var pc, d, n := ss[i].threads[t], ss[i].mem.devices, ss[i + 1].mem.devices;
            if pc.device in d && d[pc.device].status == Pending then
              && n.Keys == d.Keys && (forall v | v in d && v != pc.device :: n[v] == d[v])
              && n[pc.device].status == (if pc.consent.Some? then Approved else Denied)
              && (pc.consent.Some? ==>
                    n[pc.device].subject == pc.consent.value.subject && n[pc.device].scopes == pc.consent.value.scopes)
            else n == d
    ensures ss[i + 1].mem.store == ss[i].mem.store && ss[i + 1].threads[t] == Done(Finished)
  {
    hide IsRun, StoreOK, LocksAfter, SeenAfter, GrantedAfter, Proper;
    StepOf(ss, es, i, t);
  }

  /** A poll of a pending record that does not come too soon leaves its stamp and nothing else. */
  lemma PollIsStamped(ss: seq<State>, es: seq<Event>, i: nat, t: nat)
    requires IsRun(ss, es) && StepsAt(ss, es, i, t) && es[i].draw.ok && ss[i].threads[t].Polling?
    ensures var v, d, n := ss[i].threads[t].device, ss[i].mem.devices, ss[i + 1].mem.devices;
            && n.Keys == d.Keys && (forall w | w in d && w != v :: n[w] == d[w])
            && (v in d ==> n[v] == d[v].(lastPoll := Some(ss[i].mem.now)))
    ensures ss[i + 1].mem.store == ss[i].mem.store && ss[i + 1].threads[t] == Done(Refused)
  {
    hide IsRun, StoreOK, LocksAfter, SeenAfter, GrantedAfter;
    StepOf(ss, es, i, t);
  }
}
