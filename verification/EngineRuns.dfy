/**
 Runs of the token engine that end where its documentation says they cannot: a pair left live behind
 a completed revocation, and a device approval redeemed after its deadline. Each is built from the
 initial state by joining short stretches.
 */
module EngineRuns {
  import opened Options
  import opened TokenStore
  import opened Engine
  import opened EngineInv
  import opened EngineSafety
  import opened EngineTheorems

  ghost predicate IsPath(ss: seq<State>, es: seq<Event>) {
    |ss| == |es| + 1 && forall i | 0 <= i < |es| :: Enabled(ss[i], es[i]) && ss[i + 1] == Do(ss[i], es[i])
  }

  lemma Join(ss: seq<State>, es: seq<Event>, ts: seq<State>, fs: seq<Event>) returns (us: seq<State>, gs: seq<Event>)
    requires IsPath(ss, es) && |ss| == |es| + 1 && IsPath(ts, fs) && |ts| == |fs| + 1 && ss[|es|] == ts[0]
    ensures gs == es + fs && IsPath(us, gs) && |us| == |gs| + 1
    ensures us == ss + ts[1..] && us[0] == ss[0] && us[|gs|] == ts[|fs|]
  {
    hide Enabled, Do;
    us, gs := ss + ts[1..], es + fs;
    forall i | 0 <= i < |gs|
      ensures Enabled(us[i], gs[i]) && us[i + 1] == Do(us[i], gs[i])
    {
      if i >= |es| {
        assert us[i] == ts[i - |es|] && us[i + 1] == ts[i - |es| + 1] && gs[i] == fs[i - |es|];
      }
    }
  }

  lemma PathIsRun(ss: seq<State>, es: seq<Event>)
    requires IsPath(ss, es) && ss[0] == Init()
    ensures IsRun(ss, es)
  {
  }

  lemma One(s: State, e: Event) returns (ss: seq<State>, es: seq<Event>)
    requires Enabled(s, e)
    ensures IsPath(ss, es) && ss == [s, Do(s, e)] && es == [e]
  {
    ss, es := [s, Do(s, e)], [e];
  }

  // ---------------------------------------------------------------- saving a pair, deleting a grant

  /** A thread about to mint saves its access record. */
  lemma SavesAccess(s: State, t: nat, d: Draw)
    requires t in s.threads && s.threads[t].Minting? && Fresh(s.mem, d) && d.ok
    ensures var u, job := Do(s, Step(t, d)), s.threads[t].job;
            && u.threads == s.threads[t := u.threads[t]]
            && u.threads[t].SavedAccess? && u.threads[t].job == job && u.threads[t].at == d.a
            && d.a in u.mem.store.access && u.mem.epochs == s.mem.epochs && u.mem.seen <= s.mem.seen + {d.a, d.b}
  {
    hide DevicesAfter, LocksAfter, GrantedAfter;
  }

  /** It saves its refresh record. */
  lemma SavesRefresh(s: State, t: nat, e: Draw)
    requires t in s.threads && s.threads[t].SavedAccess? && Fresh(s.mem, e) && e.ok
    ensures var w, pc := Do(s, Step(t, e)), s.threads[t];
            && w.threads == s.threads[t := SavedPair(pc.job, pc.at, e.a)]
            && (pc.at in s.mem.store.access ==> pc.at in w.mem.store.access)
            && (pc.at !in s.mem.store.access ==> pc.at !in w.mem.store.access)
            && e.a in w.mem.store.refresh && w.mem.epochs == s.mem.epochs && w.mem.seen <= s.mem.seen + {e.a}
  {
    hide DevicesAfter, LocksAfter, GrantedAfter;
  }

  /** It finds the epoch it captured and answers. */
  lemma Checks(s: State, t: nat, f: Draw)
    requires t in s.threads && s.threads[t].SavedPair? && Fresh(s.mem, f)
    requires s.threads[t].job.epoch == EpochOf(s.mem, s.threads[t].job.subject, s.threads[t].job.client)
    ensures var pc := s.threads[t];
            Do(s, Step(t, f)) == State(s.mem, s.threads[t := Leaving(pc.job.key, Issued(pc.job, pc.at, pc.rt))])
  {
    hide Perform;
    NothingIsNothing(s.mem);
  }

  /** From the saved access record to the answer. */
  lemma Answers(s: State, t: nat, e: Draw, f: Draw) returns (ss: seq<State>, es: seq<Event>)
    requires t in s.threads && s.threads[t].SavedAccess? && e.ok
    requires s.threads[t].job.epoch == EpochOf(s.mem, s.threads[t].job.subject, s.threads[t].job.client)
    requires Fresh(s.mem, e) && Fresh(s.mem, f) && {e.a, e.b} !! {f.a, f.b}
    ensures IsPath(ss, es) && |ss| == |es| + 1 && ss[0] == s
    ensures var w, pc := ss[|es|], s.threads[t];
            && w.threads == s.threads[t := Leaving(pc.job.key, Issued(pc.job, pc.at, e.a))]
            && (pc.at in w.mem.store.access <==> pc.at in s.mem.store.access) && e.a in w.mem.store.refresh
  {
    hide Do, Perform;
    SavesRefresh(s, t, e);
    ss, es := One(s, Step(t, e));
    Checks(ss[1], t, f);
    var ts, fs := One(ss[1], Step(t, f));
    ss, es := Join(ss, es, ts, fs);
  }

  /** From the claim to the answer. */
  lemma Mints(s: State, t: nat, d: Draw, e: Draw, f: Draw) returns (ss: seq<State>, es: seq<Event>)
    requires t in s.threads && s.threads[t].Minting? && d.ok && e.ok
    requires s.threads[t].job.epoch == EpochOf(s.mem, s.threads[t].job.subject, s.threads[t].job.client)
    requires Fresh(s.mem, d) && Fresh(s.mem, e) && Fresh(s.mem, f)
    requires {d.a, d.b} !! {e.a, e.b} && {d.a, d.b} !! {f.a, f.b} && {e.a, e.b} !! {f.a, f.b}
    ensures IsPath(ss, es) && |ss| == |es| + 1 && ss[0] == s
    ensures var w, job := ss[|es|], s.threads[t].job;
            && w.threads == s.threads[t := Leaving(job.key, Issued(job, d.a, e.a))]
            && d.a in w.mem.store.access && e.a in w.mem.store.refresh
  {
    hide Do, Perform;
    SavesAccess(s, t, d);
    ss, es := One(s, Step(t, d));
    var ts, fs := Answers(ss[1], t, e, f);
    ss, es := Join(ss, es, ts, fs);
  }

  /** A revocation deletes the grant and answers. */
  lemma DeletesGrant(s: State, r: nat, d: Draw)
    requires r in s.threads && s.threads[r].Deleting? && Fresh(s.mem, d) && d.ok
    ensures var u, g := Do(s, Step(r, d)), s.threads[r];
            && u.threads == s.threads[r := Done(GrantRevoked(g.subject, g.client, g.bump))]
            && u.mem == Perform(s.mem, DeleteGrant(g.subject, g.client))
            && u.mem.seen == s.mem.seen && u.mem.epochs == s.mem.epochs
            && u.mem.devices == s.mem.devices && u.mem.now == s.mem.now
  {
  }

  // ---------------------------------------------------------------- an exchange beside a revocation

  const CONSENT := Consent("app", "user", [], [], None, Registry(map[], map["app" := {}]))
  const CODE := Code("app", "user", [], "", S256("v"), 9)
  const REQUEST := Exchange("app", "code", "", "v")
  const JOB := Job(FromCode("code"), "app", "user", [], None, None, 1)
  const DRAW := Draw(true, "x", "y", 1)

  /** The code waits to be exchanged, under this epoch. */
  ghost predicate Offers(m: Mem, epoch: nat) {
    && m.now == 0 && m.seen == {"code"} && "code" in m.store.codes && m.store.codes["code"] == CODE
    && EpochOf(m, "user", "app") == epoch
  }

  lemma OfferSteps(m: Mem, epoch: nat)
    requires Offers(m, epoch)
    ensures Fresh(m, DRAW) && Arrives(m, Start(REQUEST)) && Arrives(m, Bumping("user", "app"))
    ensures Perform(m, Nothing) == m
    ensures Act(m, 1, Start(REQUEST), DRAW) == Move(Ready(REQUEST, Some("user")), Nothing)
    ensures Act(m, 1, Ready(REQUEST, Some("user")), DRAW) == Move(Captured(REQUEST, Some("user"), epoch), Nothing)
    ensures Act(m, 1, Captured(REQUEST, Some("user"), 1), DRAW) == Move(Minting(JOB), TakeCode("code"))
    ensures Act(m, 2, Bumping("user", "app"), DRAW) == Move(Deleting("user", "app", epoch + 1), Bump("user", "app"))
  {
  }

  lemma OfferStarts()
    ensures Ambient(Init().mem, PutCode("code", CODE, CONSENT))
    ensures Offers(Perform(Init().mem, PutCode("code", CODE, CONSENT)), 0)
  {
    hide DevicesAfter, LocksAfter, GrantedAfter;
  }

  lemma OfferGoesOn(m: Mem, epoch: nat)
    requires Offers(m, epoch)
    ensures Offers(Perform(m, Present("code")), epoch) && Offers(Perform(m, Bump("user", "app")), epoch + 1)
    ensures var n := Perform(m, TakeCode("code")); n.seen == {"code"} && EpochOf(n, "user", "app") == epoch
  {
    hide DevicesAfter, LocksAfter, GrantedAfter;
  }

  /** An exchange captures the epoch after the bump and claims its code before the delete. */
  lemma LateCapture() returns (ss: seq<State>, es: seq<Event>)
    ensures IsPath(ss, es) && |ss| == |es| + 1 && ss[0] == Init()
    ensures var s := ss[|es|];
            && s.threads == map[1 := Minting(JOB), 2 := Deleting("user", "app", 1)]
            && EpochOf(s.mem, "user", "app") == 1 && s.mem.seen == {"code"}
  {
    hide Act, Perform, EpochOf, Ambient, Arrives, Fresh, Offers;
    var m1 := Perform(Init().mem, PutCode("code", CODE, CONSENT));
    var m2 := Perform(m1, Present("code"));
    var m3 := Perform(m2, Bump("user", "app"));
    var m4 := Perform(m3, TakeCode("code"));
    OfferStarts();
    OfferGoesOn(m1, 0);
    OfferGoesOn(m2, 0);
    OfferGoesOn(m3, 1);
    OfferSteps(m1, 0);
    OfferSteps(m2, 0);
    OfferSteps(m3, 1);
    var ready, revoker := Ready(REQUEST, Some("user")), Deleting("user", "app", 1);
    es := [Environment(PutCode("code", CODE, CONSENT)), Submit(1, Start(REQUEST)), Step(1, DRAW),
           Submit(2, Bumping("user", "app")), Step(2, DRAW), Step(1, DRAW), Step(1, DRAW)];
    ss := [Init(), State(m1, map[]), State(m2, map[1 := Start(REQUEST)]), State(m2, map[1 := ready]),
           State(m2, map[1 := ready, 2 := Bumping("user", "app")]), State(m3, map[1 := ready, 2 := revoker]),
           State(m3, map[1 := Captured(REQUEST, Some("user"), 1), 2 := revoker]),
           State(m4, map[1 := Minting(JOB), 2 := revoker])];
  }

  const D1 := Draw(true, "a", "b", 1)
  const D2 := Draw(true, "c", "d", 1)
  const D3 := Draw(true, "e", "f", 1)

  /**
   Both saves after the delete: the exchange that captured the epoch after the bump is overtaken by the
   delete and leaves a live pair behind a revocation that answers success.
   */
  lemma LateCaptureOutruns() returns (ss: seq<State>, es: seq<Event>)
    ensures IsRun(ss, es)
    ensures var s := ss[|es|];
            && s.threads == map[1 := Leaving(None, Issued(JOB, "a", "c")), 2 := Done(GrantRevoked("user", "app", 1))]
            && "a" in s.mem.store.access && "c" in s.mem.store.refresh
  {
    hide Do, Perform, EpochOf, IsPath, IsRun;
    ss, es := LateCapture();
    DeletesGrant(ss[|es|], 2, D1);
    var s := Do(ss[|es|], Step(2, D1));
    assert EpochOf(s.mem, "user", "app") == 1 by { EpochsDecide(s.mem, ss[|es|].mem); }
    var ts, fs := One(ss[|es|], Step(2, D1));
    ss, es := Join(ss, es, ts, fs);
    ts, fs := Mints(s, 1, D1, D2, D3);
    ss, es := Join(ss, es, ts, fs);
    PathIsRun(ss, es);
  }

  /** The delete between the two saves: the access record is gone and the refresh record is left. */
  lemma SplitSaveOutruns() returns (ss: seq<State>, es: seq<Event>)
    ensures IsRun(ss, es)
    ensures var s := ss[|es|];
            && s.threads == map[1 := Leaving(None, Issued(JOB, "a", "c")), 2 := Done(GrantRevoked("user", "app", 1))]
            && "a" !in s.mem.store.access && "c" in s.mem.store.refresh
  {
    hide Do, Perform, EpochOf, EpochsOK, FamiliesOK, DeadOK, OriginsOK, LocksOK, StoreOK, Extends;
    ss, es := LateCapture();
    SavesAccess(ss[|es|], 1, D1);
    var u := Do(ss[|es|], Step(1, D1));
    var m := ss[|es|].mem;
    var ts, fs := One(ss[|es|], Step(1, D1));
    ss, es := Join(ss, es, ts, fs);
    RunKeepsInvariant(ss, es, |es|);
    DeletesGrant(u, 2, D2);
    var s := Do(u, Step(2, D2));
    assert ThreadOK(u.mem, u.threads[1]);
    DeleteDropsAccess(u.mem, JOB, "a");
    assert EpochOf(s.mem, "user", "app") == 1 by { EpochsDecide(s.mem, m); }
    hide Invariant;
    ts, fs := One(u, Step(2, D2));
    ss, es := Join(ss, es, ts, fs);
    ts, fs := Answers(s, 1, D2, D3);
    ss, es := Join(ss, es, ts, fs);
  }

  lemma EpochsDecide(m: Mem, n: Mem)
    requires m.epochs == n.epochs
    ensures EpochOf(m, "user", "app") == EpochOf(n, "user", "app")
  {
  }

  lemma DeleteDropsAccess(m: Mem, job: Job, at: string)
    requires WroteOK(m, job, at)
    ensures at !in Perform(m, DeleteGrant(job.subject, job.client)).store.access
  {
  }

  // ---------------------------------------------------------------- a device approval

  const APPROVAL := Consent("app", "user", [], [], Some([]), Registry(map[], map["app" := {}]))
  const DEVICE := Device("app", [], Pending, "", 9, None)
  const APPROVED := Device("app", [], Approved, "user", 9, None)
  const POLL := Poll("app", "dev")

  /** The record is approved, nothing but its code has been seen, and nobody is at work on the grant. */
  ghost predicate Waits(m: Mem) {
    "dev" in m.devices && m.devices["dev"] == APPROVED && m.seen == {"dev"}
  }

  lemma ApprovalMem()
    ensures var m := Perform(Init().mem, PutDevice("dev", DEVICE));
            && Arrives(m, Deciding("dev", Approved, Some(APPROVAL))) && Ambient(Init().mem, PutDevice("dev", DEVICE))
            && m.seen == {"dev"} && Waits(Perform(m, Decide("dev", Approved, Some(APPROVAL))))
            && Perform(m, Decide("dev", Approved, Some(APPROVAL))).now == 0
  {
    hide StoreAfter, LocksAfter;
  }

  lemma Approves() returns (ss: seq<State>, es: seq<Event>)
    ensures IsPath(ss, es) && |ss| == |es| + 1 && ss[0] == Init()
    ensures ss[|es|].threads == map[1 := Done(Finished)] && Waits(ss[|es|].mem) && ss[|es|].mem.now == 0
  {
    hide Perform, Arrives, Ambient, Waits;
    ApprovalMem();
    var m := Perform(Init().mem, PutDevice("dev", DEVICE));
    NothingIsNothing(m);
    var pc := Deciding("dev", Approved, Some(APPROVAL));
    es := [Environment(PutDevice("dev", DEVICE)), Submit(1, pc), Step(1, D1)];
    ss := [Init(), State(m, map[]), State(m, map[1 := pc]),
           State(Perform(m, Decide("dev", Approved, Some(APPROVAL))), map[1 := Done(Finished)])];
  }

  /** A whole revocation of the grant. */
  lemma Revokes(s: State, r: nat) returns (ss: seq<State>, es: seq<Event>)
    requires r !in s.threads && Waits(s.mem)
    ensures IsPath(ss, es) && |ss| == |es| + 1 && ss[0] == s
    ensures var u := ss[|es|];
            && u.threads == s.threads[r := Done(GrantRevoked("user", "app", EpochOf(s.mem, "user", "app") + 1))]
            && Waits(u.mem) && u.mem.now == s.mem.now
  {
    hide Perform, EpochOf;
    var m, n := Perform(s.mem, Bump("user", "app")),
      Perform(Perform(s.mem, Bump("user", "app")), DeleteGrant("user", "app"));
    NothingIsNothing(s.mem);
    RevokingIsQuiet(s.mem);
    RevokingIsQuiet(m);
    var pc := Deleting("user", "app", EpochOf(s.mem, "user", "app") + 1);
    es := [Submit(r, Bumping("user", "app")), Step(r, D1), Step(r, D1)];
    ss := [s, State(s.mem, s.threads[r := Bumping("user", "app")]), State(m, s.threads[r := pc]),
           State(n, s.threads[r := Done(GrantRevoked("user", "app", pc.bump))])];
  }

  lemma RevokingIsQuiet(m: Mem)
    ensures var n := Perform(m, Bump("user", "app")); n.devices == m.devices && n.seen == m.seen && n.now == m.now
    ensures var n := Perform(m, DeleteGrant("user", "app"));
            n.devices == m.devices && n.seen == m.seen && n.now == m.now
  {
    hide StoreAfter, EpochOf;
  }

  /** A poll reads the approved record before its deadline. */
  lemma Reads(s: State, t: nat) returns (ss: seq<State>, es: seq<Event>)
    requires t !in s.threads && Waits(s.mem) && s.mem.now < 9
    ensures IsPath(ss, es) && |ss| == |es| + 1 && ss[0] == s && es == [Submit(t, Start(POLL)), Step(t, D1)]
    ensures ss[1].threads == s.threads[t := Start(POLL)] && ss[1].mem == s.mem
    ensures ss[2] == State(s.mem, s.threads[t := Ready(POLL, Some("user"))])
  {
    NothingIsNothing(s.mem);
    assert Perform(s.mem, Present("dev")) == s.mem;
    hide Perform;
    es := [Submit(t, Start(POLL)), Step(t, D1)];
    ss := [s, State(s.mem, s.threads[t := Start(POLL)]), State(s.mem, s.threads[t := Ready(POLL, Some("user"))])];
  }

  /** It captures the epoch and redeems the record, whatever the clock says by now. */
  lemma Claims(s: State, t: nat) returns (ss: seq<State>, es: seq<Event>)
    requires t in s.threads && s.threads[t] == Ready(POLL, Some("user")) && Waits(s.mem)
    ensures IsPath(ss, es) && |ss| == |es| + 1 && ss[0] == s && es == [Step(t, D1), Step(t, D1)]
    ensures t in ss[1].threads && ss[1].threads[t] == Captured(POLL, Some("user"), EpochOf(s.mem, "user", "app"))
    ensures ss[1].mem == s.mem
    ensures var job := Job(FromDevice("dev"), "app", "user", [], None, None, EpochOf(s.mem, "user", "app"));
            ss[2] == State(Perform(s.mem, TakeDevice("dev")), s.threads[t := Minting(job)])
  {
    NothingIsNothing(s.mem);
    hide Perform, EpochOf;
    var epoch := EpochOf(s.mem, "user", "app");
    var job := Job(FromDevice("dev"), "app", "user", [], None, None, epoch);
    es := [Step(t, D1), Step(t, D1)];
    ss := [s, State(s.mem, s.threads[t := Captured(POLL, Some("user"), epoch)]),
           State(Perform(s.mem, TakeDevice("dev")), s.threads[t := Minting(job)])];
  }

  lemma TakingIsQuiet(m: Mem)
    ensures var n := Perform(m, TakeDevice("dev")); n.seen == m.seen && n.epochs == m.epochs
  {
  }

  /** From the poll that has read to the answer. */
  lemma Issues(s: State, t: nat) returns (ss: seq<State>, es: seq<Event>)
    requires t in s.threads && s.threads[t] == Ready(POLL, Some("user")) && Waits(s.mem)
    ensures IsPath(ss, es) && |ss| == |es| + 1 && ss[0] == s && |es| > 1 && es[1] == Step(t, D1)
    ensures t in ss[1].threads && ss[1].threads[t] == Captured(POLL, Some("user"), EpochOf(s.mem, "user", "app"))
    ensures ss[1].mem == s.mem
    ensures var job := Job(FromDevice("dev"), "app", "user", [], None, None, EpochOf(s.mem, "user", "app"));
            && ss[|es|].threads == s.threads[t := Leaving(None, Issued(job, "a", "c"))]
            && "a" in ss[|es|].mem.store.access && "c" in ss[|es|].mem.store.refresh
  {
    hide Do, Perform, EpochOf;
    ss, es := Claims(s, t);
    TakingIsQuiet(s.mem);
    var u := ss[2];
    assert EpochOf(u.mem, "user", "app") == EpochOf(s.mem, "user", "app") by { EpochsDecide(u.mem, s.mem); }
    var ts, fs := Mints(u, t, D1, D2, D3);
    ss, es := Join(ss, es, ts, fs);
  }

  /**
   An approval outlives the revocation of its grant: at `i` the revocation has answered, and only then
   is the device polled, under the new epoch, and given a live pair.
   */
  lemma ApprovalOutlivesRevocation() returns (ss: seq<State>, es: seq<Event>, i: nat)
    ensures IsRun(ss, es) && i < |es|
    ensures ss[i].threads.Keys == {1, 2} && exists bump :: ss[i].threads[2] == Done(GrantRevoked("user", "app", bump))
    ensures var s := ss[|es|];
            && 3 in s.threads && s.threads == ss[i].threads[3 := s.threads[3]]
            && s.threads[3].Leaving? && s.threads[3].outcome.Issued?
            && s.threads[3].outcome.job.subject == "user" && s.threads[3].outcome.job.client == "app"
            && s.threads[3].outcome.at in s.mem.store.access && s.threads[3].outcome.rt in s.mem.store.refresh
  {
    hide Do, Perform, EpochOf, Waits, Enabled, IsPath, IsRun;
    ss, es := Approves();
    var ts, fs := Revokes(ss[|es|], 2);
    ss, es := Join(ss, es, ts, fs);
    i := |es|;
    ts, fs := Reads(ss[|es|], 3);
    ss, es := Join(ss, es, ts, fs);
    ts, fs := Issues(ss[|es|], 3);
    ss, es := Join(ss, es, ts, fs);
    PathIsRun(ss, es);
  }

  /** A poll reads in time, the deadline passes, and the record is redeemed all the same. */
  lemma ExpiredIsRedeemed() returns (ss: seq<State>, es: seq<Event>, i: nat, k: nat)
    ensures IsRun(ss, es) && i < k && ReadsInTime(ss, es, i, 3, POLL) && Redeems(ss, es, k, 3, POLL)
    ensures ss[k].mem.devices["dev"].expires <= ss[k].mem.now
    ensures var s := ss[|es|];
            && 3 in s.threads && s.threads[3].Leaving? && s.threads[3].outcome.Issued?
            && s.threads[3].outcome.job.origin == FromDevice("dev")
            && s.threads[3].outcome.at in s.mem.store.access && s.threads[3].outcome.rt in s.mem.store.refresh
  {
    hide Do, Perform, EpochOf, IsPath, IsRun;
    ss, es := Approves();
    var ts, fs := Reads(ss[|es|], 3);
    i := |es| + 1;
    ss, es := Join(ss, es, ts, fs);
    AdvanceIsQuiet(ss[|es|], 9);
    ts, fs := One(ss[|es|], Environment(Advance(9)));
    ss, es := Join(ss, es, ts, fs);
    k := |es| + 1;
    ts, fs := Issues(ss[|es|], 3);
    ss, es := Join(ss, es, ts, fs);
    PathIsRun(ss, es);
  }

  lemma AdvanceIsQuiet(s: State, n: nat)
    ensures var u := Do(s, Environment(Advance(n)));
            && u.threads == s.threads && u.mem.now == s.mem.now + n && u.mem.devices == s.mem.devices
               && u.mem.seen == s.mem.seen
  {
  }
}
