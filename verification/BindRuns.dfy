/**
 Two runs of the binding protocol that end where its documentation says they cannot: each is built
 from the initial state by joining short stretches of one caller's steps.
 */
module BindRuns {
  import opened Options
  import opened BindingStore
  import opened BindProtocol

  ghost predicate IsPath(ss: seq<State>, es: seq<Event>) {
    |ss| == |es| + 1 && forall i | 0 <= i < |es| :: Enabled(ss[i], es[i]) && ss[i + 1] == Do(ss[i], es[i])
  }

  lemma Join(ss: seq<State>, es: seq<Event>, ts: seq<State>, fs: seq<Event>) returns (us: seq<State>, gs: seq<Event>)
    requires IsPath(ss, es) && |ss| == |es| + 1 && IsPath(ts, fs) && |ts| == |fs| + 1 && ss[|es|] == ts[0]
    ensures |gs| == |es| + |fs| && IsPath(us, gs) && |us| == |gs| + 1
    ensures us[0] == ss[0] && us[|es|] == ss[|es|] && us[|gs|] == ts[|fs|]
  {
    hide Enabled, Do;
    us, gs := ss + ts[1..], es + fs;
    forall i | 0 <= i < |gs|
      ensures Enabled(us[i], gs[i]) && us[i + 1] == Do(us[i], gs[i])
    {
      if i >= |es| {
        assert us[i] == ts[i - |es|] && us[i + 1] == ts[i - |es| + 1] && gs[i] == fs[i - |es|];
      }
    }
  }

  lemma PathIsRun(ss: seq<State>, es: seq<Event>)
    requires IsPath(ss, es) && ss[0] == State(Mem(map[], map[], map[], map[], {}, {}), map[])
    ensures IsRun(ss, es)
  {
  }

  function Ok(version: nat): Draw {
    Draw(true, true, true, false, version, 0, 0, true)
  }

  /** BeginBind for a binding that has no row. */
  lemma Begins(s: State, t: nat, id: nat, key: Key, v: nat) returns (ss: seq<State>, es: seq<Event>)
    requires t !in s.threads && id !in s.mem.ids && key !in s.mem.rows && v !in s.mem.versions
    ensures IsPath(ss, es) && |ss| == |es| + 1 && ss[0] == s
    ensures ss[|es|] == State(s.mem.(ids := s.mem.ids + {id}, flows := s.mem.flows[id := Flow(id, key, None)]),
                              s.threads[t := Done(Begun)])
  {
    es := [Submit(t, Beginning(id, key)), Step(t, Ok(v)), Step(t, Ok(v))];
    var m := s.mem.(ids := s.mem.ids + {id});
    ss := [s, State(m, s.threads[t := Beginning(id, key)]), State(m, s.threads[t := Noting(Flow(id, key, None))]),
           State(m.(flows := m.flows[id := Flow(id, key, None)]), s.threads[t := Done(Begun)])];
  }

  /** CompleteBind up to the critical section. */
  lemma Consumes(s: State, t: nat, proc: nat, id: nat, v: nat) returns (ss: seq<State>, es: seq<Event>)
    requires t !in s.threads && id in s.mem.flows && v !in s.mem.versions && (proc, s.mem.flows[id].key) !in s.mem.locks
    ensures IsPath(ss, es) && |ss| == |es| + 1 && ss[0] == s
    ensures var flow := s.mem.flows[id];
            ss[|es|] == State(s.mem.(flows := s.mem.flows - {id}, locks := s.mem.locks[(proc, flow.key) := t]),
                              s.threads[t := Inside(proc, flow.key, Claiming(flow))])
  {
    hide ActInside;
    var flow := s.mem.flows[id];
    var key, m := flow.key, s.mem.(flows := s.mem.flows - {id});
    es := [Submit(t, Consuming(proc, key.user, id)), Step(t, Ok(v)), Step(t, Ok(v))];
    ss := [s, State(s.mem, s.threads[t := Consuming(proc, key.user, id)]),
           State(m, s.threads[t := Locking(proc, key, Claiming(flow))]),
           State(m.(locks := m.locks[(proc, key) := t]), s.threads[t := Inside(proc, key, Claiming(flow))])];
  }

  /** The claim of an absent row. */
  lemma Claims(s: State, t: nat, v: nat) returns (ss: seq<State>, es: seq<Event>)
    requires t in s.threads && s.threads[t].Inside? && s.threads[t].step.Claiming? && s.threads[t].step.flow.seen.None?
    requires s.threads[t].key !in s.mem.rows && v !in s.mem.versions
    ensures IsPath(ss, es) && |ss| == |es| + 1 && ss[0] == s
    ensures var pc := s.threads[t];
            ss[|es|] == State(Written(s.mem, Binding(pc.key, v, 0, true)),
                              s.threads[t := Inside(pc.proc, pc.key, Vaulting(true))])
  {
    es := [Step(t, Ok(v))];
    ss := [s, Do(s, es[0])];
  }

  /** The rest of CompleteBind: the secret is stored and the caller told the source is bound. */
  lemma Vaults(s: State, t: nat, v: nat) returns (ss: seq<State>, es: seq<Event>)
    requires t in s.threads && s.threads[t].Inside? && s.threads[t].step == Vaulting(true) && v !in s.mem.versions
    ensures IsPath(ss, es) && |ss| == |es| + 1 && ss[0] == s
    ensures var pc := s.threads[t];
            ss[|es|] == State(s.mem.(secrets := s.mem.secrets[pc.key := 0], locks := s.mem.locks - {(pc.proc, pc.key)}),
                              s.threads[t := Done(Bound)])
  {
    var pc := s.threads[t];
    var m := s.mem.(secrets := s.mem.secrets[pc.key := 0]);
    es := [Step(t, Ok(v)), Step(t, Ok(v))];
    ss := [s, State(m, s.threads[t := Unlocking(pc.proc, pc.key, Bound)]),
           State(m.(locks := m.locks - {(pc.proc, pc.key)}), s.threads[t := Done(Bound)])];
  }

  /** A removal up to the deletion of the row. */
  lemma Shreds(s: State, t: nat, proc: nat, key: Key, v: nat) returns (ss: seq<State>, es: seq<Event>)
    requires t !in s.threads && key in s.mem.rows && (proc, key) !in s.mem.locks && v !in s.mem.versions
    ensures IsPath(ss, es) && |ss| == |es| + 1 && ss[0] == s
    ensures ss[|es|] == State(s.mem.(locks := s.mem.locks[(proc, key) := t], secrets := s.mem.secrets - {key}),
                              s.threads[t := Inside(proc, key, DeletingRow)])
  {
    hide IsPath;
    ss, es := Enters(s, t, proc, key, v);
    var ts, fs := Finds(ss[|es|], t, v);
    ss, es := Join(ss, es, ts, fs);
    assert ss[|es|].threads == s.threads[t := Inside(proc, key, DeletingRow)];
  }

  lemma Enters(s: State, t: nat, proc: nat, key: Key, v: nat) returns (ss: seq<State>, es: seq<Event>)
    requires t !in s.threads && (proc, key) !in s.mem.locks && v !in s.mem.versions
    ensures IsPath(ss, es) && |ss| == |es| + 1 && ss[0] == s
    ensures ss[|es|] == State(s.mem.(locks := s.mem.locks[(proc, key) := t]),
                              s.threads[t := Inside(proc, key, Finding(false))])
  {
    hide ActInside;
    es := [Submit(t, Locking(proc, key, Finding(false))), Step(t, Ok(v))];
    ss := [s, State(s.mem, s.threads[t := Locking(proc, key, Finding(false))]),
           State(s.mem.(locks := s.mem.locks[(proc, key) := t]), s.threads[t := Inside(proc, key, Finding(false))])];
  }

  lemma Finds(s: State, t: nat, v: nat) returns (ss: seq<State>, es: seq<Event>)
    requires t in s.threads && s.threads[t].Inside? && s.threads[t].step == Finding(false) && v !in s.mem.versions
    requires s.threads[t].key in s.mem.rows
    ensures IsPath(ss, es) && |ss| == |es| + 1 && ss[0] == s
    ensures var pc := s.threads[t];
            ss[|es|] == State(s.mem.(secrets := s.mem.secrets - {pc.key}),
                              s.threads[t := Inside(pc.proc, pc.key, DeletingRow)])
  {
    hide Claim, Written;
    var pc := s.threads[t];
    es := [Step(t, Ok(v)), Step(t, Ok(v))];
    ss := [s, State(s.mem, s.threads[t := Inside(pc.proc, pc.key, Shredding)]),
           State(s.mem.(secrets := s.mem.secrets - {pc.key}),
                 s.threads[t := Inside(pc.proc, pc.key, DeletingRow)])];
  }

  /** The rest of the removal. */
  lemma Deletes(s: State, t: nat, v: nat) returns (ss: seq<State>, es: seq<Event>)
    requires t in s.threads && s.threads[t].Inside? && s.threads[t].step == DeletingRow && v !in s.mem.versions
    ensures IsPath(ss, es) && |ss| == |es| + 1 && ss[0] == s
    ensures var pc := s.threads[t];
            ss[|es|] == State(s.mem.(rows := s.mem.rows - {pc.key}, locks := s.mem.locks - {(pc.proc, pc.key)}),
                              s.threads[t := Done(Removed)])
  {
    var pc := s.threads[t];
    var m := s.mem.(rows := s.mem.rows - {pc.key});
    es := [Step(t, Ok(v)), Step(t, Ok(v))];
    ss := [s, State(m, s.threads[t := Unlocking(pc.proc, pc.key, Removed)]),
           State(m.(locks := m.locks - {(pc.proc, pc.key)}), s.threads[t := Done(Removed)])];
  }

  /** A whole bind of an absent row. */
  lemma Binds(s: State, t: nat, proc: nat, id: nat, v: nat, w: nat) returns (ss: seq<State>, es: seq<Event>)
    requires t !in s.threads && id in s.mem.flows && v !in s.mem.versions && w !in s.mem.versions && v != w
    requires var flow := s.mem.flows[id];
             flow.seen.None? && flow.key !in s.mem.rows && (proc, flow.key) !in s.mem.locks
    ensures IsPath(ss, es) && |ss| == |es| + 1 && ss[0] == s && |es| > 0
    ensures var key := s.mem.flows[id].key;
            ss[|es|] == State(Mem(s.mem.rows[key := Binding(key, v, 0, true)], s.mem.secrets[key := 0],
                                  s.mem.flows - {id},
                                  s.mem.locks, s.mem.versions + {v}, s.mem.ids),
                              s.threads[t := Done(Bound)])
  {
    hide Enabled, Do;
    var key := s.mem.flows[id].key;
    ss, es := Consumes(s, t, proc, id, v);
    var ts, fs := Claims(ss[|es|], t, v);
    ss, es := Join(ss, es, ts, fs);
    ts, fs := Vaults(ss[|es|], t, w);
    ss, es := Join(ss, es, ts, fs);
    assert s.mem.locks[(proc, key) := t] - {(proc, key)} == s.mem.locks;
  }

  /** A whole removal. */
  lemma Unbinds(s: State, t: nat, proc: nat, key: Key, v: nat) returns (ss: seq<State>, es: seq<Event>)
    requires t !in s.threads && key in s.mem.rows && (proc, key) !in s.mem.locks && v !in s.mem.versions
    ensures IsPath(ss, es) && |ss| == |es| + 1 && ss[0] == s
    ensures ss[|es|] == State(s.mem.(rows := s.mem.rows - {key}, secrets := s.mem.secrets - {key}),
                              s.threads[t := Done(Removed)])
  {
    hide Enabled, Do;
    ss, es := Shreds(s, t, proc, key, v);
    var ts, fs := Deletes(ss[|es|], t, v);
    ss, es := Join(ss, es, ts, fs);
    assert s.mem.locks[(proc, key) := t] - {(proc, key)} == s.mem.locks;
  }

  /**
   Across processes the lock does not order the two: a bind in one process has claimed the row when a
   removal in another shreds and deletes, and the bind then stores its secret. Both answer success and
   the secret is left without a row.
   */
  lemma TwoProcessesStrand(key: Key) returns (ss: seq<State>, es: seq<Event>)
    ensures IsRun(ss, es)
    ensures var s := ss[|es|];
            && s.threads == map[1 := Done(Begun), 2 := Done(Bound), 3 := Done(Removed)]
            && key in s.mem.secrets && key !in s.mem.rows
  {
    hide Enabled, Do, IsPath, IsRun;
    var s := State(Mem(map[], map[], map[], map[], {}, {}), map[]);
    ss, es := Begins(s, 1, 0, key, 0);
    var ts, fs := Consumes(ss[|es|], 2, 2, 0, 0);
    ss, es := Join(ss, es, ts, fs);
    ts, fs := Claims(ss[|es|], 2, 0);
    ss, es := Join(ss, es, ts, fs);
    ts, fs := Shreds(ss[|es|], 3, 1, key, 1);
    ss, es := Join(ss, es, ts, fs);
    ts, fs := Deletes(ss[|es|], 3, 1);
    ss, es := Join(ss, es, ts, fs);
    ts, fs := Vaults(ss[|es|], 2, 1);
    ss, es := Join(ss, es, ts, fs);
    PathIsRun(ss, es);
  }

  /**
   A flow begun while nothing was bound undoes a removal: another flow binds, the removal answers, and
   only then is the first flow completed, which answers that the source is bound. At `i` the removal
   has answered, neither row nor secret is left and the first flow is still waiting.
   */
  lemma RemovalIsUndone(key: Key) returns (ss: seq<State>, es: seq<Event>, i: nat)
    ensures IsRun(ss, es) && i < |es|
    ensures var s := ss[i];
            && s.threads == map[1 := Done(Begun), 2 := Done(Begun), 3 := Done(Bound), 4 := Done(Removed)]
            && s.mem.flows == map[0 := Flow(0, key, None)] && key !in s.mem.rows && key !in s.mem.secrets
    ensures var s := ss[|es|]; s.threads == ss[i].threads[5 := Done(Bound)] && key in s.mem.rows && key in s.mem.secrets
  {
    hide Enabled, Do, IsPath, IsRun;
    var s := State(Mem(map[], map[], map[], map[], {}, {}), map[]);
    ss, es := Begins(s, 1, 0, key, 0);
    var ts, fs := Begins(ss[|es|], 2, 1, key, 0);
    ss, es := Join(ss, es, ts, fs);
    ts, fs := Binds(ss[|es|], 3, 1, 1, 0, 1);
    ss, es := Join(ss, es, ts, fs);
    ts, fs := Unbinds(ss[|es|], 4, 1, key, 1);
    ss, es := Join(ss, es, ts, fs);
    i := |es|;
    assert ss[i].threads == map[1 := Done(Begun), 2 := Done(Begun), 3 := Done(Bound), 4 := Done(Removed)];
    assert ss[i].mem.flows == map[0 := Flow(0, key, None)];
    ts, fs := Binds(ss[i], 5, 1, 0, 1, 2);
    ss, es := Join(ss, es, ts, fs);
    PathIsRun(ss, es);
  }
}
