/**
 The reference-counted lock table: lockRefreshFamily in oauth/as.go and keyedMutex in
 internal/federation/refresh.go are the same code.

 Lock objects live in a heap and are created and dropped on the fly. A caller first registers under
 the table's guard, then takes the object's own mutex outside it, later unlocks that mutex and
 finally deregisters under the guard again; the four are separate atomic steps, so any other caller
 may run between them.
 */
module LockTable {
  import opened Options

  datatype Lock = Lock(refs: int, holder: Option<nat>)

  datatype Phase = Awaiting | Holding | Leaving

  datatype Caller = Caller(key: string, lock: nat, phase: Phase)

  /** `table` is the map the service keeps; `heap` holds every lock object ever allocated. */
  datatype State = State(table: map<string, nat>, heap: seq<Lock>, callers: map<nat, Caller>)

  datatype Event = Enter(t: nat, key: string) | Take(t: nat) | Unlock(t: nat) | Exit(t: nat)

  predicate Enabled(s: State, e: Event) {
    match e
    case Enter(t, _) => t !in s.callers
    case Take(t) => t in s.callers && s.callers[t].phase == Awaiting
                    && s.callers[t].lock < |s.heap| && s.heap[s.callers[t].lock].holder == None
    case Unlock(t) => t in s.callers && s.callers[t].phase == Holding && s.callers[t].lock < |s.heap|
    case Exit(t) => t in s.callers && s.callers[t].phase == Leaving && s.callers[t].lock < |s.heap|
  }

  /** Find or create the entry and count the caller in. */
  function Registered(s: State, t: nat, key: string): State {
    if key in s.table && s.table[key] < |s.heap| then
      var id := s.table[key];
      s.(heap := s.heap[id := s.heap[id].(refs := s.heap[id].refs + 1)],
         callers := s.callers[t := Caller(key, id, Awaiting)])
    else
      State(s.table[key := |s.heap|], s.heap + [Lock(1, None)], s.callers[t := Caller(key, |s.heap|, Awaiting)])
  }

  /** Count the caller out; the last one deletes whatever the table then has under the key. */
  function Deregistered(s: State, t: nat): State
    requires t in s.callers && s.callers[t].lock < |s.heap|
  {
    var c := s.callers[t];
    var refs := s.heap[c.lock].refs - 1;
    State(if refs == 0 then s.table - {c.key} else s.table,
          s.heap[c.lock := s.heap[c.lock].(refs := refs)], s.callers - {t})
  }

  function Do(s: State, e: Event): State
    requires Enabled(s, e)
  {
    match e
    case Enter(t, key) => Registered(s, t, key)
    case Take(t) =>
      var c := s.callers[t];
      s.(heap := s.heap[c.lock := s.heap[c.lock].(holder := Some(t))], callers := s.callers[t := c.(phase := Holding)])
    case Unlock(t) =>
      var c := s.callers[t];
      s.(heap := s.heap[c.lock := s.heap[c.lock].(holder := None)], callers := s.callers[t := c.(phase := Leaving)])
    case Exit(t) => Deregistered(s, t)
  }

  function Init(): State {
    State(map[], [], map[])
  }

  ghost predicate IsRun(ss: seq<State>, es: seq<Event>) {
    && |ss| == |es| + 1
    && ss[0] == Init()
    && forall i | 0 <= i < |es| :: Enabled(ss[i], es[i]) && ss[i + 1] == Do(ss[i], es[i])
  }

  // ---------------------------------------------------------------- the invariant

  /** The callers registered with one lock object. */
  function Users(callers: map<nat, Caller>, id: nat): set<nat> {
    set t | t in callers && callers[t].lock == id
  }

  /** A caller's object is the one the table names for its key. */
  ghost predicate CallersOK(s: State) {
    forall t | t in s.callers :: s.callers[t].key in s.table && s.table[s.callers[t].key] == s.callers[t].lock
  }

  /** The count of an entry is the number of its callers. */
  ghost predicate EntryOK(s: State, id: nat) {
    id < |s.heap| && Users(s.callers, id) != {} && s.heap[id].refs == |Users(s.callers, id)|
  }

  ghost predicate TableOK(s: State) {
    && (forall k | k in s.table :: EntryOK(s, s.table[k]))
    && (forall k, l | k in s.table && l in s.table :: s.table[k] == s.table[l] ==> k == l)
  }

  /** A mutex is held exactly by the one caller that holds it. */
  ghost predicate HoldersOK(s: State) {
    && (forall t | t in s.callers && s.callers[t].phase == Holding ::
          s.callers[t].lock < |s.heap| && s.heap[s.callers[t].lock].holder == Some(t))
    && (forall id | 0 <= id < |s.heap| :: s.heap[id].holder.Some? ==>
          s.heap[id].holder.value in s.callers && s.callers[s.heap[id].holder.value].phase == Holding
          && s.callers[s.heap[id].holder.value].lock == id)
  }

  ghost predicate Invariant(s: State) {
    CallersOK(s) && TableOK(s) && HoldersOK(s)
  }

  lemma UsersAfterAdd(callers: map<nat, Caller>, t: nat, c: Caller, id: nat)
    ensures t !in callers ==> t !in Users(callers, id)
    ensures t !in callers ==>
              Users(callers[t := c], id) == if c.lock == id then Users(callers, id) + {t} else Users(callers, id)
    ensures t in callers && callers[t].lock == c.lock ==> Users(callers[t := c], id) == Users(callers, id)
  {
  }

  lemma UsersAfterDrop(callers: map<nat, Caller>, t: nat, id: nat)
    requires t in callers
    ensures Users(callers - {t}, id) == Users(callers, id) - {t}
    ensures t in Users(callers, id) <==> callers[t].lock == id
  {
  }

  lemma EnterEntry(s: State, t: nat, key: string, k: string)
    requires CallersOK(s) && TableOK(s) && t !in s.callers && k in Registered(s, t, key).table
    ensures EntryOK(Registered(s, t, key), Registered(s, t, key).table[k])
  {
    var u := Registered(s, t, key);
    UsersAfterAdd(s.callers, t, u.callers[t], u.table[k]);
    assert key !in s.table ==> Users(s.callers, |s.heap|) == {};
    assert k in s.table ==> EntryOK(s, s.table[k]);
    assert key in s.table ==> EntryOK(s, s.table[key]);
    hide TableOK, CallersOK, Users;
  }

  lemma EnterKeepsTable(s: State, t: nat, key: string)
    requires CallersOK(s) && TableOK(s) && t !in s.callers
    ensures CallersOK(Registered(s, t, key)) && TableOK(Registered(s, t, key))
  {
    hide EntryOK, Users;
    var u := Registered(s, t, key);
    forall k | k in u.table
      ensures EntryOK(u, u.table[k])
    {
      EnterEntry(s, t, key, k);
    }
    forall k | k in s.table
      ensures s.table[k] < |s.heap|
    {
      EntryExists(s, s.table[k]);
    }
  }

  lemma EntryExists(s: State, id: nat)
    requires EntryOK(s, id)
    ensures id < |s.heap|
  {
  }

  lemma EnterKeepsHolders(s: State, t: nat, key: string)
    requires HoldersOK(s) && t !in s.callers
    ensures HoldersOK(Registered(s, t, key))
  {
  }

  lemma MoveEntry(s: State, e: Event, id: nat)
    requires Enabled(s, e) && (e.Take? || e.Unlock?) && EntryOK(s, id)
    ensures EntryOK(Do(s, e), id)
  {
    UsersAfterAdd(s.callers, e.t, Do(s, e).callers[e.t], id);
    hide Users;
  }

  lemma MoveKeeps(s: State, e: Event)
    requires Invariant(s) && Enabled(s, e) && (e.Take? || e.Unlock?)
    ensures Invariant(Do(s, e))
  {
    hide EntryOK, Users;
    forall k | k in s.table
      ensures EntryOK(Do(s, e), s.table[k])
    {
      MoveEntry(s, e, s.table[k]);
    }
  }

  lemma ExitEntry(s: State, t: nat, k: string)
    requires CallersOK(s) && TableOK(s) && Enabled(s, Exit(t)) && k in Deregistered(s, t).table
    ensures EntryOK(Deregistered(s, t), s.table[k])
  {
    var lock := s.callers[t].lock;
    assert EntryOK(s, lock) && EntryOK(s, s.table[k]);
    UsersAfterDrop(s.callers, t, s.table[k]);
    hide TableOK, CallersOK, Users;
  }

  /** Whoever still uses the object keeps its count above one. */
  lemma StillUsed(s: State, t: nat, r: nat)
    requires CallersOK(s) && TableOK(s) && Enabled(s, Exit(t)) && r in s.callers && r != t
    requires s.callers[r].lock == s.callers[t].lock
    ensures s.heap[s.callers[t].lock].refs > 1
  {
    assert EntryOK(s, s.callers[t].lock);
    UsersAfterDrop(s.callers, t, s.callers[t].lock);
    var others := Users(s.callers, s.callers[t].lock) - {t};
    assert r in others && |others| > 0;
  }

  lemma ExitKeepsTable(s: State, t: nat)
    requires CallersOK(s) && TableOK(s) && Enabled(s, Exit(t))
    ensures CallersOK(Deregistered(s, t)) && TableOK(Deregistered(s, t))
  {
    hide EntryOK, Users;
    var u := Deregistered(s, t);
    forall k | k in u.table
      ensures EntryOK(u, u.table[k])
    {
      ExitEntry(s, t, k);
    }
    forall r | r in u.callers
      ensures u.callers[r].key in u.table
    {
      if s.callers[r].key == s.callers[t].key {
        StillUsed(s, t, r);
      }
    }
  }

  lemma ExitKeepsHolders(s: State, t: nat)
    requires HoldersOK(s) && Enabled(s, Exit(t))
    ensures HoldersOK(Deregistered(s, t))
  {
  }

  lemma DoKeeps(s: State, e: Event)
    requires Invariant(s) && Enabled(s, e)
    ensures Invariant(Do(s, e))
  {
    hide CallersOK, TableOK, HoldersOK, Registered, Deregistered;
    match e
    case Enter(t, key) =>
      EnterKeepsTable(s, t, key);
      EnterKeepsHolders(s, t, key);
    case Exit(t) =>
      ExitKeepsTable(s, t);
      ExitKeepsHolders(s, t);
    case _ => MoveKeeps(s, e);
  }

  lemma {:induction false} RunKeeps(ss: seq<State>, es: seq<Event>, i: nat)
    requires IsRun(ss, es) && i < |ss|
    ensures Invariant(ss[i])
  {
    if i > 0 {
      RunKeeps(ss, es, i - 1);
      DoKeeps(ss[i - 1], es[i - 1]);
    }
  }

  // ---------------------------------------------------------------- what it is for

  /** At most one caller is between taking and releasing the lock of a key. */
  lemma MutualExclusion(ss: seq<State>, es: seq<Event>, i: nat, t: nat, r: nat)
    requires IsRun(ss, es) && i < |ss|
    requires t in ss[i].callers && r in ss[i].callers && ss[i].callers[t].key == ss[i].callers[r].key
    ensures ss[i].callers[t].lock == ss[i].callers[r].lock
    ensures ss[i].callers[t].phase == Holding && ss[i].callers[r].phase == Holding ==> t == r
  {
    RunKeeps(ss, es, i);
  }

  /** The table has an entry exactly while some caller holds, awaits or is leaving it, and so never leaks one. */
  lemma EntryIffUsed(ss: seq<State>, es: seq<Event>, i: nat, key: string)
    requires IsRun(ss, es) && i < |ss|
    ensures key in ss[i].table <==> exists t :: t in ss[i].callers && ss[i].callers[t].key == key
  {
    RunKeeps(ss, es, i);
    var s := ss[i];
    if key in s.table {
      var t :| t in Users(s.callers, s.table[key]);
      assert s.callers[t].key == key;
    }
  }

  /** The plain mutex per key that the table stands for: who holds it. */
  ghost function Owner(s: State, key: string): Option<nat> {
    if key in s.table && s.table[key] < |s.heap| then s.heap[s.table[key]].holder else None
  }

  /**
   Refinement: a waiting caller can take the lock exactly when nobody owns its key and then owns it,
   unlocking releases it, registering and deregistering are invisible, and no other key is affected.
   */
  lemma RefinesMutex(s: State, e: Event, key: string)
    requires Invariant(s)
    ensures e.Take? && e.t in s.callers && s.callers[e.t].phase == Awaiting ==>
              (Enabled(s, e) <==> Owner(s, s.callers[e.t].key) == None)
    ensures Enabled(s, e) && e.Unlock? ==> Owner(s, s.callers[e.t].key) == Some(e.t)
    ensures Enabled(s, e) ==> Owner(Do(s, e), key) == OwnerAfter(s, e, key)
  {
    hide Users;
    if e.Exit? && Enabled(s, e) && s.heap[s.callers[e.t].lock].refs == 1 {
      ExitIsQuiet(s, e.t);
    }
    EntriesExist(s);
    hide EntryOK;
  }

  ghost function OwnerAfter(s: State, e: Event, key: string): Option<nat>
    requires Enabled(s, e)
  {
    if e.Take? && s.callers[e.t].key == key then Some(e.t)
    else if e.Unlock? && s.callers[e.t].key == key then None
    else Owner(s, key)
  }

  lemma EntriesExist(s: State)
    requires Invariant(s)
    ensures forall k | k in s.table :: s.table[k] < |s.heap|
  {
    forall k | k in s.table
      ensures s.table[k] < |s.heap|
    {
      EntryExists(s, s.table[k]);
    }
  }

  /** The entry a last caller deletes is its own, and nobody holds it. */
  lemma ExitIsQuiet(s: State, t: nat)
    requires Invariant(s) && Enabled(s, Exit(t)) && s.heap[s.callers[t].lock].refs == 1
    ensures s.heap[s.callers[t].lock].holder == None
  {
    if s.heap[s.callers[t].lock].holder.Some? {
      StillUsed(s, t, s.heap[s.callers[t].lock].holder.value);
    }
  }
}
