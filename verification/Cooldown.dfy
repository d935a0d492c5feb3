/**
 internal/federation/binding_cooldown.go: consecutive rejections per binding, in a table bounded by
 least-recently-used eviction. `Counter` below is the same counter without the bound.
 */
module Cooldown {
  import opened Options

  /** `until` is set once the threshold is reached. */
  datatype Entry = Entry(failures: nat, until: Option<int>)

  datatype Limits = Limits(limit: nat, threshold: nat, window: nat)

  const MAX_COOLED := 4096
  const THRESHOLD := 5
  const WINDOW := 30

  /** What was asked for where it makes sense, and the default where it does not. */
  function Configured(limit: int, threshold: int, window: int): (l: Limits)
    ensures l.limit > 0 && l.threshold > 0 && l.window > 0
    ensures l.limit == limit || (limit <= 0 && l.limit == MAX_COOLED)
    ensures l.threshold == threshold || (threshold <= 0 && l.threshold == THRESHOLD)
    ensures l.window == window || (window <= 0 && l.window == WINDOW)
  {
    Limits(if limit <= 0 then MAX_COOLED else limit,
           if threshold <= 0 then THRESHOLD else threshold,
           if window <= 0 then WINDOW else window)
  }

  function Without(s: seq<string>, k: string): seq<string> {
    if s == [] then [] else (if s[0] == k then [] else [s[0]]) + Without(s[1..], k)
  }

  /** The list holds each key once. */
  ghost predicate Lists(lru: seq<string>, keys: set<string>) {
    && (forall i, j | 0 <= i < j < |lru| :: lru[i] != lru[j])
    && (forall k :: k in lru <==> k in keys)
  }

  lemma ListsPush(lru: seq<string>, keys: set<string>, k: string)
    requires Lists(lru, keys) && k !in keys
    ensures Lists([k] + lru, keys + {k})
  {
  }

  lemma {:induction false} ListsDrop(lru: seq<string>, keys: set<string>, k: string)
    requires Lists(lru, keys)
    ensures Lists(Without(lru, k), keys - {k})
  {
    if lru != [] {
      assert lru == [lru[0]] + lru[1..];
      assert Lists(lru[1..], keys - {lru[0]});
      ListsDrop(lru[1..], keys - {lru[0]}, k);
      if lru[0] != k {
        ListsPush(Without(lru[1..], k), keys - {lru[0]} - {k}, lru[0]);
        assert keys - {lru[0]} - {k} + {lru[0]} == keys - {k};
      } else {
        assert keys - {lru[0]} - {k} == keys - {k};
      }
    }
  }

  // ---------------------------------------------------------------- the calls as functions

  datatype Event = Reject(key: string, now: int) | Reset(key: string) | Ask(key: string, now: int)

  /** The table: entries by key, and the keys by last use, most recent first. */
  datatype Table = Table(entries: map<string, Entry>, lru: seq<string>)

  function Hit(l: Limits, e: Entry, now: int): Entry {
    if e.failures + 1 < l.threshold then e.(failures := e.failures + 1) else Entry(e.failures + 1, Some(now + l.window))
  }

  predicate Cooling(entries: map<string, Entry>, key: string, now: int) {
    key in entries && entries[key].until.Some? && now < entries[key].until.value
  }

  predicate Lapsed(entries: map<string, Entry>, key: string, now: int) {
    key in entries && entries[key].until.Some? && now >= entries[key].until.value
  }

  function Dropped(t: Table, key: string): Table {
    Table(t.entries - {key}, Without(t.lru, key))
  }

  function Touched(t: Table, key: string): Table {
    t.(lru := [key] + Without(t.lru, key))
  }

  /** Inserts a zero entry at the front, and evicts the back when that makes one too many. */
  function Admitted(l: Limits, t: Table, key: string): Table {
    var u := Table(t.entries[key := Entry(0, None)], [key] + t.lru);
    if |u.entries| > l.limit then Dropped(u, u.lru[|u.lru| - 1]) else u
  }

  function After(l: Limits, t: Table, e: Event): Table {
    match e
    case Reject(key, now) =>
      var u := if key in t.entries then Touched(t, key) else Admitted(l, t, key);
      if key in u.entries then u.(entries := u.entries[key := Hit(l, u.entries[key], now)]) else u
    case Reset(key) => if key in t.entries then Dropped(t, key) else t
    case Ask(key, now) =>
      if key !in t.entries then t else if Lapsed(t.entries, key, now) then Dropped(t, key) else Touched(t, key)
  }

  function Run(l: Limits, es: seq<Event>): Table {
    if es == [] then Table(map[], []) else After(l, Run(l, es[..|es| - 1]), es[|es| - 1])
  }

  // ---------------------------------------------------------------- the table is consistent

  ghost predicate EntriesOK(l: Limits, entries: map<string, Entry>) {
    forall k | k in entries ::
      0 < entries[k].failures && (entries[k].until.Some? <==> entries[k].failures >= l.threshold)
  }

  /** The list holds each key of the map once, and the map is within its bound. */
  ghost predicate Valid(l: Limits, t: Table) {
    Lists(t.lru, t.entries.Keys) && |t.entries| <= l.limit && EntriesOK(l, t.entries)
  }

  lemma DroppedIsValid(l: Limits, t: Table, key: string)
    requires Valid(l, t)
    ensures Valid(l, Dropped(t, key))
  {
    ListsDrop(t.lru, t.entries.Keys, key);
    SmallerKeys(t.entries, key);
    hide Lists;
  }

  lemma SmallerKeys<T>(m: map<string, T>, key: string)
    ensures (m - {key}).Keys == m.Keys - {key}
    ensures |m - {key}| == if key in m then |m| - 1 else |m|
  {
    assert (m - {key}).Keys == m.Keys - {key};
    assert |m - {key}| == |(m - {key}).Keys| && |m| == |m.Keys|;
  }

  lemma TouchedIsValid(l: Limits, t: Table, key: string)
    requires Valid(l, t) && key in t.entries
    ensures Valid(l, Touched(t, key))
  {
    ListsDrop(t.lru, t.entries.Keys, key);
    ListsPush(Without(t.lru, key), t.entries.Keys - {key}, key);
    assert t.entries.Keys - {key} + {key} == t.entries.Keys;
    hide Lists;
  }

  /** A newcomer is never the one evicted, and nobody is while there is room. */
  lemma AdmittedIsValid(l: Limits, t: Table, key: string)
    requires l.limit > 0 && Valid(l, t) && key !in t.entries
    ensures var u := Admitted(l, t, key);
            && Lists(u.lru, u.entries.Keys) && |u.entries| <= l.limit
            && key in u.entries && u.entries[key] == Entry(0, None)
            && (forall k | k in u.entries && k != key :: k in t.entries && u.entries[k] == t.entries[k])
            && (|t.entries| < l.limit ==> u.entries == t.entries[key := Entry(0, None)])
  {
    hide Lists, EntriesOK, Without, Dropped;
    var u := Table(t.entries[key := Entry(0, None)], [key] + t.lru);
    PushedIsListed(t, u, key);
    if |u.entries| > l.limit {
      EvictedIsValid(u, key);
    }
  }

  lemma PushedIsListed(t: Table, u: Table, key: string)
    requires Lists(t.lru, t.entries.Keys) && key !in t.entries
    requires u == Table(t.entries[key := Entry(0, None)], [key] + t.lru)
    ensures Lists(u.lru, u.entries.Keys) && |u.entries| == |t.entries| + 1
    ensures |t.entries| > 0 ==> u.lru[|u.lru| - 1] in t.entries
  {
    hide Lists;
    GrownKeys(t.entries, key, Entry(0, None));
    ListsPush(t.lru, t.entries.Keys, key);
    if |t.entries| > 0 {
      BackIsOld(t, key);
    }
  }

  lemma GrownKeys<T>(m: map<string, T>, key: string, v: T)
    requires key !in m
    ensures m[key := v].Keys == m.Keys + {key} && |m[key := v]| == |m| + 1
  {
    assert m[key := v].Keys == m.Keys + {key};
    assert |m[key := v]| == |m[key := v].Keys| && |m| == |m.Keys|;
  }

  lemma EvictedIsValid(u: Table, key: string)
    requires u.lru != [] && Lists(u.lru, u.entries.Keys) && key in u.entries && u.lru[|u.lru| - 1] != key
    requires u.lru[|u.lru| - 1] in u.entries
    ensures var v := Dropped(u, u.lru[|u.lru| - 1]);
            && Lists(v.lru, v.entries.Keys) && |v.entries| == |u.entries| - 1 && key in v.entries
            && (forall k | k in v.entries :: k in u.entries && v.entries[k] == u.entries[k])
  {
    hide Lists, Without;
    ListsDrop(u.lru, u.entries.Keys, u.lru[|u.lru| - 1]);
    SmallerKeys(u.entries, u.lru[|u.lru| - 1]);
  }

  lemma BackIsOld(t: Table, key: string)
    requires Lists(t.lru, t.entries.Keys) && key !in t.entries && |t.entries| > 0
    ensures ([key] + t.lru)[|t.lru|] in t.entries
  {
    var k :| k in t.entries;
    assert k in t.lru;
    assert ([key] + t.lru)[|t.lru|] == t.lru[|t.lru| - 1];
  }

  lemma AfterIsValid(l: Limits, t: Table, e: Event)
    requires l.limit > 0 && l.threshold > 0 && Valid(l, t)
    ensures Valid(l, After(l, t, e))
  {
    hide Lists, Dropped, Touched, Admitted;
    match e
    case Reject(key, now) =>
      var u := if key in t.entries then Touched(t, key) else Admitted(l, t, key);
      if key in t.entries {
        TouchedIsValid(l, t, key);
        TouchedKeeps(t, key);
      } else {
        AdmittedIsValid(l, t, key);
      }
      assert u.entries[key := Hit(l, u.entries[key], now)].Keys == u.entries.Keys;
      assert |u.entries[key := Hit(l, u.entries[key], now)]| == |u.entries.Keys|;
    case Reset(key) => DroppedIsValid(l, t, key);
    case Ask(key, now) =>
      if key in t.entries {
        DroppedIsValid(l, t, key);
        TouchedIsValid(l, t, key);
      }
  }

  /** A call on the entries, apart from the list: others' entries may go, never change. */
  lemma EntriesAfter(l: Limits, t: Table, e: Event)
    requires l.limit > 0 && Valid(l, t)
    ensures var u := After(l, t, e).entries;
            && (forall k | k in u && k != e.key :: k in t.entries && u[k] == t.entries[k])
            && (e.Reject? ==>
                  e.key in u
                  && u[e.key] == Hit(l, if e.key in t.entries then t.entries[e.key] else Entry(0, None), e.now))
            && (e.Reset? ==> e.key !in u)
            && (e.Ask? && e.key in u ==> e.key in t.entries && u[e.key] == t.entries[e.key])
            && (!e.Reject? || e.key in t.entries || |t.entries| < l.limit ==>
                  forall k | k in t.entries && k != e.key :: k in u)
            && (e.Ask? ==> (e.key in u <==> e.key in t.entries && !Lapsed(t.entries, e.key, e.now)))
  {
    hide Lists, EntriesOK, Without, Admitted;
    if e.Reject? && e.key !in t.entries {
      AdmittedIsValid(l, t, e.key);
    }
  }

  lemma TouchedKeeps(t: Table, key: string)
    ensures Touched(t, key).entries == t.entries
  {
  }

  lemma {:induction false} RunIsValid(l: Limits, es: seq<Event>)
    requires l.limit > 0 && l.threshold > 0
    ensures Valid(l, Run(l, es))
  {
    if es != [] {
      RunIsValid(l, es[..|es| - 1]);
      AfterIsValid(l, Run(l, es[..|es| - 1]), es[|es| - 1]);
    }
  }

  // ---------------------------------------------------------------- what cooling means

  /** How many rejections of the key the history ends with, counting back to its last reset. */
  function Streak(es: seq<Event>, key: string): nat {
    if es == [] then 0 else StreakAfter(Streak(es[..|es| - 1], key), es[|es| - 1], key)
  }

  function StreakAfter(n: nat, e: Event, key: string): nat {
    if e == Reset(key) then 0 else if e.Reject? && e.key == key then n + 1 else n
  }

  function LastRejection(es: seq<Event>, key: string): Option<int> {
    if es == [] then None else LastAfter(LastRejection(es[..|es| - 1], key), es[|es| - 1], key)
  }

  function LastAfter(last: Option<int>, e: Event, key: string): Option<int> {
    if e.Reject? && e.key == key then Some(e.now) else last
  }

  lemma Unfold(l: Limits, es: seq<Event>, e: Event, key: string)
    ensures Run(l, es + [e]) == After(l, Run(l, es), e)
    ensures Streak(es + [e], key) == StreakAfter(Streak(es, key), e, key)
    ensures LastRejection(es + [e], key) == LastAfter(LastRejection(es, key), e, key)
    ensures Counter(l, es + [e], key) == if e.key == key then CounterAfter(l, Counter(l, es, key), e)
            else Counter(l, es, key)
  {
    assert (es + [e])[..|es|] == es;
  }

  ghost predicate Earned(l: Limits, es: seq<Event>, key: string, entry: Entry) {
    && entry.failures <= Streak(es, key)
    && (entry.until.Some? ==>
          LastRejection(es, key).Some? && entry.until.value == LastRejection(es, key).value + l.window)
  }

  /** Whatever was evicted, asked or reset: an entry never counts more than its own consecutive rejections. */
  lemma {:induction false} EntriesAreEarned(l: Limits, es: seq<Event>, key: string)
    requires l.limit > 0 && l.threshold > 0 && key in Run(l, es).entries
    ensures Earned(l, es, key, Run(l, es).entries[key])
  {
    hide Run, Streak, LastRejection, After, Lists;
    if es == [] {
      EmptyRun(l);
    } else {
      var es', e := es[..|es| - 1], es[|es| - 1];
      assert es == es' + [e];
      Unfold(l, es', e, key);
      RunIsValid(l, es');
      EntriesAfter(l, Run(l, es'), e);
      if key in Run(l, es').entries {
        EntriesAreEarned(l, es', key);
      }
    }
  }

  lemma EmptyRun(l: Limits)
    ensures Run(l, []) == Table(map[], [])
  {
  }

  /** Cooling is reported only after `threshold` rejections since the last reset, the latest inside the window. */
  lemma CoolingIsEarned(l: Limits, es: seq<Event>, key: string, now: int)
    requires l.limit > 0 && l.threshold > 0 && Cooling(Run(l, es).entries, key, now)
    ensures Streak(es, key) >= l.threshold
    ensures LastRejection(es, key).Some? && now < LastRejection(es, key).value + l.window
  {
    EntriesAreEarned(l, es, key);
    RunIsValid(l, es);
  }

  // ---------------------------------------------------------------- the bound against no bound

  /** One key's counter, with nothing ever evicted. */
  function CounterAfter(l: Limits, entry: Option<Entry>, e: Event): Option<Entry> {
    match e
    case Reject(_, now) => Some(Hit(l, if entry.Some? then entry.value else Entry(0, None), now))
    case Reset(_) => None
    case Ask(_, now) => if entry.Some? && entry.value.until.Some? && now >= entry.value.until.value then None else entry
  }

  function Counter(l: Limits, es: seq<Event>, key: string): Option<Entry> {
    if es == [] then None
    else
      var before := Counter(l, es[..|es| - 1], key);
      if es[|es| - 1].key == key then CounterAfter(l, before, es[|es| - 1]) else before
  }

  ghost predicate Agrees(l: Limits, es: seq<Event>) {
    forall key :: (if key in Run(l, es).entries then Some(Run(l, es).entries[key]) else None) == Counter(l, es, key)
  }

  /** The keys that have a counter, of those the history mentions. */
  function Counting(l: Limits, es: seq<Event>): set<string> {
    set e | e in es && Counter(l, es, e.key).Some? :: e.key
  }

  /** The table agrees with the unbounded counters all along exactly when these never outnumber the limit. */
  lemma BoundIsInvisible(l: Limits, es: seq<Event>)
    requires l.limit > 0 && l.threshold > 0
    ensures (forall i | 0 <= i <= |es| :: Agrees(l, es[..i])) <==>
            (forall i | 0 <= i <= |es| :: |Counting(l, es[..i])| <= l.limit)
  {
    if forall i | 0 <= i <= |es| :: Agrees(l, es[..i]) {
      forall i | 0 <= i <= |es|
        ensures |Counting(l, es[..i])| <= l.limit
      {
        assert Agrees(l, es[..i]);
        CountingIsTable(l, es[..i]);
        RunIsValid(l, es[..i]);
      }
    }
    if forall i | 0 <= i <= |es| :: |Counting(l, es[..i])| <= l.limit {
      forall i | 0 <= i <= |es|
        ensures Agrees(l, es[..i])
      {
        SmallAgrees(l, es, i);
      }
    }
  }

  lemma {:induction false} CounterIsMentioned(l: Limits, es: seq<Event>, key: string)
    requires Counter(l, es, key).Some?
    ensures exists e :: e in es && e.key == key
  {
    var es' := es[..|es| - 1];
    if Counter(l, es', key).Some? {
      CounterIsMentioned(l, es', key);
      var e :| e in es' && e.key == key;
      assert e in es;
    } else {
      assert es[|es| - 1] in es;
    }
  }

  lemma CountingIsTable(l: Limits, es: seq<Event>)
    requires Agrees(l, es)
    ensures Counting(l, es) == Run(l, es).entries.Keys
    ensures |Counting(l, es)| == |Run(l, es).entries|
  {
    forall key
      ensures key in Counting(l, es) <==> key in Run(l, es).entries
    {
      if Counter(l, es, key).Some? {
        CounterIsMentioned(l, es, key);
      }
    }
  }

  lemma {:induction false} SmallAgrees(l: Limits, es: seq<Event>, i: nat)
    requires l.limit > 0 && l.threshold > 0 && i <= |es|
    requires forall j | 0 <= j <= |es| :: |Counting(l, es[..j])| <= l.limit
    ensures Agrees(l, es[..i])
  {
    if i > 0 {
      SmallAgrees(l, es, i - 1);
      assert es[..i] == es[..i - 1] + [es[i - 1]];
      hide Agrees, Counting;
      AgreesNext(l, es[..i - 1], es[i - 1]);
    }
  }

  lemma AgreesNext(l: Limits, es: seq<Event>, e: Event)
    requires l.limit > 0 && l.threshold > 0 && Agrees(l, es) && |Counting(l, es + [e])| <= l.limit
    ensures Agrees(l, es + [e])
  {
    hide Run, Counter, Counting, After, Valid;
    var t := Run(l, es);
    RunIsValid(l, es);
    EntriesAfter(l, t, e);
    if e.Reject? && e.key !in t.entries {
      NewcomerFits(l, es, e);
    }
    forall key
      ensures (if key in Run(l, es + [e]).entries then Some(Run(l, es + [e]).entries[key]) else None) ==
              Counter(l, es + [e], key)
    {
      Unfold(l, es, e, key);
    }
  }

  /** The rejection of a new key makes the counters one more than the table has entries. */
  lemma NewcomerFits(l: Limits, es: seq<Event>, e: Event)
    requires e.Reject? && Agrees(l, es) && e.key !in Run(l, es).entries && |Counting(l, es + [e])| <= l.limit
    ensures |Run(l, es).entries| < l.limit
  {
    hide Run, Counter, Agrees;
    CountingIsTable(l, es);
    forall k | k in Counting(l, es)
      ensures k in Counting(l, es + [e])
    {
      var d :| d in es && d.key == k && Counter(l, es, k).Some?;
      Unfold(l, es, e, k);
      assert d in es + [e];
    }
    Unfold(l, es, e, e.key);
    assert e in es + [e] && e.key in Counting(l, es + [e]);
    Grows(Counting(l, es), Counting(l, es + [e]), e.key);
  }

  lemma Grows(a: set<string>, b: set<string>, x: string)
    requires a <= b && x in b && x !in a
    ensures |a| < |b|
  {
    assert b == a + (b - a) && x in b - a;
  }

  // ---------------------------------------------------------------- counting, in plain numbers

  /** The rejections of a key that count, and when the last of them was. */
  datatype Tally = Tally(count: nat, last: int)

  /** An ask that comes when the window after enough rejections is over forgets them. */
  predicate Forgets(l: Limits, t: Tally, e: Event) {
    e.Reset? || (e.Ask? && t.count >= l.threshold && e.now >= t.last + l.window)
  }

  function TallyOf(l: Limits, es: seq<Event>, key: string): Tally {
    if es == [] then Tally(0, 0)
    else
      var t, e := TallyOf(l, es[..|es| - 1], key), es[|es| - 1];
      if e.key != key then t
      else if Forgets(l, t, e) then Tally(0, 0)
      else if e.Reject? then Tally(t.count + 1, e.now)
      else t
  }

  lemma TallyNext(l: Limits, es: seq<Event>, e: Event, key: string)
    ensures var t := TallyOf(l, es, key);
            TallyOf(l, es + [e], key) ==
              if e.key != key then t else if Forgets(l, t, e) then Tally(0, 0)
              else if e.Reject? then Tally(t.count + 1, e.now) else t
  {
    assert (es + [e])[..|es|] == es;
  }

  /** Between two positions nothing forgets the key. */
  ghost predicate Unforgotten(l: Limits, es: seq<Event>, key: string, from: nat) {
    from <= |es| && forall i | from <= i < |es| && es[i].key == key :: !Forgets(l, TallyOf(l, es[..i], key), es[i])
  }

  /** How many of the events reject the key. */
  function Rejections(es: seq<Event>, key: string): nat {
    if es == [] then 0
    else Rejections(es[..|es| - 1], key) + if es[|es| - 1].Reject? && es[|es| - 1].key == key then 1 else 0
  }

  /** The count is of the rejections from there on, and what comes before was forgotten there. */
  ghost predicate CountsFrom(l: Limits, es: seq<Event>, key: string, from: nat) {
    && Unforgotten(l, es, key, from) && TallyOf(l, es, key).count == Rejections(es[from..], key)
    && (from > 0 ==> es[from - 1].key == key && Forgets(l, TallyOf(l, es[..from - 1], key), es[from - 1]))
  }

  /** The time is that of the last rejection. */
  ghost predicate LastIs(es: seq<Event>, key: string, from: nat, t: Tally) {
    t.count > 0 ==>
      exists i | from <= i < |es| ::
        es[i] == Reject(key, t.last) && forall j | i < j < |es| :: !(es[j].Reject? && es[j].key == key)
  }

  /** The tally is the number of rejections since whatever last forgot the key, or since the beginning. */
  lemma {:induction false} TallyCountsRejections(l: Limits, es: seq<Event>, key: string) returns (from: nat)
    requires l.threshold > 0
    ensures CountsFrom(l, es, key, from) && LastIs(es, key, from, TallyOf(l, es, key))
  {
    hide CountsFrom, LastIs, TallyOf, Forgets;
    if es == [] {
      NothingCounts(l, key);
      return 0;
    }
    var before, e := es[..|es| - 1], es[|es| - 1];
    assert es == before + [e];
    TallyNext(l, before, e, key);
    from := TallyCountsRejections(l, before, key);
    if e.key == key && Forgets(l, TallyOf(l, before, key), e) {
      ForgottenCounts(l, before, e, key);
      return |es|;
    }
    CountsNext(l, before, e, key, from);
    LastOne(before, e, key, from, TallyOf(l, before, key), TallyOf(l, es, key));
  }

  lemma NothingCounts(l: Limits, key: string)
    ensures CountsFrom(l, [], key, 0) && LastIs([], key, 0, TallyOf(l, [], key))
  {
  }

  lemma ForgottenCounts(l: Limits, before: seq<Event>, e: Event, key: string)
    requires e.key == key && Forgets(l, TallyOf(l, before, key), e)
    ensures CountsFrom(l, before + [e], key, |before| + 1)
    ensures LastIs(before + [e], key, |before| + 1, TallyOf(l, before + [e], key))
  {
    TallyNext(l, before, e, key);
    hide TallyOf, Forgets;
    assert (before + [e])[..|before|] == before && (before + [e])[|before| + 1..] == [];
  }

  lemma CountsNext(l: Limits, before: seq<Event>, e: Event, key: string, from: nat)
    requires CountsFrom(l, before, key, from) && !(e.key == key && Forgets(l, TallyOf(l, before, key), e))
    ensures from <= |before| && CountsFrom(l, before + [e], key, from)
  {
    hide TallyOf, Rejections, Forgets;
    var es := before + [e];
    TallyNext(l, before, e, key);
    assert es[from..] == before[from..] + [e];
    RejectionsNext(before[from..], e, key);
    assert from > 0 ==> es[..from - 1] == before[..from - 1];
    forall i | from <= i < |es| && es[i].key == key
      ensures !Forgets(l, TallyOf(l, es[..i], key), es[i])
    {
      if i < |before| {
        assert es[..i] == before[..i];
      } else {
        assert es[..i] == before;
      }
    }
  }

  lemma RejectionsNext(es: seq<Event>, e: Event, key: string)
    ensures Rejections(es + [e], key) == Rejections(es, key) + if e.Reject? && e.key == key then 1 else 0
  {
    assert (es + [e])[..|es|] == es;
  }

  lemma LastOne(before: seq<Event>, e: Event, key: string, from: nat, t: Tally, u: Tally)
    requires from <= |before| && LastIs(before, key, from, t)
    requires if e.Reject? && e.key == key then u == Tally(t.count + 1, e.now) else u == t
    ensures LastIs(before + [e], key, from, u)
  {
    var es := before + [e];
    if e.Reject? && e.key == key {
      assert es[|before|] == Reject(key, u.last);
    } else if t.count > 0 {
      var i :| from <= i < |before| && before[i] == Reject(key, t.last)
               && forall j | i < j < |before| :: !(before[j].Reject? && before[j].key == key);
      assert es[i] == Reject(key, u.last);
    }
  }

  /** The entry that a tally stands for. */
  function EntryOf(l: Limits, t: Tally): Option<Entry> {
    if t.count == 0 then None
    else Some(Entry(t.count, if t.count < l.threshold then None else Some(t.last + l.window)))
  }

  lemma EntryNext(l: Limits, t: Tally, e: Event)
    requires l.threshold > 0
    ensures CounterAfter(l, EntryOf(l, t), e) ==
            EntryOf(l, if Forgets(l, t, e) then Tally(0, 0) else if e.Reject? then Tally(t.count + 1, e.now) else t)
  {
  }

  /** The unbounded counter is that tally. */
  lemma {:induction false} CounterIsTally(l: Limits, es: seq<Event>, key: string)
    requires l.threshold > 0
    ensures Counter(l, es, key) == EntryOf(l, TallyOf(l, es, key))
  {
    hide CounterAfter, Forgets, Run, Streak, LastRejection;
    if es != [] {
      var before, e := es[..|es| - 1], es[|es| - 1];
      assert es == before + [e];
      CounterIsTally(l, before, key);
      TallyNext(l, before, e, key);
      Unfold(l, before, e, key);
      EntryNext(l, TallyOf(l, before, key), e);
    }
  }

  /**
   With no more counters than the limit all along, a key is cooling exactly when its rejections since
   whatever last forgot it reach the threshold and the window after the last of them is not over.
   */
  lemma CoolingIsExact(l: Limits, es: seq<Event>, key: string, now: int)
    requires l.limit > 0 && l.threshold > 0 && forall i | 0 <= i <= |es| :: |Counting(l, es[..i])| <= l.limit
    ensures var t := TallyOf(l, es, key);
            Cooling(Run(l, es).entries, key, now) <==> t.count >= l.threshold && now < t.last + l.window
  {
    BoundIsInvisible(l, es);
    assert es[..|es|] == es && Agrees(l, es[..|es|]);
    CounterIsTally(l, es, key);
  }

  // ---------------------------------------------------------------- who is evicted

  /** The position just after the last event that mentions the key. */
  function LastUse(es: seq<Event>, key: string): nat {
    if es == [] then 0 else if es[|es| - 1].key == key then |es| else LastUse(es[..|es| - 1], key)
  }

  lemma UseNext(es: seq<Event>, e: Event, key: string)
    ensures LastUse(es + [e], key) == if e.key == key then |es| + 1 else LastUse(es, key)
    ensures LastUse(es, key) <= |es|
    decreases |es|
  {
    assert (es + [e])[..|es|] == es;
    if es != [] {
      UseNext(es[..|es| - 1], es[|es| - 1], key);
      assert es == es[..|es| - 1] + [es[|es| - 1]];
    }
  }

  /** The list goes from the most to the least recently used key. */
  ghost predicate ByUse(lru: seq<string>, es: seq<Event>) {
    forall i, j | 0 <= i < j < |lru| :: LastUse(es, lru[i]) > LastUse(es, lru[j])
  }

  lemma {:induction false} WithoutKeepsOrder(lru: seq<string>, es: seq<Event>, k: string)
    requires ByUse(lru, es)
    ensures ByUse(Without(lru, k), es) && (forall x | x in Without(lru, k) :: x in lru && x != k)
  {
    if lru != [] {
      assert ByUse(lru[1..], es);
      WithoutKeepsOrder(lru[1..], es, k);
      if lru[0] != k {
        PushKeepsOrder(lru[0], lru[1..], Without(lru[1..], k), es, lru);
      }
    }
  }

  lemma PushKeepsOrder(x: string, rest: seq<string>, kept: seq<string>, es: seq<Event>, lru: seq<string>)
    requires lru == [x] + rest && ByUse(lru, es) && ByUse(kept, es) && forall y | y in kept :: y in rest
    ensures ByUse([x] + kept, es)
  {
    forall j | 0 <= j < |kept|
      ensures LastUse(es, x) > LastUse(es, kept[j])
    {
      assert kept[j] in rest;
      var i :| 0 <= i < |rest| && rest[i] == kept[j];
      assert lru[0] == x && lru[i + 1] == kept[j];
    }
  }

  lemma FrontIsLatest(kept: seq<string>, es: seq<Event>, e: Event)
    requires ByUse(kept, es) && forall x | x in kept :: x != e.key
    ensures ByUse(kept, es + [e]) && ByUse([e.key] + kept, es + [e])
  {
    forall x
      ensures LastUse(es + [e], x) == (if e.key == x then |es| + 1 else LastUse(es, x)) && LastUse(es, x) <= |es|
    {
      UseNext(es, e, x);
    }
    forall i | 0 <= i < |kept|
      ensures kept[i] != e.key
    {
      assert kept[i] in kept;
    }
  }

  lemma AfterKeepsOrder(l: Limits, t: Table, es: seq<Event>, e: Event)
    requires l.limit > 0 && Valid(l, t) && ByUse(t.lru, es)
    ensures ByUse(After(l, t, e).lru, es + [e])
  {
    hide ByUse, LastUse;
    WithoutKeepsOrder(t.lru, es, e.key);
    FrontIsLatest(Without(t.lru, e.key), es, e);
    if e.key !in t.entries {
      assert e.key !in t.lru;
      FrontIsLatest(t.lru, es, e);
      var u := Table(t.entries[e.key := Entry(0, None)], [e.key] + t.lru);
      WithoutKeepsOrder(u.lru, es + [e], u.lru[|u.lru| - 1]);
    }
  }

  /** After every history the list is in order of use, so whoever is evicted was used longest ago. */
  lemma {:induction false} ListIsByUse(l: Limits, es: seq<Event>)
    requires l.limit > 0 && l.threshold > 0
    ensures ByUse(Run(l, es).lru, es)
  {
    hide ByUse, Valid, After;
    if es == [] {
      EmptyRun(l);
      NothingUsed();
    } else {
      var before, e := es[..|es| - 1], es[|es| - 1];
      assert es == before + [e];
      ListIsByUse(l, before);
      RunIsValid(l, before);
      Unfold(l, before, e, "");
      AfterKeepsOrder(l, Run(l, before), before, e);
    }
  }

  lemma NothingUsed()
    ensures ByUse([], [])
  {
  }

  /** The key a full table gives up for a newcomer is the one whose last use is longest ago. */
  lemma EvictedIsLeastRecent(l: Limits, es: seq<Event>, e: Event, gone: string, k: string)
    requires l.limit > 0 && l.threshold > 0 && e.Reject?
    requires gone in Run(l, es).entries && gone !in Run(l, es + [e]).entries && k in Run(l, es).entries && k != gone
    ensures e.key !in Run(l, es).entries && |Run(l, es).entries| == l.limit
    ensures LastUse(es, gone) < LastUse(es, k) && k in Run(l, es + [e]).entries
  {
    hide Run, After, Valid, LastUse;
    var t := Run(l, es);
    RunIsValid(l, es);
    ListIsByUse(l, es);
    Unfold(l, es, e, gone);
    EvictedIsBack(l, t, e, gone, k);
  }

  lemma EvictedIsBack(l: Limits, t: Table, e: Event, gone: string, k: string)
    requires l.limit > 0 && l.threshold > 0 && Valid(l, t) && e.Reject?
    requires gone in t.entries && gone !in After(l, t, e).entries && k in t.entries && k != gone
    ensures e.key !in t.entries && |t.entries| == l.limit && k in After(l, t, e).entries
    ensures t.lru != [] && gone == t.lru[|t.lru| - 1] && k in t.lru
  {
    hide EntriesOK, Without;
    EntriesAfter(l, t, e);
    assert k in t.lru;
    GrownKeys(t.entries, e.key, Entry(0, None));
    assert ([e.key] + t.lru)[|t.lru|] == t.lru[|t.lru| - 1];
  }

  lemma WindowIsEarned(l: Limits, t: Table, key: string)
    requires Valid(l, t)
    ensures key in t.entries ==> (t.entries[key].until.Some? <==> t.entries[key].failures >= l.threshold)
  {
  }

  // ---------------------------------------------------------------- the object

  class BindingCooldown {
    const limits: Limits
    var entries: map<string, Entry>
    var lru: seq<string>

    ghost function View(): Table
      reads this
    {
      Table(entries, lru)
    }

    ghost predicate Ok()
      reads this
    {
      limits.limit > 0 && limits.threshold > 0 && limits.window > 0 && Valid(limits, View())
    }

    constructor (limit: int, threshold: int, window: int)
      ensures Ok() && View() == Run(limits, []) && limits == Configured(limit, threshold, window)
    {
      limits := Configured(limit, threshold, window);
      entries, lru := map[], [];
    }

    method Remove(key: string)
      modifies this
      ensures View() == Dropped(old(View()), key)
    {
      entries := entries - {key};
      lru := Without(lru, key);
    }

    method MoveToFront(key: string)
      modifies this
      ensures View() == Touched(old(View()), key)
    {
      lru := [key] + Without(lru, key);
    }

    method Admit(key: string)
      modifies this
      ensures View() == Admitted(limits, old(View()), key)
    {
      lru := [key] + lru;
      entries := entries[key := Entry(0, None)];
      if |entries| > limits.limit {
        Remove(lru[|lru| - 1]);
      }
    }

    /** Whether the key is inside its window; a lapsed entry is dropped. */
    method Asks(key: string, now: int) returns (cooling: bool)
      requires Ok()
      modifies this
      ensures Ok() && View() == After(limits, old(View()), Ask(key, now))
      ensures cooling == Cooling(old(entries), key, now)
    {
      AfterIsValid(limits, View(), Ask(key, now));
      if key !in entries {
        return false;
      }
      if entries[key].until.None? {
        MoveToFront(key);
        return false;
      }
      if now >= entries[key].until.value {
        Remove(key);
        return false;
      }
      MoveToFront(key);
      return true;
    }

    /** Records one rejection and reports whether the key is now cooling. */
    method Rejects(key: string, now: int) returns (cooling: bool)
      requires Ok()
      modifies this
      ensures Ok() && View() == After(limits, old(View()), Reject(key, now))
      ensures cooling == Cooling(entries, key, now)
    {
      hide Valid, Lists, Without, Admitted, Touched;
      ghost var before := View();
      AfterIsValid(limits, before, Reject(key, now));
      TouchedKeeps(before, key);
      WindowIsEarned(limits, before, key);
      if key !in entries {
        AdmittedIsValid(limits, before, key);
        Admit(key);
      } else {
        MoveToFront(key);
      }
      var e := entries[key].(failures := entries[key].failures + 1);
      if e.failures < limits.threshold {
        entries := entries[key := e];
        return false;
      }
      entries := entries[key := e.(until := Some(now + limits.window))];
      return true;
    }

    method Resets(key: string)
      requires Ok()
      modifies this
      ensures Ok() && View() == After(limits, old(View()), Reset(key))
    {
      AfterIsValid(limits, View(), Reset(key));
      if key in entries {
        Remove(key);
      }
    }
  }
}
