/**
 The in-memory device store of oauth/device.go: the records by device code and the index from
 normalized user code back to them. Its methods are the device steps of Engine.dfy, performed in
 place.
 */
module DeviceStore {
  import opened Options
  import opened TokenStore
  import opened Engine
  import opened Ascii

  function Letters(s: string): string {
    if s == "" then "" else (if s[0] == '-' then "" else [Upper(s[0])]) + Letters(s[1..])
  }

  /** Trimmed, upper case, without dashes: over ASCII. */
  function NormalizeUserCode(s: string): string {
    Letters(Trimmed(s))
  }

  /** The characters of a code that are not dashes. */
  function Undashed(s: string): string {
    if s == "" then "" else (if s[0] == '-' then "" else [s[0]]) + Undashed(s[1..])
  }

  /** The same character, or the two cases of one letter. */
  predicate SameLetter(c: char, d: char) {
    || c == d
    || ('a' <= c <= 'z' && d as int == c as int - 32)
    || ('a' <= d <= 'z' && c as int == d as int - 32)
  }

  predicate SameLetters(s: string, t: string) {
    |s| == |t| && forall i | 0 <= i < |s| :: SameLetter(s[i], t[i])
  }

  lemma {:induction false} LettersAre(s: string)
    ensures |Letters(s)| == |Undashed(s)| && forall i | 0 <= i < |Letters(s)| :: Letters(s)[i] == Upper(Undashed(s)[i])
  {
    if s != "" {
      LettersAre(s[1..]);
    }
  }

  /** Two user codes are taken for the same exactly when they differ in case, dashes and surrounding space at most. */
  lemma NormalizeAlike(a: string, b: string)
    ensures NormalizeUserCode(a) == NormalizeUserCode(b) <==> SameLetters(Undashed(Trimmed(a)), Undashed(Trimmed(b)))
  {
    LettersAre(Trimmed(a));
    LettersAre(Trimmed(b));
    var x, y := Undashed(Trimmed(a)), Undashed(Trimmed(b));
    hide Letters, Undashed, Trimmed;
    forall c, d
      ensures Upper(c) == Upper(d) <==> SameLetter(c, d)
    {
    }
    if NormalizeUserCode(a) == NormalizeUserCode(b) {
      forall i | 0 <= i < |x|
        ensures SameLetter(x[i], y[i])
      {
        assert NormalizeUserCode(a)[i] == Upper(x[i]) && NormalizeUserCode(b)[i] == Upper(y[i]);
      }
    }
  }

  datatype Entry = Entry(userCode: string, device: Device)

  datatype Saved = Ok | CodeTaken | UserCodeConflict

  /** The index maps each record's user code to the record and holds nothing else. */
  ghost predicate Inverse(byDev: map<string, Entry>, byUser: map<string, string>) {
    && (forall h | h in byDev ::
          NormalizeUserCode(byDev[h].userCode) in byUser && byUser[NormalizeUserCode(byDev[h].userCode)] == h)
    && (forall u | u in byUser :: byUser[u] in byDev && NormalizeUserCode(byDev[byUser[u]].userCode) == u)
  }

  function Devices(byDev: map<string, Entry>): map<string, Device> {
    map h | h in byDev :: byDev[h].device
  }

  /** The engine's device step on these records at this time. */
  function Stepped(byDev: map<string, Entry>, now: int, eff: Effect): map<string, Device> {
    DevicesAfter(Init().mem.(devices := Devices(byDev), now := now), eff)
  }

  /** Some record's user code normalizes alike. */
  ghost predicate Named(byDev: map<string, Entry>, userCode: string) {
    exists h :: h in byDev && NormalizeUserCode(byDev[h].userCode) == NormalizeUserCode(userCode)
  }

  /** Replacing the device of a record leaves the index its inverse. */
  lemma SetKeepsInverse(byDev: map<string, Entry>, byUser: map<string, string>, code: string, d: Device)
    requires Inverse(byDev, byUser) && code in byDev
    ensures Inverse(byDev[code := byDev[code].(device := d)], byUser)
    ensures Devices(byDev[code := byDev[code].(device := d)]) == Devices(byDev)[code := d]
  {
    hide NormalizeUserCode;
  }

  lemma NamedIsIndexed(byDev: map<string, Entry>, byUser: map<string, string>, userCode: string)
    requires Inverse(byDev, byUser)
    ensures NormalizeUserCode(userCode) in byUser <==> Named(byDev, userCode)
  {
    hide NormalizeUserCode;
  }

  lemma PutKeepsInverse(byDev: map<string, Entry>, byUser: map<string, string>, code: string, e: Entry)
    requires Inverse(byDev, byUser) && code !in byDev && NormalizeUserCode(e.userCode) !in byUser
    ensures Inverse(byDev[code := e], byUser[NormalizeUserCode(e.userCode) := code])
    ensures Devices(byDev[code := e]) == Stepped(byDev, 0, PutDevice(code, e.device))
  {
    hide NormalizeUserCode;
  }

  function Decided(d: Device, status: Status, approval: Option<Consent>): Device {
    d.(status := status, subject := if approval.Some? then approval.value.subject else "",
       scopes := if approval.Some? then approval.value.scopes else [])
  }

  lemma StepsAre(byDev: map<string, Entry>, code: string, at: int, status: Status, approval: Option<Consent>)
    ensures Stepped(byDev, at, Stamp(code)) ==
            if code in byDev then Devices(byDev)[code := byDev[code].device.(lastPoll := Some(at))] else Devices(byDev)
    ensures Stepped(byDev, 0, Decide(code, status, approval)) ==
            if code in byDev && byDev[code].device.status == Pending
            then Devices(byDev)[code := Decided(byDev[code].device, status, approval)]
            else Devices(byDev)
  {
  }

  lemma SweptIs(byDev: map<string, Entry>, now: int, kept: map<string, Entry>)
    requires kept == map h | h in byDev && now < byDev[h].device.expires :: byDev[h]
    ensures Devices(kept) == Stepped(byDev, now, SweepDevices)
  {
  }

  /** What a sweep has left when `todo` is still to be looked at. */
  ghost function Left(byDev: map<string, Entry>, todo: set<string>, now: int): map<string, Entry> {
    map h | h in byDev && (h in todo || now < byDev[h].device.expires) :: byDev[h]
  }

  lemma LeftAtStart(byDev: map<string, Entry>, now: int)
    ensures Left(byDev, byDev.Keys, now) == byDev
  {
  }

  lemma LeftAtEnd(byDev: map<string, Entry>, now: int)
    ensures Left(byDev, {}, now) == map h | h in byDev && now < byDev[h].device.expires :: byDev[h]
  {
  }

  lemma LeftNext(byDev: map<string, Entry>, todo: set<string>, now: int, h: string)
    requires h in todo && h in byDev
    ensures var l := Left(byDev, todo, now);
            && h in l && l[h] == byDev[h] && |l - {h}| == |l| - 1
            && Left(byDev, todo - {h}, now) == if now < byDev[h].device.expires then l else l - {h}
  {
    var l := Left(byDev, todo, now);
    assert l == (l - {h})[h := byDev[h]];
  }

  class MemoryDeviceStore {
    var byDev: map<string, Entry>
    var byUser: map<string, string>

    ghost predicate Valid()
      reads this
    {
      Inverse(byDev, byUser)
    }

    constructor ()
      ensures Valid() && byDev == map[]
    {
      byDev, byUser := map[], map[];
    }

    /** Refused when the device code is stored already or the normalized user code names a record. */
    method SaveDevice(code: string, e: Entry) returns (saved: Saved)
      requires Valid()
      modifies this
      ensures Valid()
      ensures saved == CodeTaken <==> code in old(byDev)
      ensures saved == UserCodeConflict <==> code !in old(byDev) && Named(old(byDev), e.userCode)
      ensures saved == Ok ==>
                byDev == old(byDev)[code := e] && Devices(byDev) == Stepped(old(byDev), 0, PutDevice(code, e.device))
      ensures saved != Ok ==> byDev == old(byDev) && byUser == old(byUser)
    {
      hide Inverse, NormalizeUserCode, Named, Devices, Stepped;
      NamedIsIndexed(byDev, byUser, e.userCode);
      var canonical := NormalizeUserCode(e.userCode);
      if code in byDev {
        return CodeTaken;
      }
      if canonical in byUser {
        return UserCodeConflict;
      }
      PutKeepsInverse(byDev, byUser, code, e);
      byDev := byDev[code := e];
      byUser := byUser[canonical := code];
      return Ok;
    }

    /** Finds exactly the record whose user code normalizes alike. */
    method GetDeviceByUserCode(userCode: string) returns (found: Option<string>)
      requires Valid()
      ensures found.Some? ==>
                found.value in byDev && NormalizeUserCode(byDev[found.value].userCode) == NormalizeUserCode(userCode)
      ensures found.None? ==> forall h | h in byDev ::
                NormalizeUserCode(byDev[h].userCode) != NormalizeUserCode(userCode)
    {
      var key := NormalizeUserCode(userCode);
      if key !in byUser {
        return None;
      }
      return Some(byUser[key]);
    }

    /** Stamps the poll and nothing else. */
    method RecordPoll(code: string, at: int) returns (found: bool)
      requires Valid()
      modifies this`byDev
      ensures Valid() && found == (code in old(byDev))
      ensures Devices(byDev) == Stepped(old(byDev), at, Stamp(code))
    {
      hide Inverse, Devices, Stepped;
      StepsAre(byDev, code, at, Pending, None);
      if code !in byDev {
        return false;
      }
      SetKeepsInverse(byDev, byUser, code, byDev[code].device.(lastPoll := Some(at)));
      byDev := byDev[code := byDev[code].(device := byDev[code].device.(lastPoll := Some(at)))];
      return true;
    }

    /** Applies only to a pending record. */
    method RecordDecision(code: string, status: Status, approval: Option<Consent>) returns (applied: bool)
      requires Valid()
      modifies this`byDev
      ensures Valid() && applied == (code in old(byDev) && old(byDev)[code].device.status == Pending)
      ensures Devices(byDev) == Stepped(old(byDev), 0, Decide(code, status, approval))
    {
      hide Inverse, Devices, Stepped, Decided;
      StepsAre(byDev, code, 0, status, approval);
      if code !in byDev || byDev[code].device.status != Pending {
        return false;
      }
      var d := Decided(byDev[code].device, status, approval);
      SetKeepsInverse(byDev, byUser, code, d);
      byDev := byDev[code := byDev[code].(device := d)];
      return true;
    }

    /** Hands an approved record to one caller and drops it with its index entry. */
    method ConsumeDevice(code: string) returns (d: Option<Device>)
      requires Valid()
      modifies this
      ensures Valid()
      ensures d == if code in old(byDev) && old(byDev)[code].device.status == Approved
              then Some(old(byDev)[code].device) else None
      ensures Devices(byDev) == if d.Some? then Stepped(old(byDev), 0, TakeDevice(code)) else Devices(old(byDev))
    {
      if code !in byDev || byDev[code].device.status != Approved {
        return None;
      }
      d := Some(byDev[code].device);
      Remove(code);
    }

    method Remove(code: string)
      requires Valid() && code in byDev
      modifies this
      ensures Valid() && byDev == old(byDev) - {code}
    {
      var key := NormalizeUserCode(byDev[code].userCode);
      hide NormalizeUserCode;
      if key in byUser && byUser[key] == code {
        byUser := byUser - {key};
      }
      byDev := byDev - {code};
    }

    method SweepExpired(now: int) returns (removed: nat)
      requires Valid()
      modifies this
      ensures Valid() && Devices(byDev) == Stepped(old(byDev), now, SweepDevices)
      ensures removed + |byDev| == |old(byDev)|
    {
      hide NormalizeUserCode, Inverse, Devices, Stepped, Left;
      removed := 0;
      var todo := byDev.Keys;
      LeftAtStart(byDev, now);
      while todo != {}
        invariant Valid() && todo <= old(byDev).Keys && removed + |byDev| == |old(byDev)|
        invariant byDev == Left(old(byDev), todo, now)
        decreases todo
      {
        var h :| h in todo;
        LeftNext(old(byDev), todo, now, h);
        if now >= byDev[h].device.expires {
          Remove(h);
          removed := removed + 1;
        }
        todo := todo - {h};
      }
      LeftAtEnd(old(byDev), now);
      SweptIs(old(byDev), now, byDev);
    }
  }
}
