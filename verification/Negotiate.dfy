/**
 Content-coding negotiation of internal/compress/compress.go (section 12.5.3 of RFC 9110), over ASCII
 header values. A q-value's text is read by `number`, which gives nothing for text that is malformed
 and zero for a NaN.
 */
module Negotiate {
  import opened Ascii
  import opened Options

  /** What a header says: the codings it names, last mention winning, and its wildcard. */
  datatype Preferences = Preferences(named: map<string, real>, star: Option<real>)

  function Clamped(x: real): real {
    if x < 0.0 then 0.0 else if x > 1.0 then 1.0 else x
  }

  /** A parameter that gives a q-value. */
  predicate IsQ(param: string) {
    var p := Trimmed(param);
    |p| >= 2 && LowerAll(p[..2]) == "q="
  }

  function QText(param: string): string
    requires IsQ(param)
  {
    Trimmed(Trimmed(param)[2..])
  }

  predicate Malformed(param: string, number: string -> Option<real>) {
    IsQ(param) && number(QText(param)).None?
  }

  /** The last of the parameters that satisfies IsQ is the one at `i`. */
  predicate LastQ(params: seq<string>, i: nat) {
    i < |params| && IsQ(params[i]) && forall j | i < j < |params| :: !IsQ(params[j])
  }

  /** The quality that parameters give a coding: none if any q-value is malformed, else the last one, else full. */
  ghost predicate IsQuality(params: seq<string>, value: real, number: string -> Option<real>) {
    && 0.0 <= value <= 1.0
    && if exists i | 0 <= i < |params| :: Malformed(params[i], number) then value == 0.0
       else
         && ((forall i | 0 <= i < |params| :: !IsQ(params[i])) ==> value == 1.0)
         && (forall i | 0 <= i < |params| && LastQ(params, i) :: value == Clamped(number(QText(params[i])).value))
  }

  /** The coding a part names, in lower case; nothing for a blank part. */
  function NameOf(part: string): string {
    LowerAll(Trimmed(Split(Trimmed(part), ';')[0]))
  }

  function ParamsOf(part: string): seq<string> {
    Split(Trimmed(part), ';')[1..]
  }

  predicate Names(parts: seq<string>, name: string) {
    exists i | 0 <= i < |parts| :: NameOf(parts[i]) == name
  }

  /** The last part naming the coding gives it this quality. */
  ghost predicate LastSays(parts: seq<string>, name: string, value: real, number: string -> Option<real>) {
    exists i | 0 <= i < |parts| ::
      && NameOf(parts[i]) == name && IsQuality(ParamsOf(parts[i]), value, number)
      && forall j | i < j < |parts| :: NameOf(parts[j]) != name
  }

  /** The preferences that a list of parts expresses. */
  ghost predicate IsReading(parts: seq<string>, p: Preferences, number: string -> Option<real>) {
    && (forall name :: name in p.named <==> name != "" && name != "*" && Names(parts, name))
    && (forall name | name in p.named :: LastSays(parts, name, p.named[name], number))
    && (p.star.Some? <==> Names(parts, "*"))
    && (p.star.Some? ==> LastSays(parts, "*", p.star.value, number))
  }

  ghost predicate IsMeaning(header: string, p: Preferences, number: string -> Option<real>) {
    IsReading(Split(header, ','), p, number)
  }

  /** A coding's quality: its own, else the wildcard's, else none. */
  function QualityOf(p: Preferences, name: string): real {
    if name in p.named then p.named[name] else if p.star.Some? then p.star.value else 0.0
  }

  function IdentityQuality(p: Preferences): real {
    if "identity" in p.named then p.named["identity"] else if p.star.Some? then p.star.value else 1.0
  }

  /** The first of the best codings on offer; identity when none is wanted and it is not refused. */
  ghost predicate IsChoice(p: Preferences, offered: seq<string>, coding: string, acceptable: bool) {
    if exists i | 0 <= i < |offered| :: QualityOf(p, offered[i]) > 0.0 then
      acceptable && exists i | 0 <= i < |offered| ::
        && offered[i] == coding && QualityOf(p, coding) > 0.0
        && (forall j | 0 <= j < |offered| :: QualityOf(p, offered[j]) <= QualityOf(p, coding))
        && (forall j | 0 <= j < i :: QualityOf(p, offered[j]) < QualityOf(p, coding))
    else coding == "" && acceptable == (IdentityQuality(p) > 0.0)
  }

  // ---------------------------------------------------------------- one meaning

  lemma QualityIsUnique(params: seq<string>, v: real, w: real, number: string -> Option<real>)
    requires IsQuality(params, v, number) && IsQuality(params, w, number)
    ensures v == w
  {
    if exists i | 0 <= i < |params| :: IsQ(params[i]) {
      var i := TheLastQ(params);
      assert LastQ(params, i);
    }
  }

  lemma {:induction false} TheLastQ(params: seq<string>) returns (i: nat)
    requires exists i | 0 <= i < |params| :: IsQ(params[i])
    ensures LastQ(params, i)
  {
    i := |params| - 1;
    if !IsQ(params[i]) {
      var j :| 0 <= j < |params| && IsQ(params[j]);
      assert IsQ(params[..i][j]);
      i := TheLastQ(params[..i]);
    }
  }

  lemma LastSaysOneThing(parts: seq<string>, name: string, v: real, w: real, number: string -> Option<real>)
    requires LastSays(parts, name, v, number) && LastSays(parts, name, w, number)
    ensures v == w
  {
    hide IsQuality, NameOf, ParamsOf;
    var i :| 0 <= i < |parts| && NameOf(parts[i]) == name && IsQuality(ParamsOf(parts[i]), v, number)
             && forall j | i < j < |parts| :: NameOf(parts[j]) != name;
    var k :| 0 <= k < |parts| && NameOf(parts[k]) == name && IsQuality(ParamsOf(parts[k]), w, number)
             && forall j | k < j < |parts| :: NameOf(parts[j]) != name;
    assert i == k;
    QualityIsUnique(ParamsOf(parts[i]), v, w, number);
  }

  /** A header has exactly one meaning. */
  lemma MeaningIsUnique(header: string, p: Preferences, q: Preferences, number: string -> Option<real>)
    requires IsMeaning(header, p, number) && IsMeaning(header, q, number)
    ensures p == q
  {
    hide LastSays, Names;
    var parts := Split(header, ',');
    assert p.named.Keys == q.named.Keys;
    forall name | name in p.named
      ensures p.named[name] == q.named[name]
    {
      LastSaysOneThing(parts, name, p.named[name], q.named[name], number);
    }
    assert p.named == q.named;
    if p.star.Some? {
      LastSaysOneThing(parts, "*", p.star.value, q.star.value, number);
    }
  }

  /** One more part overrides what was said of the coding it names and of no other. */
  lemma Enters(parts: seq<string>, part: string, name: string, value: real, number: string -> Option<real>)
    ensures Names(parts + [part], name) <==> Names(parts, name) || NameOf(part) == name
    ensures NameOf(part) == name && IsQuality(ParamsOf(part), value, number) ==>
              LastSays(parts + [part], name, value, number)
    ensures NameOf(part) != name && LastSays(parts, name, value, number) ==>
              LastSays(parts + [part], name, value, number)
  {
    hide IsQuality, NameOf, ParamsOf;
    var all := parts + [part];
    assert all[|parts|] == part;
    forall i | 0 <= i < |parts|
      ensures all[i] == parts[i]
    {
    }
    if NameOf(part) != name && LastSays(parts, name, value, number) {
      var i :| 0 <= i < |parts| && NameOf(parts[i]) == name && IsQuality(ParamsOf(parts[i]), value, number)
               && forall j | i < j < |parts| :: NameOf(parts[j]) != name;
      assert NameOf(all[i]) == name;
    }
    if Names(parts, name) {
      var i :| 0 <= i < |parts| && NameOf(parts[i]) == name;
      assert NameOf(all[i]) == name;
    }
  }

  function Entered(p: Preferences, name: string, value: real): Preferences {
    if name == "" then p else if name == "*" then p.(star := Some(value)) else p.(named := p.named[name := value])
  }

  lemma ReadsOn(parts: seq<string>, part: string, p: Preferences, value: real, number: string -> Option<real>)
    requires IsReading(parts, p, number) && IsQuality(ParamsOf(part), value, number)
    ensures IsReading(parts + [part], Entered(p, NameOf(part), value), number)
  {
    hide IsQuality, NameOf, ParamsOf, Names, LastSays;
    var q := Entered(p, NameOf(part), value);
    forall name
      ensures name in q.named <==> name != "" && name != "*" && Names(parts + [part], name)
    {
      Enters(parts, part, name, value, number);
    }
    forall name | name in q.named
      ensures LastSays(parts + [part], name, q.named[name], number)
    {
      Enters(parts, part, name, q.named[name], number);
    }
    Enters(parts, part, "*", if q.star.Some? then q.star.value else value, number);
  }

  lemma {:induction false} QualityExists(params: seq<string>, number: string -> Option<real>) returns (value: real)
    ensures IsQuality(params, value, number)
  {
    hide IsQ, QText;
    if exists i | 0 <= i < |params| :: Malformed(params[i], number) {
      return 0.0;
    }
    if forall i | 0 <= i < |params| :: !IsQ(params[i]) {
      return 1.0;
    }
    var i := TheLastQ(params);
    assert !Malformed(params[i], number);
    value := Clamped(number(QText(params[i])).value);
  }

  lemma {:induction false} ReadingExists(parts: seq<string>, number: string -> Option<real>) returns (p: Preferences)
    ensures IsReading(parts, p, number)
  {
    hide IsQuality, NameOf, ParamsOf;
    if parts == [] {
      return Preferences(map[], None);
    }
    var before, last := parts[..|parts| - 1], parts[|parts| - 1];
    p := ReadingExists(before, number);
    var value := QualityExists(ParamsOf(last), number);
    ReadsOn(before, last, p, value, number);
    assert parts == before + [last];
    p := Entered(p, NameOf(last), value);
  }

  /** No space at either end, and no semicolon. */
  predicate Word(s: string) {
    s != "" && !Space(s[0]) && !Space(s[|s| - 1]) && ';' !in s
  }

  /** What a q-value comes to: itself between zero and one, and the nearer of the two otherwise. */
  lemma ClampedIs(x: real)
    ensures 0.0 <= x <= 1.0 ==> Clamped(x) == x
    ensures x < 0.0 ==> Clamped(x) == 0.0
    ensures x > 1.0 ==> Clamped(x) == 1.0
  {
  }

  lemma WordIsTrimmed(s: string)
    requires s != "" && !Space(s[0]) && !Space(s[|s| - 1])
    ensures Trimmed(s) == s
  {
    assert s == "" + s;
    TrimmedBlanks("", s);
  }

  lemma FieldReads(blanks: string, q: char, gap: string, value: string)
    requires Word(value) && (q == 'q' || q == 'Q') && (forall c | c in blanks + gap :: Space(c))
    ensures var rest := blanks + ([q, '='] + gap + value); IsQ(rest) && QText(rest) == value && ';' !in rest
  {
    hide Trimmed;
    var field := [q, '='] + gap + value;
    assert field[0] == q && field[|field| - 1] == value[|value| - 1];
    assert forall c | c in blanks :: c in blanks + gap;
    assert forall c | c in gap :: c in blanks + gap;
    TrimmedBlanks(blanks, field);
    TrimmedBlanks(gap, value);
    assert field[2..] == gap + value && field[..2] == [q, '='];
    assert LowerAll([q, '=']) == "q=";
  }

  lemma PartSplits(name: string, rest: string)
    requires Word(name) && rest != "" && !Space(rest[|rest| - 1]) && ';' !in rest
    ensures NameOf(name + ";" + rest) == LowerAll(name) && ParamsOf(name + ";" + rest) == [rest]
  {
    hide Trimmed, LowerAll, Split;
    var part := name + ";" + rest;
    assert part[0] == name[0] && part[|part| - 1] == rest[|rest| - 1];
    WordIsTrimmed(part);
    WordIsTrimmed(name);
    SplitInTwo(name, rest, ';');
  }

  /** A coding with a q-value reads as written, in either case and with space before it and after the sign. */
  lemma PartReads(name: string, blanks: string, q: char, gap: string, value: string, x: real,
                  number: string -> Option<real>)
    requires Word(name) && Word(value) && (q == 'q' || q == 'Q') && number(value) == Some(x)
    requires forall c | c in blanks + gap :: Space(c)
    ensures var part := name + ";" + (blanks + ([q, '='] + gap + value));
            NameOf(part) == LowerAll(name) && IsQuality(ParamsOf(part), Clamped(x), number)
  {
    hide NameOf, ParamsOf, LowerAll, IsQ, QText;
    var rest := blanks + ([q, '='] + gap + value);
    assert rest[|rest| - 1] == value[|value| - 1];
    FieldReads(blanks, q, gap, value);
    PartSplits(name, rest);
    assert LastQ([rest], 0) && !Malformed(rest, number);
  }

  /** The last part that names the wildcard, or the coding, says so. */
  ghost predicate Gives(header: string, name: string, value: real, number: string -> Option<real>) {
    LastSays(Split(header, ','), name, value, number)
  }

  predicate Mentions(header: string, name: string) {
    Names(Split(header, ','), name)
  }

  /**
   From the header itself: a coding has the quality its last mention gives it; one that is not mentioned
   has the wildcard's; without a wildcard it is not wanted, and identity alone is.
   */
  lemma QualitiesFromHeader(header: string, p: Preferences, name: string, value: real, number: string -> Option<real>)
    requires IsMeaning(header, p, number) && name != "" && name != "*"
    ensures Gives(header, name, value, number) ==> QualityOf(p, name) == value
    ensures !Mentions(header, name) && Gives(header, "*", value, number) ==> QualityOf(p, name) == value
    ensures !Mentions(header, name) && !Mentions(header, "*") ==> QualityOf(p, name) == 0.0
    ensures Gives(header, "identity", value, number) ==> IdentityQuality(p) == value
    ensures !Mentions(header, "identity") && Gives(header, "*", value, number) ==> IdentityQuality(p) == value
    ensures !Mentions(header, "identity") && !Mentions(header, "*") ==> IdentityQuality(p) == 1.0
  {
    hide IsQuality, NameOf, ParamsOf;
    var parts := Split(header, ',');
    forall x | LastSays(parts, x, value, number)
      ensures Names(parts, x)
    {
    }
    if Gives(header, name, value, number) {
      LastSaysOneThing(parts, name, p.named[name], value, number);
    }
    if Gives(header, "identity", value, number) {
      LastSaysOneThing(parts, "identity", p.named["identity"], value, number);
    }
    if Gives(header, "*", value, number) {
      LastSaysOneThing(parts, "*", p.star.value, value, number);
    }
  }

  // ---------------------------------------------------------------- parsing

  method ReadQuality(params: seq<string>, number: string -> Option<real>) returns (value: real)
    ensures IsQuality(params, value, number)
  {
    value := 1.0;
    for i := 0 to |params|
      invariant 0.0 <= value <= 1.0 && forall j | 0 <= j < i :: !Malformed(params[j], number)
      invariant (forall j | 0 <= j < i :: !IsQ(params[j])) ==> value == 1.0
      invariant forall j | 0 <= j < i && IsQ(params[j]) && forall k | j < k < i :: !IsQ(params[k]) ::
                  value == Clamped(number(QText(params[j])).value)
    {
      var p := Trimmed(params[i]);
      if |p| < 2 || LowerAll(p[..2]) != "q=" {
        continue;
      }
      var x := number(Trimmed(p[2..]));
      if x.None? {
        assert Malformed(params[i], number);
        return 0.0;
      }
      value := Clamped(x.value);
    }
  }

  method ParseAcceptEncoding(header: string, number: string -> Option<real>) returns (p: Preferences)
    ensures IsMeaning(header, p, number)
  {
    hide IsQuality, Names, LastSays;
    var parts := Split(header, ',');
    p := Preferences(map[], None);
    Unread(number);
    for i := 0 to |parts|
      invariant IsReading(parts[..i], p, number)
    {
      assert parts[..i + 1] == parts[..i] + [parts[i]];
      ghost var some := QualityExists(ParamsOf(parts[i]), number);
      ReadsOn(parts[..i], parts[i], p, some, number);
      var part := Trimmed(parts[i]);
      if part == "" {
        continue;
      }
      var fields := Split(part, ';');
      var name := LowerAll(Trimmed(fields[0]));
      if name == "" {
        continue;
      }
      var value := ReadQuality(fields[1..], number);
      ReadsOn(parts[..i], parts[i], p, value, number);
      if name == "*" {
        p := p.(star := Some(value));
        continue;
      }
      p := p.(named := p.named[name := value]);
    }
    assert parts[..|parts|] == parts;
  }

  lemma Unread(number: string -> Option<real>)
    ensures IsReading([], Preferences(map[], None), number)
  {
  }

  // ---------------------------------------------------------------- the bare list

  predicate Bare(header: string) {
    ';' !in header && '*' !in header
  }

  /** A bare part is the coding it names, at full quality. */
  lemma BarePart(part: string)
    requires Bare(part)
    ensures NameOf(part) == LowerAll(Trimmed(part)) && NameOf(part) != "*" && ParamsOf(part) == []
  {
    TrimmedIsPart(part);
    SplitIsWhole(Trimmed(part), ';');
    if LowerAll(Trimmed(part)) == "*" {
      StarIsKept(Trimmed(part));
    }
  }

  lemma StarIsKept(s: string)
    requires LowerAll(s) == "*"
    ensures '*' in s
  {
    assert Lower(s[0]) == LowerAll(s)[0];
  }

  /** A bare header wants exactly what it lists, and does not refuse identity. */
  lemma BareMeaning(header: string, p: Preferences, number: string -> Option<real>)
    requires Bare(header) && IsMeaning(header, p, number)
    ensures IdentityQuality(p) > 0.0
    ensures forall name | name != "" :: QualityOf(p, name) == if Lists(Split(header, ','), name) then 1.0 else 0.0
  {
    hide Trimmed, LowerAll, NameOf, ParamsOf, Split;
    var listed := Split(header, ',');
    SplitIsPart(header, ',');
    forall i | 0 <= i < |listed|
      ensures NameOf(listed[i]) == LowerAll(Trimmed(listed[i])) && NameOf(listed[i]) != "*" && ParamsOf(listed[i]) == []
    {
      assert listed[i] in listed;
      BarePart(listed[i]);
    }
    forall name | name in p.named
      ensures p.named[name] == 1.0
    {
      assert LastSays(listed, name, p.named[name], number);
    }
    forall name | name != ""
      ensures QualityOf(p, name) == if Lists(listed, name) then 1.0 else 0.0
    {
      if Lists(listed, name) {
        var part :| part in listed && LowerAll(Trimmed(part)) == name;
        var i :| 0 <= i < |listed| && listed[i] == part;
        assert NameOf(listed[i]) == name;
      }
    }
  }

  /** The list names the coding, whatever its case. */
  predicate Lists(listed: seq<string>, name: string) {
    exists part :: part in listed && LowerAll(Trimmed(part)) == name
  }

  /** A blank header names nothing. */
  lemma BlankMeaning(header: string, number: string -> Option<real>)
    requires Trimmed(header) == ""
    ensures IsMeaning(header, Preferences(map[], None), number)
  {
    BlankIsSpace(header);
    SplitIsWhole(header, ',');
    assert NameOf(header) == "";
  }

  lemma {:induction false} BlankIsSpace(s: string)
    requires Trimmed(s) == ""
    ensures forall c | c in s :: Space(c)
  {
    if s != "" {
      assert s == [s[0]] + s[1..];
      assert s == s[..|s| - 1] + [s[|s| - 1]];
      if Space(s[0]) {
        BlankIsSpace(s[1..]);
      } else {
        BlankIsSpace(s[..|s| - 1]);
      }
    }
  }

  // ---------------------------------------------------------------- choosing

  method FirstListed(offered: seq<string>, listed: seq<string>) returns (i: nat)
    ensures i <= |offered|
    ensures forall j | 0 <= j < i :: !Lists(listed, offered[j])
    ensures i < |offered| ==> Lists(listed, offered[i])
  {
    i := 0;
    while i < |offered|
      invariant i <= |offered|
      invariant forall j | 0 <= j < i :: !Lists(listed, offered[j])
    {
      for k := 0 to |listed|
        invariant forall j | 0 <= j < k :: LowerAll(Trimmed(listed[j])) != offered[i]
      {
        if LowerAll(Trimmed(listed[k])) == offered[i] {
          assert listed[k] in listed;
          return;
        }
      }
      i := i + 1;
    }
  }

  /** For every header: the bare-list shortcut and the q-value arithmetic make the same choice. */
  method Choose(header: string, offered: seq<string>, number: string -> Option<real>)
    returns (coding: string, acceptable: bool)
    requires forall name | name in offered :: name != ""
    ensures exists p :: IsMeaning(header, p, number) && IsChoice(p, offered, coding, acceptable)
  {
    hide IsMeaning, Split;
    if Trimmed(header) == "" {
      BlankMeaning(header, number);
      assert IsChoice(Preferences(map[], None), offered, "", true);
      return "", true;
    }
    if Bare(header) {
      var listed := Split(header, ',');
      ghost var p := MeaningExists(header, number);
      BareMeaning(header, p, number);
      var i := FirstListed(offered, listed);
      assert forall j | 0 <= j < |offered| :: offered[j] in offered;
      if i < |offered| {
        assert IsChoice(p, offered, offered[i], true);
        return offered[i], true;
      }
      assert IsChoice(p, offered, "", true);
      return "", true;
    }
    var p := ParseAcceptEncoding(header, number);
    coding, acceptable := ChooseByQuality(p, offered);
  }

  lemma MeaningExists(header: string, number: string -> Option<real>) returns (p: Preferences)
    ensures IsMeaning(header, p, number)
  {
    p := ReadingExists(Split(header, ','), number);
  }

  method ChooseByQuality(p: Preferences, offered: seq<string>) returns (coding: string, acceptable: bool)
    requires forall name | name in offered :: name != ""
    ensures IsChoice(p, offered, coding, acceptable)
  {
    var best := 0.0;
    coding := "";
    ghost var at := 0;
    for i := 0 to |offered|
      invariant forall j | 0 <= j < i :: QualityOf(p, offered[j]) <= best
      invariant if coding == "" then best == 0.0
                else best > 0.0 && 0 <= at < i && offered[at] == coding && QualityOf(p, coding) == best
                     && forall j | 0 <= j < at :: QualityOf(p, offered[j]) < best
    {
      assert offered[i] in offered;
      var v := QualityOf(p, offered[i]);
      if v <= 0.0 {
        continue;
      }
      if v > best {
        coding, best, at := offered[i], v, i;
      }
    }
    if coding != "" {
      return coding, true;
    }
    return "", IdentityQuality(p) > 0.0;
  }
}
