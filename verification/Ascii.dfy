/** Strings of ASCII characters, as the standard library's trimming, case folding and splitting treat them. */
module Ascii {

  function Upper(c: char): char {
    if 'a' <= c <= 'z' then c - 'a' + 'A' else c
  }

  function Lower(c: char): char {
    if 'A' <= c <= 'Z' then c - 'A' + 'a' else c
  }

  function LowerAll(s: string): string {
    seq(|s|, i requires 0 <= i < |s| => Lower(s[i]))
  }

  /** Blank, tab, newline, vertical tab, form feed and carriage return. */
  predicate Space(c: char) {
    c == ' ' || 9 <= c as int <= 13
  }

  function Trimmed(s: string): string {
    if s != "" && Space(s[0]) then Trimmed(s[1..])
    else if s != "" && Space(s[|s| - 1]) then Trimmed(s[..|s| - 1])
    else s
  }

  lemma {:induction false} TrimmedIsPart(s: string)
    ensures forall c | c in Trimmed(s) :: c in s
    ensures Trimmed(Trimmed(s)) == Trimmed(s)
  {
    if s != "" && Space(s[0]) {
      TrimmedIsPart(s[1..]);
    } else if s != "" && Space(s[|s| - 1]) {
      TrimmedIsPart(s[..|s| - 1]);
    }
  }

  /** What trimming leaves has no space at either end, and only space has gone. */
  lemma {:induction false} TrimmedIs(s: string) returns (before: string, after: string)
    ensures s == before + Trimmed(s) + after
    ensures (forall c | c in before :: Space(c)) && (forall c | c in after :: Space(c))
    ensures Trimmed(s) != "" ==> !Space(Trimmed(s)[0]) && !Space(Trimmed(s)[|Trimmed(s)| - 1])
  {
    before, after := "", "";
    if s != "" && Space(s[0]) {
      before, after := TrimmedIs(s[1..]);
      before := [s[0]] + before;
    } else if s != "" && Space(s[|s| - 1]) {
      before, after := TrimmedIs(s[..|s| - 1]);
      after := after + [s[|s| - 1]];
      assert s == s[..|s| - 1] + [s[|s| - 1]];
    }
  }

  /** Trimming takes space off in front of what neither begins nor ends with space. */
  lemma {:induction false} TrimmedBlanks(blanks: string, s: string)
    requires (forall c | c in blanks :: Space(c)) && s != "" && !Space(s[0]) && !Space(s[|s| - 1])
    ensures Trimmed(blanks + s) == s
  {
    if blanks == "" {
      assert blanks + s == s;
    } else {
      assert blanks[0] in blanks && (blanks + s)[1..] == blanks[1..] + s;
      TrimmedBlanks(blanks[1..], s);
    }
  }

  /** The pieces between separators; without a separator, the string itself. */
  function Split(s: string, sep: char): (parts: seq<string>)
    ensures |parts| > 0
  {
    if s == "" then [""]
    else
      var rest := Split(s[1..], sep);
      if s[0] == sep then [""] + rest else [[s[0]] + rest[0]] + rest[1..]
  }

  /** The parts with separators between them. */
  function Rejoined(parts: seq<string>, sep: char): string
    requires |parts| > 0
  {
    if |parts| == 1 then parts[0] else parts[0] + [sep] + Rejoined(parts[1..], sep)
  }

  /** Splitting is undone by joining, and no part has a separator in it. */
  lemma {:induction false} SplitRejoins(s: string, sep: char)
    ensures Rejoined(Split(s, sep), sep) == s && forall part | part in Split(s, sep) :: sep !in part
  {
    if s != "" {
      SplitRejoins(s[1..], sep);
      var rest, all := Split(s[1..], sep), Split(s, sep);
      if s[0] == sep {
        assert all[1..] == rest;
      } else {
        assert all[1..] == rest[1..] && all[0] == [s[0]] + rest[0];
        assert rest[0] in rest;
        if |rest| > 1 {
          assert all[0] + [sep] + Rejoined(all[1..], sep) == [s[0]] + (rest[0] + [sep] + Rejoined(rest[1..], sep));
        }
      }
      assert s == [s[0]] + s[1..];
    }
  }

  lemma {:induction false} SplitIsWhole(s: string, sep: char)
    requires sep !in s
    ensures Split(s, sep) == [s]
  {
    if s != "" {
      SplitIsWhole(s[1..], sep);
      assert s == [s[0]] + s[1..];
    }
  }

  lemma {:induction false} SplitInTwo(a: string, b: string, sep: char)
    requires sep !in a && sep !in b
    ensures Split(a + [sep] + b, sep) == [a, b]
  {
    var s := a + [sep] + b;
    if a == "" {
      assert s[1..] == b;
      SplitIsWhole(b, sep);
    } else {
      assert s[1..] == a[1..] + [sep] + b;
      SplitInTwo(a[1..], b, sep);
      assert a == [a[0]] + a[1..];
    }
  }

  lemma {:induction false} SplitIsPart(s: string, sep: char)
    ensures forall part, c | part in Split(s, sep) && c in part :: c in s
  {
    if s != "" {
      SplitIsPart(s[1..], sep);
      var rest := Split(s[1..], sep);
      forall part, c | part in Split(s, sep) && c in part
        ensures c in s
      {
        if part in rest {
          assert c in s[1..];
        } else if s[0] != sep && part == [s[0]] + rest[0] {
          assert c == s[0] || (rest[0] in rest && c in s[1..]);
        }
      }
    }
  }
}
