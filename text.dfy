/**
  The Python string builtins the core relies on, stated over `string` (a sequence of Unicode
  scalar values, which is what a Python `str` holds): `str.strip`, `str.split(sep)`, the
  line iteration of a text file, `str(int)` and `int(str)`.
 */
module Text {
  import opened Wrappers

  /** The characters `str.strip()` removes (Python's `str.isspace`). */
  predicate IsSpace(c: char)
  {
    || c == ' '
    || '\t' <= c <= '\r'
    || '\U{1C}' <= c <= '\U{1F}'
    || c == '\U{85}' || c == '\U{A0}' || c == '\U{1680}'
    || '\U{2000}' <= c <= '\U{200A}'
    || c == '\U{2028}' || c == '\U{2029}' || c == '\U{202F}' || c == '\U{205F}' || c == '\U{3000}'
  }

  /** `s.lstrip()`: the suffix left after the longest all-whitespace prefix. */
  function LStrip(s: string): (r: string)
    ensures r == [] || !IsSpace(r[0])
  {
    if s != [] && IsSpace(s[0]) then LStrip(s[1..]) else s
  }

  /** `s.rstrip()`: the prefix left after the longest all-whitespace suffix. */
  function RStrip(s: string): (r: string)
    ensures r == [] || !IsSpace(r[|r| - 1])
  {
    if s != [] && IsSpace(s[|s| - 1]) then RStrip(s[..|s| - 1]) else s
  }

  /** `lstrip` removes a prefix, and only whitespace. */
  lemma {:induction false} LStripIsSuffix(s: string)
    ensures |LStrip(s)| <= |s| && LStrip(s) == s[|s| - |LStrip(s)|..]
    ensures forall i :: 0 <= i < |s| - |LStrip(s)| ==> IsSpace(s[i])
  {
    if s != [] && IsSpace(s[0]) {
      LStripIsSuffix(s[1..]);
    }
  }

  /** `rstrip` removes a suffix, and only whitespace. */
  lemma {:induction false} RStripIsPrefix(s: string)
    ensures |RStrip(s)| <= |s| && RStrip(s) == s[..|RStrip(s)|]
    ensures forall i :: |RStrip(s)| <= i < |s| ==> IsSpace(s[i])
  {
    if s != [] && IsSpace(s[|s| - 1]) {
      RStripIsPrefix(s[..|s| - 1]);
    }
  }

  /** `r` is what is left of `s` after `k` whitespace characters before it and only whitespace after it. */
  predicate TrimmedAt(s: string, r: string, k: nat)
  {
    && k + |r| <= |s| && r == s[k..k + |r|]
    && (forall i :: 0 <= i < k ==> IsSpace(s[i]))
    && (forall i :: k + |r| <= i < |s| ==> IsSpace(s[i]))
  }

  /**
    `s.strip()`: a middle part of `s` with only whitespace cut away before and after it, and
    neither end of it blank.
   */
  function Strip(s: string): (r: string)
    ensures r == [] || (!IsSpace(r[0]) && !IsSpace(r[|r| - 1]))
    ensures exists k :: TrimmedAt(s, r, k)
  {
    StripTrims(s);
    RStripIsPrefix(LStrip(s));
    RStrip(LStrip(s))
  }

  /** Cutting the whitespace ends of `s` leaves a middle part of it. */
  lemma StripTrims(s: string)
    ensures |LStrip(s)| <= |s| && TrimmedAt(s, RStrip(LStrip(s)), |s| - |LStrip(s)|)
  {
    var l := LStrip(s);
    LStripIsSuffix(s);
    RStripIsPrefix(l);
    var k := |s| - |l|;
    var r := RStrip(l);
    assert r == s[k..k + |r|];
    forall i | k + |r| <= i < |s| ensures IsSpace(s[i]) {
      assert s[i] == l[i - k];
    }
  }

  /** `strip` only removes characters at the ends, so it adds no line break. */
  lemma StripKeepsNoLineBreak(s: string)
    requires HasNoLineBreak(s)
    ensures HasNoLineBreak(Strip(s))
  {
    var l := LStrip(s);
    LStripIsSuffix(s);
    forall i | 0 <= i < |l| ensures !IsLineBreak(l[i]) {
      assert l[i] == s[|s| - |l| + i];
    }
    var r := RStrip(l);
    RStripIsPrefix(l);
    forall i | 0 <= i < |r| ensures !IsLineBreak(r[i]) {
      assert r[i] == l[i];
    }
  }

  /** Trailing whitespace behind a non-blank prefix is all `rstrip` touches. */
  lemma {:induction false} RStripAfter(a: string, b: string)
    requires a != [] && !IsSpace(a[|a| - 1])
    ensures RStrip(a + b) == a + RStrip(b)
  {
    if b != [] {
      assert (a + b)[|a + b| - 1] == b[|b| - 1];
      if IsSpace(b[|b| - 1]) {
        assert (a + b)[..|a + b| - 1] == a + b[..|b| - 1];
        RStripAfter(a, b[..|b| - 1]);
      }
    } else {
      assert a + b == a;
    }
  }

  /** `sep.join(fields)`. */
  function Join(fields: seq<string>, sep: char): string
    requires |fields| >= 1
  {
    if |fields| == 1 then fields[0] else fields[0] + [sep] + Join(fields[1..], sep)
  }

  /** `sep.join` of four fields, written out. */
  lemma JoinFour(a: string, b: string, c: string, d: string, sep: char)
    ensures Join([a, b, c, d], sep) == a + [sep] + b + [sep] + c + [sep] + d
  {
    var fields := [a, b, c, d];
    assert fields[1..] == [b, c, d];
    assert fields[1..][1..] == [c, d];
    assert fields[1..][1..][1..] == [d];
    assert Join([c, d], sep) == c + [sep] + d;
    assert Join([b, c, d], sep) == b + [sep] + (c + [sep] + d);
  }

  /** `s.split(sep)` for a one-character separator: always at least one field. */
  function Split(s: string, sep: char): (r: seq<string>)
    ensures |r| >= 1
    ensures forall i :: 0 <= i < |r| ==> sep !in r[i]
  {
    if s == [] then [[]]
    else
      var rest := Split(s[1..], sep);
      if s[0] == sep then [[]] + rest else [[s[0]] + rest[0]] + rest[1..]
  }

  /** A single field is the whole text. */
  lemma {:induction false} SplitSingleIsWhole(s: string, sep: char)
    ensures |Split(s, sep)| == 1 ==> Split(s, sep)[0] == s
  {
    if s != [] {
      SplitSingleIsWhole(s[1..], sep);
      var rest := Split(s[1..], sep);
      if s[0] != sep && |rest| == 1 {
        assert [s[0]] + rest[0] == s;
      }
    }
  }

  /** Past the first character, the last field is that of the rest of the text. */
  lemma SplitLastOfRest(s: string, sep: char)
    requires s != [] && (s[0] == sep || |Split(s[1..], sep)| > 1)
    ensures var r := Split(s, sep);
            var rest := Split(s[1..], sep);
            r[|r| - 1] == rest[|rest| - 1]
  {
    var rest := Split(s[1..], sep);
    if s[0] == sep {
      assert Split(s, sep) == [[]] + rest;
    } else {
      assert Split(s, sep) == [[s[0]] + rest[0]] + rest[1..];
    }
  }

  /** A suffix of the tail of `s` is a suffix of `s`. */
  lemma SuffixOfTail(s: string, t: string)
    requires s != [] && |t| <= |s| - 1 && t == s[1..][|s| - 1 - |t|..]
    ensures t == s[|s| - |t|..]
  {
    assert s[1..][|s| - 1 - |t|..] == s[|s| - |t|..];
  }

  /** The last field is a suffix of the text. */
  lemma {:induction false} SplitLastField(s: string, sep: char)
    ensures var r := Split(s, sep);
            |r[|r| - 1]| <= |s| && r[|r| - 1] == s[|s| - |r[|r| - 1]|..]
  {
    if s != [] {
      SplitLastField(s[1..], sep);
      var rest := Split(s[1..], sep);
      if s[0] != sep && |rest| == 1 {
        SplitSingleIsWhole(s[1..], sep);
        assert [s[0]] + rest[0] == s;
      } else {
        SplitLastOfRest(s, sep);
        SuffixOfTail(s, rest[|rest| - 1]);
      }
    }
  }

  /** The last field is a suffix of the text, and a single field is the whole text. */
  lemma SplitLastIsSuffix(s: string, sep: char)
    ensures var r := Split(s, sep);
            && (|r| == 1 ==> r[0] == s)
            && |r[|r| - 1]| <= |s| && r[|r| - 1] == s[|s| - |r[|r| - 1]|..]
  {
    SplitSingleIsWhole(s, sep);
    SplitLastField(s, sep);
  }

  /** Splitting a text without line breaks gives fields without line breaks. */
  lemma {:induction false} SplitKeepsNoLineBreak(s: string, sep: char)
    requires HasNoLineBreak(s)
    ensures forall i :: 0 <= i < |Split(s, sep)| ==> HasNoLineBreak(Split(s, sep)[i])
  {
    if s != [] {
      SplitKeepsNoLineBreak(s[1..], sep);
      var rest := Split(s[1..], sep);
      if s[0] != sep {
        var first := [s[0]] + rest[0];
        forall j | 0 <= j < |first| ensures !IsLineBreak(first[j]) {
          if j > 0 {
            assert first[j] == rest[0][j - 1];
          }
        }
      }
    }
  }

  /** Splitting and re-joining gives back the text. */
  lemma {:induction false} JoinSplit(s: string, sep: char)
    ensures Join(Split(s, sep), sep) == s
  {
    if s != [] {
      var rest := Split(s[1..], sep);
      JoinSplit(s[1..], sep);
      if s[0] != sep && |rest| > 1 {
        assert ([[s[0]] + rest[0]] + rest[1..])[1..] == rest[1..];
        assert Join(rest, sep) == rest[0] + [sep] + Join(rest[1..], sep);
      }
    }
  }

  /** A text without the separator is a single field. */
  lemma {:induction false} SplitWithoutSep(s: string, sep: char)
    requires sep !in s
    ensures Split(s, sep) == [s]
  {
    if s != [] {
      assert s[0] in s && sep !in s[1..];
      SplitWithoutSep(s[1..], sep);
      assert [s[0]] + s[1..] == s;
    }
  }

  /** A separator-free first field is cut off at the first separator. */
  lemma {:induction false} SplitAtFirstSep(a: string, b: string, sep: char)
    requires sep !in a
    ensures Split(a + [sep] + b, sep) == [a] + Split(b, sep)
  {
    if a == [] {
      assert a + [sep] + b == [sep] + b;
      assert ([sep] + b)[1..] == b;
    } else {
      assert (a + [sep] + b)[0] == a[0] && a[0] in a;
      assert (a + [sep] + b)[1..] == a[1..] + [sep] + b;
      assert sep !in a[1..];
      SplitAtFirstSep(a[1..], b, sep);
      assert [a[0]] + a[1..] == a;
    }
  }

  /** Joining separator-free fields and splitting again gives back the fields. */
  lemma {:induction false} SplitJoin(fields: seq<string>, sep: char)
    requires |fields| >= 1
    requires forall i :: 0 <= i < |fields| ==> sep !in fields[i]
    ensures Split(Join(fields, sep), sep) == fields
  {
    if |fields| == 1 {
      SplitWithoutSep(fields[0], sep);
    } else {
      SplitJoin(fields[1..], sep);
      SplitAtFirstSep(fields[0], Join(fields[1..], sep), sep);
      assert [fields[0]] + fields[1..] == fields;
    }
  }

  /**
    The characters at which iterating over a text file ends a line. A file opened in text mode
    turns "\r\n" and "\r" into "\n"; treating '\r' and '\n' separately only adds empty lines
    after a "\r\n", and every reader in this model discards an empty line.
   */
  predicate IsLineBreak(c: char)
  {
    c == '\n' || c == '\r'
  }

  predicate HasNoLineBreak(s: string)
  {
    forall i :: 0 <= i < |s| ==> !IsLineBreak(s[i])
  }

  /** The lines of a file's text, without their terminators; a final unterminated line counts. */
  function Lines(t: string): (r: seq<string>)
    ensures t != [] ==> r != []
  {
    if t == [] then []
    else if IsLineBreak(t[0]) then [[]] + Lines(t[1..])
    else
      var rest := Lines(t[1..]);
      if rest == [] then [[t[0]]] else [[t[0]] + rest[0]] + rest[1..]
  }

  /** No line contains a line break. */
  lemma {:induction false} LinesHaveNoLineBreak(t: string)
    ensures forall i :: 0 <= i < |Lines(t)| ==> HasNoLineBreak(Lines(t)[i])
  {
    if t != [] {
      LinesHaveNoLineBreak(t[1..]);
      var rest := Lines(t[1..]);
      if !IsLineBreak(t[0]) && rest != [] {
        var first := [t[0]] + rest[0];
        forall j | 0 <= j < |first| ensures !IsLineBreak(first[j]) {
          if j > 0 {
            assert first[j] == rest[0][j - 1];
          }
        }
      }
    }
  }

  /** Text appended after a line terminator starts new lines: the old lines are kept as they were. */
  lemma {:induction false} LinesConcat(a: string, b: string)
    requires a == [] || IsLineBreak(a[|a| - 1])
    ensures Lines(a + b) == Lines(a) + Lines(b)
  {
    if a == [] {
      assert a + b == b;
    } else {
      assert (a + b)[0] == a[0];
      assert (a + b)[1..] == a[1..] + b;
      LinesConcat(a[1..], b);
      if !IsLineBreak(a[0]) {
        assert a[1..] != [];
      }
    }
  }

  /** A line written with a line terminator reads back as exactly that line. */
  lemma {:induction false} LinesOfTerminated(x: string, c: char)
    requires HasNoLineBreak(x) && IsLineBreak(c)
    ensures Lines(x + [c]) == [x]
  {
    if x == [] {
      assert x + [c] == [c];
    } else {
      assert (x + [c])[0] == x[0];
      assert (x + [c])[1..] == x[1..] + [c];
      LinesOfTerminated(x[1..], c);
      assert [x[0]] + x[1..] == x;
    }
  }

  /** A last line without its terminator still counts as a line. */
  lemma {:induction false} LinesOfUnterminated(x: string)
    requires x != [] && HasNoLineBreak(x)
    ensures Lines(x) == [x]
  {
    assert !IsLineBreak(x[0]);
    if |x| == 1 {
      assert x == [x[0]];
    } else {
      LinesOfUnterminated(x[1..]);
      assert [x[0]] + x[1..] == x;
    }
  }

  predicate IsDigit(c: char)
  {
    '0' <= c <= '9'
  }

  predicate AllDigits(s: string)
  {
    forall i :: 0 <= i < |s| ==> IsDigit(s[i])
  }

  function DigitChar(d: nat): (c: char)
    requires d < 10
    ensures IsDigit(c) && c as int - '0' as int == d
  {
    ('0' as int + d) as char
  }

  /** The decimal digits of `n`, most significant first, without leading zeros. */
  function Digits(n: nat): (r: string)
    ensures r != [] && AllDigits(r)
    ensures r[0] == '0' ==> n == 0
  {
    if n < 10 then [DigitChar(n)] else Digits(n / 10) + [DigitChar(n % 10)]
  }

  /** `str(n)` for a Python int. */
  function IntToStr(n: int): (r: string)
    ensures r != [] && (IsDigit(r[0]) || r[0] == '-') && IsDigit(r[|r| - 1])
    ensures forall i :: 1 <= i < |r| ==> IsDigit(r[i])
    ensures r[0] == '0' ==> r == "0"
    ensures r[0] == '-' ==> |r| >= 2 && r[1] != '0'
  {
    if n < 0 then "-" + Digits(-n) else Digits(n)
  }

  /** The number a string of decimal digits denotes. */
  function DigitsValue(s: string): nat
    requires AllDigits(s)
  {
    if s == [] then 0 else DigitsValue(s[..|s| - 1]) * 10 + (s[|s| - 1] as int - '0' as int)
  }

  lemma {:induction false} DigitsValueOfDigits(n: nat)
    ensures DigitsValue(Digits(n)) == n
  {
    if n >= 10 {
      var d := Digits(n / 10) + [DigitChar(n % 10)];
      assert d[..|d| - 1] == Digits(n / 10);
      DigitsValueOfDigits(n / 10);
    }
  }

  /** Leading zeros do not change the number a string of digits denotes. */
  lemma {:induction false} DigitsValueLeadingZero(b: string)
    requires AllDigits(b)
    ensures AllDigits("0" + b) && DigitsValue("0" + b) == DigitsValue(b)
  {
    var z := "0" + b;
    assert AllDigits(z) by {
      forall i | 0 <= i < |z|
        ensures IsDigit(z[i])
      {
        if i > 0 { assert z[i] == b[i - 1]; }
      }
    }
    if b != [] {
      var p := b[..|b| - 1];
      assert AllDigits(p);
      assert z[..|z| - 1] == "0" + p;
      assert z[|z| - 1] == b[|b| - 1];
      DigitsValueLeadingZero(p);
    }
  }

  /** An optional sign followed by at least one decimal digit. */
  predicate IsIntLiteral(t: string)
  {
    || (t != [] && AllDigits(t))
    || (|t| >= 2 && (t[0] == '+' || t[0] == '-') && AllDigits(t[1..]))
  }

  /**
    `int(s)`: surrounding whitespace is ignored, then an optional sign and at least one
    decimal digit; anything else is the ValueError case (None).
   */
  function ParseInt(s: string): (r: Option<int>)
    ensures r.Some? <==> IsIntLiteral(Strip(s))
    ensures r.Some? && Strip(s)[0] == '-' ==> r.value <= 0
    ensures r.Some? && Strip(s)[0] != '-' ==> r.value >= 0
    ensures r.Some? ==>
      var t := Strip(s);
      var b := if t[0] == '+' || t[0] == '-' then t[1..] else t;
      AllDigits(b) && (if r.value < 0 then -r.value else r.value) == DigitsValue(b)
  {
    var t := Strip(s);
    if t != [] && (t[0] == '+' || t[0] == '-') then
      var body := t[1..];
      if body != [] && AllDigits(body) then
        var v: int := DigitsValue(body);
        Some(if t[0] == '-' then -v else v)
      else None
    else if t != [] && AllDigits(t) then Some(DigitsValue(t))
    else None
  }

  /** `int(str(n)) == n`. */
  lemma ParseIntOfIntToStr(n: int)
    ensures ParseInt(IntToStr(n)) == Some(n)
  {
    var s := IntToStr(n);
    StripOfIntToStr(n);
    if n < 0 {
      assert s[0] == '-' && s[1..] == Digits(-n);
      DigitsValueOfDigits(-n);
    } else {
      assert s[0] != '-' && s[0] != '+';
      DigitsValueOfDigits(n);
    }
  }

  /** `str(n)` starts with a digit or '-' and ends with a digit, so `strip` leaves it alone. */
  lemma StripOfIntToStr(n: int)
    ensures Strip(IntToStr(n)) == IntToStr(n)
  {
    var s := IntToStr(n);
    assert !IsSpace(s[0]);
    assert LStrip(s) == s;
    assert !IsSpace(s[|s| - 1]);
    assert RStrip(s) == s;
  }
}
