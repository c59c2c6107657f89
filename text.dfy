/** Python string behaviour the bot relies on: `str.strip()`, `str.split(sep)`,
    `in` on strings, `startswith`/`endswith`, `int(...)` on a decimal literal and
    `str(n)` on an integer. */
module Text {

  datatype Option<+T> = None | Some(value: T)

  /** The characters for which Python's `str.isspace()` holds. */
  predicate IsSpace(c: char)
  {
    var n := c as int;
    (9 <= n <= 13) || (28 <= n <= 32) || n == 0x85 || n == 0xA0 || n == 0x1680
    || (0x2000 <= n <= 0x200A) || n == 0x2028 || n == 0x2029 || n == 0x202F
    || n == 0x205F || n == 0x3000
  }

  predicate AllSpace(s: string)
  {
    forall i :: 0 <= i < |s| ==> IsSpace(s[i])
  }

  /** `s` with its leading whitespace removed. */
  function TrimStart(s: string): (r: string)
    ensures |r| <= |s| && r == s[|s| - |r|..]
    ensures AllSpace(s[..|s| - |r|])
    ensures r == [] || !IsSpace(r[0])
  {
    if s != [] && IsSpace(s[0]) then TrimStart(s[1..]) else s
  }

  /** `s` with its trailing whitespace removed. */
  function TrimEnd(s: string): (r: string)
    ensures |r| <= |s| && r == s[..|r|]
    ensures AllSpace(s[|r|..])
    ensures r == [] || !IsSpace(r[|r| - 1])
  {
    if s != [] && IsSpace(s[|s| - 1]) then
      var init := s[..|s| - 1];
      var r := TrimEnd(init);
      assert init[..|r|] == s[..|r|];
      assert s[|r|..] == init[|r|..] + [s[|s| - 1]];
      r
    else s
  }

  /** Python's `s.strip()`: the text between the leading and trailing whitespace. */
  function Strip(s: string): (r: string)
    ensures r == [] || (!IsSpace(r[0]) && !IsSpace(r[|r| - 1]))
  {
    TrimEnd(TrimStart(s))
  }

  /** Stripping leaves nothing exactly when the text is all whitespace. */
  lemma StripEmpty(s: string)
    ensures Strip(s) == [] <==> AllSpace(s)
  {
    var t := TrimStart(s);
    if t != [] {
      assert !IsSpace(t[0]);
      assert !IsSpace(s[|s| - |t|]);
    } else {
      assert s[..|s|] == s;
    }
  }

  /** Stripping only removes characters. */
  lemma StripKeepsOut(s: string, c: char)
    requires c !in s
    ensures c !in Strip(s)
  {
    var t := TrimStart(s);
    assert c !in t;
    assert TrimEnd(t) == t[..|TrimEnd(t)|];
  }

  /** Text with no whitespace at either end is left alone by `Strip`. */
  lemma StripKeeps(s: string)
    requires s == [] || (!IsSpace(s[0]) && !IsSpace(s[|s| - 1]))
    ensures Strip(s) == s
  {
  }

  predicate StartsWith(s: string, prefix: string)
  {
    |prefix| <= |s| && s[..|prefix|] == prefix
  }

  predicate EndsWith(s: string, suffix: string)
  {
    |suffix| <= |s| && s[|s| - |suffix|..] == suffix
  }

  /** Python's `needle in s` for strings. */
  predicate Contains(s: string, needle: string)
  {
    exists i :: 0 <= i <= |s| - |needle| && FoundAt(s, needle, i)
  }

  predicate FoundAt(s: string, needle: string, i: int)
    requires 0 <= i <= |s| - |needle|
  {
    s[i..i + |needle|] == needle
  }

  // ---------------------------------------------------------------------------
  // split / join

  /** Python's `s.split(sep)` for a one-character separator: never empty, and
      empty fields are kept. */
  function Split(s: string, sep: char): (parts: seq<string>)
    ensures |parts| >= 1
    ensures forall i :: 0 <= i < |parts| ==> sep !in parts[i]
    decreases |s|
  {
    if s == [] then [[]]
    else
      var rest := Split(s[1..], sep);
      if s[0] == sep then [[]] + rest
      else [[s[0]] + rest[0]] + rest[1..]
  }

  /** Python's `sep.join(parts)`. */
  function Join(parts: seq<string>, sep: char): string
    requires |parts| >= 1
    decreases |parts|
  {
    if |parts| == 1 then parts[0] else parts[0] + [sep] + Join(parts[1..], sep)
  }

  /** Joining the fields of a split gives back the original text. */
  lemma {:induction false} JoinSplit(s: string, sep: char)
    ensures Join(Split(s, sep), sep) == s
    decreases |s|
  {
    if s != [] {
      var rest := Split(s[1..], sep);
      JoinSplit(s[1..], sep);
      if s[0] != sep {
        if |rest| > 1 {
          assert rest == [rest[0]] + rest[1..];
          assert Join(rest, sep) == rest[0] + [sep] + Join(rest[1..], sep);
          assert [s[0]] + rest[0] + [sep] + Join(rest[1..], sep) == [s[0]] + Join(rest, sep);
        }
        assert s == [s[0]] + s[1..];
      } else {
        assert s == [sep] + s[1..];
      }
    }
  }

  lemma {:induction false} SplitNoSep(p: string, sep: char)
    requires sep !in p
    ensures Split(p, sep) == [p]
    decreases |p|
  {
    if p != [] {
      SplitNoSep(p[1..], sep);
      assert p == [p[0]] + p[1..];
    }
  }

  lemma {:induction false} SplitField(p: string, sep: char, t: string)
    requires sep !in p
    ensures Split(p + [sep] + t, sep) == [p] + Split(t, sep)
    decreases |p|
  {
    if p == [] {
      assert p + [sep] + t == [sep] + t;
      assert (p + [sep] + t)[1..] == t;
    } else {
      var s := p + [sep] + t;
      assert s[1..] == p[1..] + [sep] + t;
      SplitField(p[1..], sep, t);
      assert [p[0]] + p[1..] == p;
    }
  }

  /** Splitting a join of separator-free fields gives back the fields. */
  lemma {:induction false} SplitJoin(parts: seq<string>, sep: char)
    requires |parts| >= 1
    requires forall i :: 0 <= i < |parts| ==> sep !in parts[i]
    ensures Split(Join(parts, sep), sep) == parts
    decreases |parts|
  {
    if |parts| == 1 {
      SplitNoSep(parts[0], sep);
    } else {
      SplitJoin(parts[1..], sep);
      SplitField(parts[0], sep, Join(parts[1..], sep));
      assert parts == [parts[0]] + parts[1..];
    }
  }

  /** Concatenation regroups freely. */
  lemma ConcatAssoc<T>(h: seq<T>, x: seq<T>, y: seq<T>)
    ensures h + (x + y) == (h + x) + y
  {
  }

  function Last<T>(xs: seq<T>): T
    requires |xs| >= 1
  {
    xs[|xs| - 1]
  }

  /** `s.split(sep)[-1]` is the text after the last separator: a suffix of `s`
      with no separator in it, preceded by a separator unless it is all of `s`. */
  lemma {:induction false} LastField(s: string, sep: char)
    ensures var r := Last(Split(s, sep));
      |r| <= |s| && s[|s| - |r|..] == r && sep !in r
      && (|r| < |s| ==> s[|s| - |r| - 1] == sep)
    decreases |s|
  {
    if s != [] {
      var rest := Split(s[1..], sep);
      LastField(s[1..], sep);
      var r := Last(rest);
      if s[0] == sep {
        assert Last(Split(s, sep)) == r;
        TailField(s, sep, r);
      } else if |rest| == 1 {
        WholeField(s, sep);
      } else {
        assert Last(Split(s, sep)) == r;
        LastFieldShorter(s[1..], sep);
        TailField(s, sep, r);
      }
    }
  }

  /** Text whose only field is its tail, after a first character that is not
      the separator, is a single field itself. */
  lemma WholeField(s: string, sep: char)
    requires s != [] && s[0] != sep && |Split(s[1..], sep)| == 1
    ensures Last(Split(s, sep)) == s && sep !in s
  {
    var rest := Split(s[1..], sep);
    assert Last(Split(s, sep)) == [s[0]] + rest[0];
    assert s[1..] == rest[0] by {
      JoinSplit(s[1..], sep);
    }
    assert s == [s[0]] + s[1..];
  }

  /** A separator-free tail of `s[1..]` that is preceded by the separator,
      or by the first character when that is the separator, is one of `s` too. */
  lemma TailField(s: string, sep: char, r: string)
    requires s != [] && |r| <= |s| - 1 && s[1..][|s| - 1 - |r|..] == r && sep !in r
    requires |r| < |s| - 1 ==> s[1..][|s| - 1 - |r| - 1] == sep
    requires |r| < |s| - 1 || s[0] == sep
    ensures |r| <= |s| && s[|s| - |r|..] == r && sep !in r
    ensures |r| < |s| ==> s[|s| - |r| - 1] == sep
  {
    assert s[|s| - |r|..] == s[1..][|s| - 1 - |r|..];
    if |r| < |s| - 1 {
      assert s[|s| - |r| - 1] == s[1..][|s| - 1 - |r| - 1];
    }
  }

  /** With more than one field, the last one is shorter than the text. */
  lemma LastFieldShorter(t: string, sep: char)
    requires |Split(t, sep)| >= 2
    requires var r := Last(Split(t, sep)); |r| <= |t| && t[|t| - |r|..] == r && sep !in r
    ensures |Last(Split(t, sep))| < |t|
  {
    var parts := Split(t, sep);
    assert t[|parts[0]|] == sep by {
      JoinSplit(t, sep);
      assert parts == [parts[0]] + parts[1..];
    }
  }

  // ---------------------------------------------------------------------------
  // decimal numbers

  predicate IsDigit(c: char)
  {
    '0' <= c <= '9'
  }

  predicate AllDigits(s: string)
  {
    forall i :: 0 <= i < |s| ==> IsDigit(s[i])
  }

  function DigitValue(c: char): nat
    requires IsDigit(c)
  {
    c as int - '0' as int
  }

  function DigitChar(d: nat): (c: char)
    requires d < 10
    ensures IsDigit(c) && DigitValue(c) == d
  {
    ('0' as int + d) as char
  }

  /** The value of a string of decimal digits. */
  function DigitsValue(s: string): nat
    requires AllDigits(s)
  {
    if s == [] then 0 else 10 * DigitsValue(s[..|s| - 1]) + DigitValue(s[|s| - 1])
  }

  /** Python's `str(n)` for a natural number. */
  function NatToString(n: nat): (r: string)
    ensures |r| >= 1 && AllDigits(r)
  {
    if n < 10 then [DigitChar(n)] else NatToString(n / 10) + [DigitChar(n % 10)]
  }

  /** Python's `str(n)` for an integer. */
  function IntToString(n: int): string
  {
    if n < 0 then "-" + NatToString(-n) else NatToString(n)
  }

  /** Python's `int(s)` on a decimal literal: surrounding whitespace is ignored,
      an optional sign, then one or more digits; anything else is a ValueError
      (`None`). */
  function ParseInt(s: string): Option<int>
  {
    var t := Strip(s);
    if t != [] && (t[0] == '-' || t[0] == '+') then
      var digits := t[1..];
      if digits != [] && AllDigits(digits) then
        var v: int := DigitsValue(digits);
        Some(if t[0] == '-' then -v else v)
      else None
    else if t != [] && AllDigits(t) then Some(DigitsValue(t))
    else None
  }

  lemma {:induction false} DigitsValueOfNat(n: nat)
    ensures DigitsValue(NatToString(n)) == n
  {
    if n >= 10 {
      var s := NatToString(n);
      DigitsValueOfNat(n / 10);
      assert s[..|s| - 1] == NatToString(n / 10);
    }
  }


  /** `int(str(n)) == n`. */
  lemma ParseIntToString(n: int)
    ensures ParseInt(IntToString(n)) == Some(n)
  {
    if n < 0 {
      ParseNegative(n);
    } else {
      ParseNatural(n);
    }
  }

  lemma ParseNatural(n: int)
    requires n >= 0
    ensures ParseInt(IntToString(n)) == Some(n)
  {
    ParseDigits(NatToString(n));
    DigitsValueOfNat(n);
  }

  lemma ParseNegative(n: int)
    requires n < 0
    ensures ParseInt(IntToString(n)) == Some(n)
  {
    var d := NatToString(-n);
    DigitsValueOfNat(-n);
    assert DigitsValue(d) == -n;
    ParseMinusDigits(d);
    assert IntToString(n) == "-" + d;
  }

  /** `int()` reads a run of digits as its decimal value. */
  lemma ParseDigits(d: string)
    requires d != [] && AllDigits(d)
    ensures ParseInt(d) == Some(DigitsValue(d))
  {
    assert IsDigit(d[0]) && IsDigit(d[|d| - 1]);
    StripKeeps(d);
  }

  /** `int()` reads a minus sign and a run of digits as the negated value. */
  lemma ParseMinusDigits(d: string)
    requires d != [] && AllDigits(d)
    ensures ParseInt("-" + d) == Some(-(DigitsValue(d) as int))
  {
    var s := "-" + d;
    assert s[1..] == d;
    assert IsDigit(s[|s| - 1]);
    StripKeeps(s);
  }

  lemma NatStringHasNo(n: nat, c: char)
    requires !IsDigit(c)
    ensures c !in NatToString(n)
  {
  }
}
