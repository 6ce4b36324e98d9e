/** The Python 2 string operations the datastore relies on: `startswith`,
    `strip`, `split(sep)`, `os.path.split(...)[1]`, and decimal digits as
    `str(int)`, `int(str)` and the zero-padded fields of `strftime` print and
    read them. Python 2 `str` values are byte strings; here a string is a
    `seq<char>`.
 */
module PyStrings {
  import opened Outcomes

  /** `s.startswith(p)` */
  predicate StartsWith(s: string, p: string)
  {
    |p| <= |s| && s[..|p|] == p
  }

  lemma StartsWithConcat(p: string, t: string)
    ensures StartsWith(p + t, p)
    ensures (p + t)[|p|..] == t
  {
    assert (p + t)[..|p|] == p;
  }

  lemma StartsWithSplit(s: string, p: string)
    requires StartsWith(s, p)
    ensures p + s[|p|..] == s
  {
    assert s == s[..|p|] + s[|p|..];
  }

  /** The characters `str.isspace()` accepts for a Python 2 byte string. */
  predicate IsSpace(c: char)
  {
    c == ' ' || c == '\t' || c == '\n' || c == '\r' || c as int == 11 || c as int == 12
  }

  /** `s.lstrip()` */
  function LStrip(s: string): (r: string)
    ensures |r| <= |s| && r == s[|s| - |r|..]
    ensures |r| > 0 ==> !IsSpace(r[0])
    ensures forall i :: 0 <= i < |s| - |r| ==> IsSpace(s[i])
    decreases |s|
  {
    if |s| > 0 && IsSpace(s[0]) then LStrip(s[1..]) else s
  }

  /** `s.rstrip()` */
  function RStrip(s: string): (r: string)
    ensures |r| <= |s| && r == s[..|r|]
    ensures |r| > 0 ==> !IsSpace(r[|r| - 1])
    ensures forall i :: |r| <= i < |s| ==> IsSpace(s[i])
    decreases |s|
  {
    if |s| > 0 && IsSpace(s[|s| - 1]) then RStrip(s[..|s| - 1]) else s
  }

  /** `s.strip()`: `lstrip` then `rstrip`. */
  function Strip(s: string): (r: string)
    ensures |r| > 0 ==> !IsSpace(r[0]) && !IsSpace(r[|r| - 1])
    ensures |r| == 0 ==> AllSpace(s)
  {
    var l := LStrip(s);
    assert |RStrip(l)| == 0 ==> |l| == 0;
    RStrip(l)
  }

  /** `strip` keeps a slice of `s` and cuts off only white space on either
      side; with the ends of the result not white space, the slice is the
      longest such one. */
  lemma StripSlice(s: string)
    ensures var r := Strip(s);
            exists i :: CutAt(s, r, i)
  {
    var l := LStrip(s);
    var r := RStrip(l);
    var i := |s| - |l|;
    LStripCut(s);
    RStripCut(l);
    SuffixSlices(s, i, |r|);
    assert Strip(s) == r;
    assert CutAt(s, r, i);
  }

  /** Slicing a suffix of `s` is slicing `s` itself. */
  lemma SuffixSlices(s: string, i: nat, n: nat)
    requires i + n <= |s|
    ensures s[i..][..n] == s[i..i + n]
    ensures s[i..][n..] == s[i + n..]
  {
  }

  /** `r` is the slice of `s` at `i`, with only white space on either side. */
  predicate CutAt(s: string, r: string, i: int)
  {
    0 <= i <= |s| - |r| && r == s[i..i + |r|] && AllSpace(s[..i]) && AllSpace(s[i + |r|..])
  }

  /** What `lstrip` cuts off is white space. */
  lemma LStripCut(s: string)
    ensures AllSpace(s[..|s| - |LStrip(s)|])
  {
    var c := s[..|s| - |LStrip(s)|];
    forall k | 0 <= k < |c|
      ensures IsSpace(c[k])
    {
      assert c[k] == s[k];
    }
  }

  /** What `rstrip` cuts off is white space. */
  lemma RStripCut(s: string)
    ensures AllSpace(s[|RStrip(s)|..])
  {
    var r := RStrip(s);
    var c := s[|r|..];
    forall k | 0 <= k < |c|
      ensures IsSpace(c[k])
    {
      assert c[k] == s[|r| + k];
    }
  }

  /** `sep.join(parts)` for a one-character separator. */
  function Join(parts: seq<string>, sep: char): string
  {
    if |parts| == 0 then ""
    else if |parts| == 1 then parts[0]
    else parts[0] + [sep] + Join(parts[1..], sep)
  }

  /** `s.split(sep)` for a one-character separator: the pieces between
      occurrences of `sep`, at least one of them. */
  function Split(s: string, sep: char): (parts: seq<string>)
    ensures |parts| >= 1
    ensures forall i :: 0 <= i < |parts| ==> sep !in parts[i]
    decreases |s|
  {
    if |s| == 0 then [""]
    else
      var rest := Split(s[1..], sep);
      if s[0] == sep then [""] + rest
      else [[s[0]] + rest[0]] + rest[1..]
  }

  /** Splitting and joining again gives back the string. */
  lemma {:induction false} JoinSplit(s: string, sep: char)
    ensures Join(Split(s, sep), sep) == s
    decreases |s|
  {
    if |s| > 0 {
      var rest := Split(s[1..], sep);
      JoinSplit(s[1..], sep);
      if s[0] == sep {
        assert Split(s, sep) == [""] + rest;
        assert ([""] + rest)[1..] == rest;
        assert s == [sep] + s[1..];
      } else {
        var parts := Split(s, sep);
        assert parts == [[s[0]] + rest[0]] + rest[1..];
        if |rest| == 1 {
          assert Join(rest, sep) == rest[0];
          assert s == [s[0]] + s[1..];
        } else {
          assert parts[1..] == rest[1..];
          assert Join(rest, sep) == rest[0] + [sep] + Join(rest[1..], sep);
          assert s == [s[0]] + s[1..];
        }
      }
    }
  }

  /** The last component of a POSIX path, `os.path.split(p)[1]`. */
  function Basename(p: string): (b: string)
    ensures '/' !in b
    ensures |b| <= |p| && b == p[|p| - |b|..]
    ensures |b| < |p| ==> p[|p| - |b| - 1] == '/'
    decreases |p|
  {
    if |p| == 0 then ""
    else if p[|p| - 1] == '/' then ""
    else
      var b := Basename(p[..|p| - 1]);
      assert p[..|p| - 1][|p| - 1 - |b|..] + [p[|p| - 1]] == p[|p| - |b| - 1..];
      b + [p[|p| - 1]]
  }

  // ---- decimal digits ----

  predicate IsDigit(c: char)
  {
    '0' <= c <= '9'
  }

  predicate AllDigits(s: string)
  {
    forall i :: 0 <= i < |s| ==> IsDigit(s[i])
  }

  function DigitChar(d: nat): (c: char)
    requires d < 10
    ensures IsDigit(c)
  {
    ('0' as int + d) as char
  }

  function DigitValue(c: char): (d: nat)
    requires IsDigit(c)
    ensures d < 10 && DigitChar(d) == c
  {
    c as int - '0' as int
  }

  /** The number a string of decimal digits denotes (0 for the empty string). */
  function DigitsValue(s: string): nat
    requires AllDigits(s)
  {
    if |s| == 0 then 0 else DigitsValue(s[..|s| - 1]) * 10 + DigitValue(s[|s| - 1])
  }

  function Pow10(w: nat): (p: nat)
    ensures p >= 1
  {
    if w == 0 then 1 else 10 * Pow10(w - 1)
  }

  lemma DigitsValueBound(s: string)
    requires AllDigits(s)
    ensures DigitsValue(s) < Pow10(|s|)
  {
    if |s| > 0 {
      DigitsValueBound(s[..|s| - 1]);
    }
  }

  /** `n` printed in exactly `width` digits with leading zeros, as `%02d`
      and friends print it. */
  function PadDigits(n: nat, width: nat): (s: string)
    requires n < Pow10(width)
    ensures |s| == width && AllDigits(s)
  {
    if width == 0 then "" else PadDigits(n / 10, width - 1) + [DigitChar(n % 10)]
  }

  /** Reading a zero-padded field back gives the number printed. */
  lemma {:induction false} PadDigitsValue(n: nat, width: nat)
    requires n < Pow10(width)
    ensures DigitsValue(PadDigits(n, width)) == n
  {
    if width > 0 {
      var s := PadDigits(n, width);
      PadDigitsValue(n / 10, width - 1);
      assert s[..|s| - 1] == PadDigits(n / 10, width - 1);
    }
  }

  /** `str(n)` for a natural number: the shortest decimal spelling. */
  function NatToDecimal(n: nat): (s: string)
    ensures |s| >= 1 && AllDigits(s)
    ensures |s| > 1 ==> s[0] != '0'
  {
    if n < 10 then [DigitChar(n)] else NatToDecimal(n / 10) + [DigitChar(n % 10)]
  }

  lemma {:induction false} NatToDecimalValue(n: nat)
    ensures DigitsValue(NatToDecimal(n)) == n
  {
    if n >= 10 {
      var s := NatToDecimal(n);
      NatToDecimalValue(n / 10);
      assert s[..|s| - 1] == NatToDecimal(n / 10);
    }
  }

  /** `str(i)` for a Python integer. */
  function IntToDecimal(i: int): string
  {
    if i < 0 then "-" + NatToDecimal(-i) else NatToDecimal(i)
  }

  predicate AllSpace(s: string)
  {
    forall i :: 0 <= i < |s| ==> IsSpace(s[i])
  }

  lemma {:induction false} LStripSpaces(a: string, t: string)
    requires AllSpace(a)
    requires |t| > 0 && !IsSpace(t[0])
    ensures LStrip(a + t) == t
    decreases |a|
  {
    if |a| > 0 {
      assert (a + t)[1..] == a[1..] + t;
      LStripSpaces(a[1..], t);
    }
  }

  lemma {:induction false} RStripSpaces(t: string, b: string)
    requires AllSpace(b)
    requires |t| > 0 && !IsSpace(t[|t| - 1])
    ensures RStrip(t + b) == t
    decreases |b|
  {
    if |b| > 0 {
      assert (t + b)[..|t + b| - 1] == t + b[..|b| - 1];
      RStripSpaces(t, b[..|b| - 1]);
    }
  }

  /** `strip` removes exactly the white space around a word. */
  lemma StripPadded(a: string, t: string, b: string)
    requires AllSpace(a) && AllSpace(b)
    requires |t| > 0 && !IsSpace(t[0]) && !IsSpace(t[|t| - 1])
    ensures Strip(a + t + b) == t
  {
    assert a + t + b == a + (t + b);
    LStripSpaces(a, t + b);
    RStripSpaces(t, b);
  }

  /** `int(s)` for a string in base 10: surrounding white space, an optional
      sign, white space again, then one or more ASCII digits; anything else
      is a ValueError. Python 2 skips white space after the sign as well,
      so `int("- 5") == -5`. */
  function ParseInt(s: string): Result<int>
  {
    ParseWord(Strip(s))
  }

  /** `int` on a stripped string. */
  function ParseWord(t: string): Result<int>
  {
    if |t| > 0 && (t[0] == '-' || t[0] == '+') then
      match ParseAfterSign(t[1..])
      case Some(v) => Ok(if t[0] == '-' then -v else v)
      case None => Err(ValueError)
    else
      match ParseUnsigned(t)
      case Some(v) => Ok(v)
      case None => Err(ValueError)
  }

  /** The digits after a sign, white space before them skipped. */
  function ParseAfterSign(u: string): Option<int>
  {
    ParseUnsigned(LStrip(u))
  }

  function ParseUnsigned(t: string): Option<int>
  {
    if |t| > 0 && AllDigits(t) then Some(DigitsValue(t)) else None
  }

  lemma StripWord(d: string)
    requires |d| > 0 && !IsSpace(d[0]) && !IsSpace(d[|d| - 1])
    ensures Strip(d) == d
  {
    StripPadded("", d, "");
    assert "" + d + "" == d;
  }

  lemma ParseDigits(d: string)
    requires |d| > 0 && AllDigits(d)
    ensures ParseInt(d) == Ok(DigitsValue(d) as int)
  {
    StripWord(d);
    assert d[0] != '-' && d[0] != '+';
    assert ParseUnsigned(d) == Some(DigitsValue(d) as int);
  }

  /** A minus sign followed by digits parses as the negated digits. */
  lemma NegatedWord(m: string, v: int)
    requires |m| > 1 && m[0] == '-' && AllDigits(m[1..]) && DigitsValue(m[1..]) == v
    ensures ParseInt(m) == Ok(-v)
  {
    assert m[|m| - 1] == m[1..][|m| - 2];
    DigitsAfterSign(m[1..]);
    ParseSigned(m, v);
  }

  lemma MinusShape(d: string)
    requires |d| > 0
    ensures var m := "-" + d; |m| > 0 && m[0] == '-' && m[|m| - 1] == d[|d| - 1] && m[1..] == d
  {
    var m := "-" + d;
    assert m[1..] == d;
  }

  lemma DigitsAfterSign(d: string)
    requires |d| > 0 && AllDigits(d)
    ensures ParseAfterSign(d) == Some(DigitsValue(d) as int)
  {
    assert LStrip(d) == d;
  }

  /** A stripped word with a leading minus sign parses as the negation of
      its unsigned tail. */
  lemma ParseSigned(m: string, v: int)
    requires |m| > 0 && m[0] == '-' && !IsSpace(m[|m| - 1])
    requires ParseAfterSign(m[1..]) == Some(v)
    ensures ParseInt(m) == Ok(-v)
  {
    StripWord(m);
  }

  /** White space between the sign and the digits is skipped. */
  lemma ParseSpaceAfterSign()
    ensures ParseInt(" - 5 ") == Ok(-5)
  {
    StripSpacedMinus();
    SpacedFive();
  }

  lemma StripSpacedMinus()
    ensures Strip(" - 5 ") == "- 5"
  {
    StripPadded(" ", "- 5", " ");
    assert " " + "- 5" + " " == " - 5 ";
  }

  lemma SpacedFive()
    ensures ParseWord("- 5") == Ok(-5)
  {
    assert "- 5"[1..] == " 5";
    FiveAfterSpace();
  }

  lemma FiveAfterSpace()
    ensures ParseAfterSign(" 5") == Some(5)
  {
    LStripSpaces(" ", "5");
    assert " " + "5" == " 5";
    assert "5"[..0] == "";
  }

  lemma ParseIntNegative(i: int)
    requires i < 0
    ensures ParseInt(IntToDecimal(i)) == Ok(i)
  {
    var d := NatToDecimal(-i);
    assert IntToDecimal(i) == "-" + d;
    NatToDecimalValue(-i);
    MinusShape(d);
    NegatedWord("-" + d, -i);
  }

  lemma ParseIntNonNegative(i: int)
    requires i >= 0
    ensures ParseInt(IntToDecimal(i)) == Ok(i)
  {
    var d := NatToDecimal(i);
    assert IntToDecimal(i) == d;
    NatToDecimalValue(i);
    ParseDigits(d);
  }

  /** `int(str(i)) == i`. */
  lemma ParseIntDecimal(i: int)
    ensures ParseInt(IntToDecimal(i)) == Ok(i)
  {
    if i < 0 {
      ParseIntNegative(i);
    } else {
      ParseIntNonNegative(i);
    }
  }
}
