/** The pure helpers of `utils.py`: `options_for`, which filters a dict by
    key prefix, and `timeparse`, which reads the datastore's date format
    with an optional fraction of a second.
 */
module Utils {
  import opened Outcomes
  import opened PyStrings
  import opened DateTimes

  // ---- options_for ----

  lemma StripPrefixFacts<V>(d: map<string, V>, prefix: string)
    ensures forall key :: key in d && StartsWith(key, prefix) ==> prefix + key[|prefix|..] == key
  {
    forall key | key in d && StartsWith(key, prefix)
      ensures prefix + key[|prefix|..] == key
    {
      StartsWithSplit(key, prefix);
    }
  }

  /** `options_for(d, prefix, invert)`: without `invert`, the entries whose
      key starts with `prefix`, keyed by the rest of the key; with `invert`,
      the entries whose key does not start with `prefix`, keys unchanged.
      Values are never altered. */
  function OptionsFor<V>(d: map<string, V>, prefix: string, invert: bool): (r: map<string, V>)
    ensures !invert ==> forall k :: k in r <==> prefix + k in d
    ensures !invert ==> forall k :: k in r ==> r[k] == d[prefix + k]
    ensures invert ==> forall k :: k in r <==> k in d && !StartsWith(k, prefix)
    ensures invert ==> forall k :: k in r ==> r[k] == d[k]
  {
    StripPrefixFacts(d, prefix);
    if invert then
      map k | k in d && !StartsWith(k, prefix) :: d[k]
    else
      var r := map k | k in d && StartsWith(k, prefix) :: k[|prefix|..] := d[k];
      assert forall k :: prefix + k in d ==> k in r by {
        forall k | prefix + k in d
          ensures k in r
        {
          StartsWithConcat(prefix, k);
        }
      }
      r
  }

  /** The doctest of `options_for`: the `app.b.` options yield `option: 2`. */
  lemma OptionsForDoctest()
    ensures var r := OptionsFor(map["app.a.option" := 1, "app.b.option" := 2], "app.b.", false);
            "option" in r && r["option"] == 2
  {
    var d := map["app.a.option" := 1, "app.b.option" := 2];
    var r := OptionsFor(d, "app.b.", false);
    assert "app.b." + "option" == "app.b.option";
    assert "app.b.option" in d;
    assert r["option"] == d["app.b.option"];
  }

  /** Every key starts with the empty prefix: the plain call copies the
      dict and the inverted call returns an empty one. */
  lemma OptionsForEmptyPrefix<V>(d: map<string, V>)
    ensures OptionsFor(d, "", false) == d
    ensures OptionsFor(d, "", true) == map[]
  {
    var r := OptionsFor(d, "", false);
    forall k
      ensures k in r <==> k in d
      ensures k in r ==> r[k] == d[k]
    {
      assert "" + k == k;
    }
    var q := OptionsFor(d, "", true);
    forall k: string
      ensures StartsWith(k, "")
    {
      assert k[..0] == "";
    }
    assert q.Keys == {};
  }

  lemma ConcatInjective(prefix: string)
    ensures forall a: string, b: string :: prefix + a == prefix + b ==> a == b
  {
    forall a: string, b: string | prefix + a == prefix + b
      ensures a == b
    {
      StartsWithConcat(prefix, a);
      StartsWithConcat(prefix, b);
    }
  }

  /** Puts `prefix` back in front of every key. */
  function Prefixed<V>(m: map<string, V>, prefix: string): map<string, V>
  {
    ConcatInjective(prefix);
    map k | k in m :: prefix + k := m[k]
  }

  /** The plain and the inverted call split `d` in two: restoring the
      prefix on the first and adding the second gives `d` back, and no key
      lands in both. */
  lemma {:induction false} OptionsForPartition<V>(d: map<string, V>, prefix: string)
    ensures Prefixed(OptionsFor(d, prefix, false), prefix).Keys !! OptionsFor(d, prefix, true).Keys
    ensures Prefixed(OptionsFor(d, prefix, false), prefix) + OptionsFor(d, prefix, true) == d
  {
    var a := OptionsFor(d, prefix, false);
    var b := OptionsFor(d, prefix, true);
    var p := Prefixed(a, prefix);
    forall key | key in p
      ensures key in d && StartsWith(key, prefix) && p[key] == d[key]
    {
      var k :| k in a && prefix + k == key;
      StartsWithConcat(prefix, k);
    }
    forall key | key in d
      ensures key in p + b && (p + b)[key] == d[key]
    {
      if StartsWith(key, prefix) {
        StartsWithSplit(key, prefix);
        var k := key[|prefix|..];
        assert k in a;
        assert key in p;
      }
    }
  }

  // ---- timeparse ----

  /** `.` and one to six digits, the fraction `isoformat` appends. */
  predicate IsDotFraction(rest: string)
  {
    2 <= |rest| <= 7 && rest[0] == '.' && AllDigits(rest[1..])
  }

  /** `,` and exactly three digits, the milliseconds `logging` appends. */
  predicate IsCommaMillis(rest: string)
  {
    |rest| == 4 && rest[0] == ',' && AllDigits(rest[1..])
  }

  lemma Pow10Add(a: nat, b: nat)
    ensures Pow10(a + b) == Pow10(a) * Pow10(b)
  {
    if a > 0 {
      Pow10Add(a - 1, b);
    }
  }

  /** The microseconds a decimal fraction `.digits` stands for: the digits
      read as an integer after padding them on the right to six places. */
  function FractionMicros(digits: string): (us: int)
    requires 1 <= |digits| <= 6 && AllDigits(digits)
    ensures 0 <= us < 1000000
  {
    DigitsValueBound(digits);
    Pow10Add(|digits|, 6 - |digits|);
    assert Pow10(6) == 1000000;
    var v := DigitsValue(digits);
    var scale := Pow10(6 - |digits|);
    assert v * scale < Pow10(|digits|) * scale by {
      assert v < Pow10(|digits|);
    }
    v * scale
  }

  /** `timeparse(t)` with the default format. A text the format matches
      entirely is read with microsecond 0. When the only complaint is
      unconverted data of the form `.d` ... `.dddddd` or `,ddd`, that suffix is
      cut off, the rest is parsed again, and the fraction becomes the
      microsecond. Every other failure is re-raised as the ValueError. */
  function TimeParse(t: string): (r: Result<DateTime>)
    ensures r.Ok? ==> Valid(r.value)
  {
    match Strptime(t)
    case Parsed(dt) => Ok(dt)
    case Mismatch => Err(ValueError)
    case Unconverted(rest) =>
      if IsDotFraction(rest) || IsCommaMillis(rest) then
        match Strptime(t[..|t| - |rest|])
        case Parsed(dt) => Ok(dt.(microsecond := FractionMicros(rest[1..])))
        case _ => Err(ValueError)
      else Err(ValueError)
  }

  /** What `timeparse` makes of whole-second isoformat text followed by any
      suffix: nothing, a `.` fraction of one to six digits, or `,` and three
      digits of milliseconds are accepted; every other suffix is an error. */
  lemma TimeParseSuffix(dt: DateTime, rest: string)
    requires Valid(dt) && dt.microsecond == 0
    ensures TimeParse(IsoFormat(dt, 'T') + rest) ==
              if rest == "" then Ok(dt)
              else if IsDotFraction(rest) || IsCommaMillis(rest) then
                Ok(dt.(microsecond := FractionMicros(rest[1..])))
              else Err(ValueError)
  {
    var t := IsoFormat(dt, 'T') + rest;
    if rest == "" {
      assert t == IsoFormat(Truncated(dt), 'T');
      StrptimeIsoFormat(dt);
    } else {
      StrptimeIsoFormatRest(dt, rest);
      if IsDotFraction(rest) || IsCommaMillis(rest) {
        assert t[..|t| - |rest|] == IsoFormat(Truncated(dt), 'T');
        StrptimeIsoFormat(dt);
      }
    }
  }

  lemma IsoFormatFraction(dt: DateTime)
    requires Valid(dt) && dt.microsecond != 0
    ensures IsoFormat(dt, 'T') == IsoFormat(Truncated(dt), 'T') + "." + PadDigits(dt.microsecond, 6)
  {
  }

  /** `timeparse` reads back every `isoformat()` exactly, microseconds
      included. */
  lemma TimeParseIsoFormat(dt: DateTime)
    requires Valid(dt)
    ensures TimeParse(IsoFormat(dt, 'T')) == Ok(dt)
  {
    if dt.microsecond == 0 {
      TimeParseWhole(dt);
    } else {
      TimeParseFraction(dt);
    }
  }

  lemma TimeParseWhole(dt: DateTime)
    requires Valid(dt) && dt.microsecond == 0
    ensures TimeParse(IsoFormat(dt, 'T')) == Ok(dt)
  {
    var t := Truncated(dt);
    TimeParseSuffix(t, "");
    assert IsoFormat(t, 'T') + "" == IsoFormat(dt, 'T');
  }

  lemma TimeParseFraction(dt: DateTime)
    requires Valid(dt) && dt.microsecond != 0
    ensures TimeParse(IsoFormat(dt, 'T')) == Ok(dt)
  {
    var t := Truncated(dt);
    var digits := PadDigits(dt.microsecond, 6);
    var rest := "." + digits;
    IsoFormatFraction(dt);
    assert IsoFormat(dt, 'T') == IsoFormat(t, 'T') + rest;
    assert rest[1..] == digits;
    assert IsDotFraction(rest);
    TimeParseSuffix(t, rest);
    PadDigitsValue(dt.microsecond, 6);
    assert FractionMicros(digits) == dt.microsecond;
  }

  /** The logging module's `,mmm` suffix is read as milliseconds. */
  lemma TimeParseMillis(dt: DateTime, ms: nat)
    requires Valid(dt) && dt.microsecond == 0 && ms < 1000
    ensures TimeParse(IsoFormat(dt, 'T') + "," + PadDigits(ms, 3)) == Ok(dt.(microsecond := ms * 1000))
  {
    assert Pow10(3) == 1000;
    var digits := PadDigits(ms, 3);
    var rest := "," + digits;
    assert IsoFormat(dt, 'T') + "," + digits == IsoFormat(dt, 'T') + rest;
    assert rest[1..] == digits;
    assert IsCommaMillis(rest);
    PadDigitsValue(ms, 3);
    assert FractionMicros(digits) == ms * 1000 by {
      assert Pow10(6 - 3) == 1000;
    }
    TimeParseSuffix(dt, rest);
  }
}
