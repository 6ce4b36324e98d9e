/** The Python 2 values that flow through the datastore as property values,
    uids, version ids and dictionary entries, with the built-ins the core
    applies to them: truth testing, `cmp`, `str`, `int` and `float`.

    Formatting and parsing of floating-point numbers is left to a `Runtime`
    parameter, and so is `mimetypes.guess_extension`.
 */
module PyValues {
  import opened Outcomes
  import opened PyStrings
  import opened DateTimes

  datatype PyValue =
    | PyNone
    | PyInt(i: int)
    | PyFloat(f: real)
    | PyStr(s: string)
    | PyDateTime(dt: DateTime)

  /** The parts of the Python runtime the model does not interpret. */
  datatype Runtime = Runtime(
    parseFloat: string -> Option<real>,        // float(s); None is a ValueError
    formatFloat: real -> string,               // str(x) for a float
    guessExtension: PyValue -> Result<PyValue>  // mimetypes.guess_extension(mime_type)
  )

  /** Python truth testing: `None`, zero and the empty string are false. */
  predicate Truthy(v: PyValue)
  {
    match v
    case PyNone => false
    case PyInt(i) => i != 0
    case PyFloat(f) => f != 0.0
    case PyStr(s) => |s| > 0
    case PyDateTime(_) => true
  }

  // ---- cmp ----

  function Sign(x: real): (r: int)
    ensures r == -1 || r == 0 || r == 1
    ensures (r < 0 <==> x < 0.0) && (r == 0 <==> x == 0.0)
  {
    if x < 0.0 then -1 else if x == 0.0 then 0 else 1
  }

  /** Lexicographic comparison of integer sequences, shorter prefix first. */
  function LexCmp(a: seq<int>, b: seq<int>): (r: int)
    ensures r == -1 || r == 0 || r == 1
  {
    if |a| == 0 && |b| == 0 then 0
    else if |a| == 0 then -1
    else if |b| == 0 then 1
    else if a[0] < b[0] then -1
    else if a[0] > b[0] then 1
    else LexCmp(a[1..], b[1..])
  }

  lemma {:induction false} LexCmpZero(a: seq<int>, b: seq<int>)
    ensures LexCmp(a, b) == 0 <==> a == b
  {
    if |a| > 0 && |b| > 0 && a[0] == b[0] {
      LexCmpZero(a[1..], b[1..]);
      assert a == [a[0]] + a[1..] && b == [b[0]] + b[1..];
    }
  }

  lemma {:induction false} LexCmpAntisymmetric(a: seq<int>, b: seq<int>)
    ensures LexCmp(a, b) == -LexCmp(b, a)
  {
    if |a| > 0 && |b| > 0 && a[0] == b[0] {
      LexCmpAntisymmetric(a[1..], b[1..]);
    }
  }

  lemma {:induction false} LexCmpTransitive(a: seq<int>, b: seq<int>, c: seq<int>)
    requires LexCmp(a, b) <= 0 && LexCmp(b, c) <= 0
    ensures LexCmp(a, c) <= 0
    ensures LexCmp(a, b) < 0 || LexCmp(b, c) < 0 ==> LexCmp(a, c) < 0
  {
    if |a| > 0 && |b| > 0 && |c| > 0 && a[0] == b[0] && b[0] == c[0] {
      LexCmpTransitive(a[1..], b[1..], c[1..]);
    }
  }

  function Ords(s: string): (r: seq<int>)
    ensures |r| == |s|
    ensures forall i :: 0 <= i < |s| ==> r[i] == s[i] as int
  {
    seq(|s|, i requires 0 <= i < |s| => s[i] as int)
  }

  lemma OrdsInjective(s: string, t: string)
    requires Ords(s) == Ords(t)
    ensures s == t
  {
    assert |s| == |t|;
    forall i | 0 <= i < |s|
      ensures s[i] == t[i]
    {
      assert Ords(s)[i] == Ords(t)[i];
    }
  }

  function DateKey(dt: DateTime): seq<int>
  {
    [dt.year, dt.month, dt.day, dt.hour, dt.minute, dt.second, dt.microsecond]
  }

  /** Where Python 2 places a type when comparing values of different
      types: None first, then numbers, then the remaining types by name. */
  function Rank(v: PyValue): int
  {
    match v
    case PyNone => 0
    case PyInt(_) => 1
    case PyFloat(_) => 1
    case PyDateTime(_) => 2
    case PyStr(_) => 3
  }

  function NumValue(v: PyValue): real
    requires v.PyInt? || v.PyFloat?
  {
    if v.PyInt? then v.i as real else v.f
  }

  /** `cmp(a, b)`: numbers by value whatever their type, strings byte by
      byte, datetimes field by field, and values of unrelated types by rank. */
  function Cmp(a: PyValue, b: PyValue): (r: int)
    ensures r == -1 || r == 0 || r == 1
    ensures Rank(a) < Rank(b) ==> r == -1
    ensures Rank(a) > Rank(b) ==> r == 1
  {
    if Rank(a) != Rank(b) then (if Rank(a) < Rank(b) then -1 else 1)
    else match a
      case PyNone => 0
      case PyInt(_) => Sign(NumValue(a) - NumValue(b))
      case PyFloat(_) => Sign(NumValue(a) - NumValue(b))
      case PyStr(s) => LexCmp(Ords(s), Ords(b.s))
      case PyDateTime(dt) => LexCmp(DateKey(dt), DateKey(b.dt))
  }

  /** Swapping the operands of `cmp` negates the answer. */
  lemma CmpAntisymmetric(a: PyValue, b: PyValue)
    ensures Cmp(a, b) == -Cmp(b, a)
  {
    if Rank(a) == Rank(b) {
      match a
      case PyStr(s) => LexCmpAntisymmetric(Ords(s), Ords(b.s));
      case PyDateTime(dt) => LexCmpAntisymmetric(DateKey(dt), DateKey(b.dt));
      case _ =>
    }
  }

  lemma CmpReflexive(a: PyValue)
    ensures Cmp(a, a) == 0
  {
    CmpAntisymmetric(a, a);
  }

  /** `cmp` is a total preorder: "at most" is transitive, and strictly so
      when either step is strict. */
  lemma CmpTransitive(a: PyValue, b: PyValue, c: PyValue)
    requires Cmp(a, b) <= 0 && Cmp(b, c) <= 0
    ensures Cmp(a, c) <= 0
    ensures Cmp(a, b) < 0 || Cmp(b, c) < 0 ==> Cmp(a, c) < 0
  {
    if Rank(a) == Rank(b) && Rank(b) == Rank(c) {
      match a
      case PyStr(s) => LexCmpTransitive(Ords(s), Ords(b.s), Ords(c.s));
      case PyDateTime(dt) => LexCmpTransitive(DateKey(dt), DateKey(b.dt), DateKey(c.dt));
      case _ =>
    }
  }

  /** Two strings compare equal exactly when they are the same string. */
  lemma CmpStrings(s: string, t: string)
    ensures Cmp(PyStr(s), PyStr(t)) == 0 <==> s == t
  {
    LexCmpZero(Ords(s), Ords(t));
    if Ords(s) == Ords(t) {
      OrdsInjective(s, t);
    }
  }

  // ---- str, int, float ----

  /** `str(v)`; `str` of a datetime separates date and time by a space. */
  function StrOf(v: PyValue, rt: Runtime): string
  {
    match v
    case PyNone => "None"
    case PyInt(i) => IntToDecimal(i)
    case PyFloat(f) => rt.formatFloat(f)
    case PyStr(s) => s
    case PyDateTime(dt) => if Valid(dt) then IsoFormat(dt, ' ') else ""
  }

  /** `int(x)` for a float rounds toward zero. */
  function Truncate(f: real): (i: int)
    ensures (i as real) <= f < (i as real) + 1.0 || (i as real) - 1.0 < f <= (i as real)
    ensures f >= 0.0 ==> 0 <= i
    ensures f < 0.0 ==> i <= 0
  {
    if f >= 0.0 then f.Floor else -((-f).Floor)
  }

  /** `int(v)`: strings are parsed as base-10 literals; None and datetimes
      are not numbers. */
  function IntOf(v: PyValue): (r: Result<int>)
    ensures v.PyInt? ==> r == Ok(v.i)
    ensures v.PyNone? || v.PyDateTime? ==> r == Err(TypeError)
  {
    match v
    case PyNone => Err(TypeError)
    case PyInt(i) => Ok(i)
    case PyFloat(f) => Ok(Truncate(f))
    case PyStr(s) => ParseInt(s)
    case PyDateTime(_) => Err(TypeError)
  }

  /** `int(str(i)) == i`, the way version ids travel as strings. */
  lemma IntOfDecimal(i: int)
    ensures IntOf(PyStr(IntToDecimal(i))) == Ok(i)
  {
    ParseIntDecimal(i);
  }

  /** `float(v)`. */
  function FloatOf(v: PyValue, rt: Runtime): (r: Result<real>)
    ensures v.PyInt? ==> r == Ok(v.i as real)
    ensures v.PyFloat? ==> r == Ok(v.f)
    ensures v.PyNone? || v.PyDateTime? ==> r == Err(TypeError)
  {
    match v
    case PyNone => Err(TypeError)
    case PyInt(i) => Ok(i as real)
    case PyFloat(f) => Ok(f)
    case PyStr(s) => (match rt.parseFloat(s) case Some(x) => Ok(x) case None => Err(ValueError))
    case PyDateTime(_) => Err(TypeError)
  }
}
