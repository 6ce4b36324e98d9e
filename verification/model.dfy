/** The metadata model of `model.py`: typed properties, the registry that
    maps a kind name to a property class, and the two `Content` helpers the
    core relies on, `get_property` and `suggestName`.

    A property keeps its value in a text column. Each class decides how a
    value is turned into that column (`set_value`) and back (`get_value`):
    dates as isoformat text, numbers as written, binary data as base64.
    The mapping to database tables is not part of this model; a property
    is the record of its class, key, kind name and stored column value.
 */
module Model {
  import opened Outcomes
  import opened PyStrings
  import opened DateTimes
  import opened PyValues
  import Base64

  datatype PropertyClass =
    | PlainProperty   // Property
    | TextProperty
    | DateProperty
    | NumberProperty
    | BinaryProperty

  /** The `type` each constructor uses when none is passed. */
  function DefaultKind(cls: PropertyClass): string
  {
    match cls
    case PlainProperty => "string"
    case TextProperty => "text"
    case DateProperty => "date"
    case NumberProperty => "number"
    case BinaryProperty => "binary"
  }

  /** `key`, the `type` discriminator, and the column value (`_value` for
      the classes that map it, `value` for the others). */
  datatype Property = Property(cls: PropertyClass, key: string, kind: string, stored: PyValue)

  // ---- bytes in strings ----

  /** A Python 2 byte string holds characters 0 to 255. */
  predicate IsByteString(s: string)
  {
    forall i :: 0 <= i < |s| ==> s[i] as int < 256
  }

  function BytesOf(s: string): (bs: seq<Base64.Byte>)
    requires IsByteString(s)
    ensures |bs| == |s|
  {
    seq(|s|, i requires 0 <= i < |s| => s[i] as int)
  }

  function StringOf(bs: seq<Base64.Byte>): (s: string)
    ensures |s| == |bs| && IsByteString(s)
  {
    seq(|bs|, i requires 0 <= i < |bs| => bs[i] as char)
  }

  lemma StringOfBytesOf(s: string)
    requires IsByteString(s)
    ensures StringOf(BytesOf(s)) == s
  {
  }

  // ---- set_value, get_value, marshall ----

  /** The datetime a DateProperty stores: `value` itself, or what
      `strptime` reads from a string; anything else has no `replace`. */
  function DateArgument(value: PyValue): (r: Result<DateTime>)
    ensures r.Ok? ==> Valid(r.value)
    ensures value.PyStr? ==> (r.Ok? <==> Strptime(value.s).Parsed?)
    ensures !value.PyStr? && !value.PyDateTime? ==> r == Err(AttributeError)
  {
    match value
    case PyStr(s) => (match Strptime(s) case Parsed(dt) => Ok(dt) case _ => Err(ValueError))
    case PyDateTime(dt) => if Valid(dt) then Ok(dt) else Err(ValueError)
    case _ => Err(AttributeError)
  }

  /** The column value a property of class `cls` keeps for `value`:
      the value itself, except that a date keeps its whole-second
      isoformat text and binary data its base64 text. */
  function SetValue(cls: PropertyClass, value: PyValue): (r: Result<PyValue>)
    ensures cls in {PlainProperty, TextProperty, NumberProperty} ==> r == Ok(value)
    ensures cls == DateProperty && r.Ok? ==>
              exists dt :: Valid(dt) && dt.microsecond == 0 && r.value == PyStr(IsoFormat(dt, 'T'))
    ensures cls == BinaryProperty ==> (r.Ok? <==> value.PyStr? && IsByteString(value.s))
  {
    match cls
    case DateProperty =>
      (match DateArgument(value)
       case Ok(dt) => Ok(PyStr(IsoFormat(Truncated(dt), 'T')))
       case Err(e) => Err(e))
    case BinaryProperty =>
      if !value.PyStr? then Err(AttributeError)
      else if !IsByteString(value.s) then Err(ValueError)
      else Ok(PyStr(Base64.EncodeLines(BytesOf(value.s))))
    case _ => Ok(value)
  }

  /** `Property(key, value, type)` for the class `cls`. */
  function NewProperty(cls: PropertyClass, key: string, value: PyValue, kind: string): (r: Result<Property>)
    ensures r.Ok? ==> r.value.cls == cls && r.value.key == key && r.value.kind == kind
    ensures r.Ok? <==> SetValue(cls, value).Ok?
  {
    match SetValue(cls, value)
    case Ok(stored) => Ok(Property(cls, key, kind, stored))
    case Err(e) => Err(e)
  }

  /** `p.value`: the column read back through the class's getter. */
  function GetValue(p: Property, rt: Runtime): (r: Result<PyValue>)
    ensures p.cls in {PlainProperty, TextProperty} ==> r == Ok(p.stored)
    ensures p.cls == DateProperty && !Truthy(p.stored) ==> r == Ok(PyNone)
    ensures p.cls == DateProperty && r.Ok? && r.value != PyNone ==>
              r.value.PyDateTime? && Valid(r.value.dt) && r.value.dt.microsecond == 0
    ensures p.cls == NumberProperty ==> (r.Ok? <==> FloatOf(p.stored, rt).Ok?)
    ensures p.cls == BinaryProperty && r.Ok? ==> r.value.PyStr? && IsByteString(r.value.s)
  {
    match p.cls
    case DateProperty =>
      if !Truthy(p.stored) then Ok(PyNone)
      else if !p.stored.PyStr? then Err(TypeError)
      else (match Strptime(p.stored.s) case Parsed(dt) => Ok(PyDateTime(dt)) case _ => Err(ValueError))
    case NumberProperty =>
      (match FloatOf(p.stored, rt) case Ok(x) => Ok(PyFloat(x)) case Err(e) => Err(e))
    case BinaryProperty =>
      if !p.stored.PyStr? then Err(AttributeError)
      else (match Base64.Decode(p.stored.s) case Ok(bs) => Ok(PyStr(StringOf(bs))) case Err(e) => Err(e))
    case _ => Ok(p.stored)
  }

  /** `p.marshall()`: the isoformat of a date, `str` of any other value. */
  function Marshall(p: Property, rt: Runtime): (r: Result<string>)
    ensures GetValue(p, rt).Err? ==> r.Err?
    ensures p.cls == DateProperty && GetValue(p, rt) == Ok(PyNone) ==> r == Err(AttributeError)
    ensures p.cls == DateProperty && GetValue(p, rt).Ok? && GetValue(p, rt).value.PyDateTime? ==>
              r == Ok(IsoFormat(GetValue(p, rt).value.dt, 'T'))
    ensures p.cls != DateProperty && GetValue(p, rt).Ok? ==> r == Ok(StrOf(GetValue(p, rt).value, rt))
  {
    var v :- GetValue(p, rt);
    if p.cls == DateProperty then
      (if v.PyDateTime? && Valid(v.dt) then Ok(IsoFormat(v.dt, 'T')) else Err(AttributeError))
    else Ok(StrOf(v, rt))
  }

  // ---- date properties ----

  /** A DateProperty made from a datetime reads back as that datetime
      without its microseconds, and marshalls to the same isoformat. */
  lemma DatePropertyRoundTrip(key: string, dt: DateTime, rt: Runtime)
    requires Valid(dt)
    ensures NewProperty(DateProperty, key, PyDateTime(dt), "date").Ok?
    ensures var p := NewProperty(DateProperty, key, PyDateTime(dt), "date").value;
            GetValue(p, rt) == Ok(PyDateTime(Truncated(dt))) &&
            Marshall(p, rt) == Ok(IsoFormat(Truncated(dt), 'T'))
  {
    var text := IsoFormat(Truncated(dt), 'T');
    DateStored(key, dt);
    DateReadBack(key, dt, rt);
    assert Marshall(Property(DateProperty, key, "date", PyStr(text)), rt) == Ok(text);
  }

  lemma DateStored(key: string, dt: DateTime)
    requires Valid(dt)
    ensures NewProperty(DateProperty, key, PyDateTime(dt), "date")
            == Ok(Property(DateProperty, key, "date", PyStr(IsoFormat(Truncated(dt), 'T'))))
  {
    assert DateArgument(PyDateTime(dt)) == Ok(dt);
    assert SetValue(DateProperty, PyDateTime(dt)) == Ok(PyStr(IsoFormat(Truncated(dt), 'T')));
  }

  lemma DateReadBack(key: string, dt: DateTime, rt: Runtime)
    requires Valid(dt)
    ensures GetValue(Property(DateProperty, key, "date", PyStr(IsoFormat(Truncated(dt), 'T'))), rt)
            == Ok(PyDateTime(Truncated(dt)))
  {
    var text := IsoFormat(Truncated(dt), 'T');
    StrptimeIsoFormat(dt);
    assert Truthy(PyStr(text)) by {
      assert |text| == 19;
    }
  }

  /** Setting a date from its formatted text stores what setting it from
      the datetime stores. */
  lemma DatePropertyFromText(dt: DateTime)
    requires Valid(dt) && dt.microsecond == 0
    ensures SetValue(DateProperty, PyStr(IsoFormat(dt, 'T'))) == SetValue(DateProperty, PyDateTime(dt))
  {
    var text := IsoFormat(dt, 'T');
    assert Truncated(dt) == dt;
    StrptimeIsoFormat(dt);
    assert Strptime(text) == Parsed(dt);
    assert DateArgument(PyStr(text)) == Ok(dt);
    assert DateArgument(PyDateTime(dt)) == Ok(dt);
  }

  /** Text that is not exactly the date format is refused with ValueError. */
  lemma DatePropertyRejects(s: string)
    requires !Strptime(s).Parsed?
    ensures SetValue(DateProperty, PyStr(s)) == Err(ValueError)
  {
  }

  // ---- binary properties ----

  /** A BinaryProperty reads back the bytes it was given, zero bytes
      included. */
  lemma BinaryPropertyRoundTrip(key: string, data: string, rt: Runtime)
    requires IsByteString(data)
    ensures NewProperty(BinaryProperty, key, PyStr(data), "binary").Ok?
    ensures GetValue(NewProperty(BinaryProperty, key, PyStr(data), "binary").value, rt) == Ok(PyStr(data))
  {
    Base64.DecodeEncodeLines(BytesOf(data));
    StringOfBytesOf(data);
  }

  // ---- number properties ----

  /** A NumberProperty reads back the float of what was stored. */
  lemma NumberPropertyValue(key: string, value: PyValue, rt: Runtime)
    requires FloatOf(value, rt).Ok?
    ensures NewProperty(NumberProperty, key, value, "number").Ok?
    ensures GetValue(NewProperty(NumberProperty, key, value, "number").value, rt)
            == Ok(PyFloat(FloatOf(value, rt).value))
  {
  }

  // ---- the kind registry ----

  type Registry = map<string, PropertyClass>

  /** `registerPropertyType(kind, cls)`: the latest registration of a kind
      wins and no other kind changes. */
  function Register(reg: Registry, kind: string, cls: PropertyClass): (r: Registry)
    ensures r.Keys == reg.Keys + {kind}
    ensures r[kind] == cls
    ensures forall k :: k in reg && k != kind ==> r[k] == reg[k]
  {
    reg[kind := cls]
  }

  /** `propertyByKind(kind)`: a lookup that raises KeyError for a kind
      nobody registered. */
  function ByKind(reg: Registry, kind: string): (r: Result<PropertyClass>)
    ensures r.Ok? <==> kind in reg
    ensures r.Ok? ==> r.value == reg[kind]
    ensures r.Err? ==> r.error == KeyError
  {
    if kind in reg then Ok(reg[kind]) else Err(KeyError)
  }

  /** The registrations `Model.prepare` makes. */
  function DefaultRegistry(): (r: Registry)
    ensures r.Keys == {"date", "number", "text", "binary"}
  {
    Register(Register(Register(Register(map[], "date", DateProperty), "number", NumberProperty),
                      "text", TextProperty), "binary", BinaryProperty)
  }

  /** Looking a kind up right after registering it gives the class just
      registered, even over an earlier registration. */
  lemma ByKindRegister(reg: Registry, kind: string, cls: PropertyClass, other: string)
    ensures ByKind(Register(reg, kind, cls), kind) == Ok(cls)
    ensures other != kind ==> ByKind(Register(reg, kind, cls), other) == ByKind(reg, other)
  {
  }

  /** The prepared registry maps each class's own kind name to that class,
      except the base class's `string`, which is not registered. */
  lemma DefaultRegistryKinds(cls: PropertyClass)
    ensures cls != PlainProperty ==> ByKind(DefaultRegistry(), DefaultKind(cls)) == Ok(cls)
    ensures ByKind(DefaultRegistry(), "string") == Err(KeyError)
  {
  }

  // ---- content ----

  /** A content object and its property rows, at most one per key. */
  datatype Content = Content(id: string, properties: map<string, Property>)

  /** `content.get_property(key, default)`: the value of the row with that
      key; without a row, the default, or AttributeError when none was
      passed. */
  function GetProperty(c: Content, key: string, default: Option<PyValue>, rt: Runtime): (r: Result<PyValue>)
    ensures key in c.properties ==> r == GetValue(c.properties[key], rt)
    ensures key !in c.properties && default.Some? ==> r == Ok(default.value)
    ensures key !in c.properties && default.None? ==> r == Err(AttributeError)
  {
    if key in c.properties then GetValue(c.properties[key], rt)
    else if default.Some? then Ok(default.value)
    else Err(AttributeError)
  }

  /** Position of the last `c` in `s`, if any. */
  function RFind(s: string, c: char): (r: Option<nat>)
    ensures r.Some? ==> r.value < |s| && s[r.value] == c
    ensures r.Some? ==> forall j :: r.value < j < |s| ==> s[j] != c
    ensures r.None? ==> c !in s
  {
    if |s| == 0 then None
    else if s[|s| - 1] == c then Some(|s| - 1)
    else RFind(s[..|s| - 1], c)
  }

  /** `os.path.splitext(p)` as Python 2.5 defines it: the extension starts
      at the last dot, provided that dot lies after the last slash. */
  function SplitExt(p: string): (r: (string, string))
    ensures r.0 + r.1 == p
  {
    match RFind(p, '.')
    case None => (p, "")
    case Some(i) =>
      match RFind(p, '/')
      case Some(j) => if i <= j then (p, "") else (p[..i], p[i..])
      case None => (p[..i], p[i..])
  }

  /** A name without slashes has an extension exactly when it holds a dot. */
  lemma SplitExtBasename(b: string)
    requires '/' !in b
    ensures SplitExt(b).1 != "" <==> '.' in b
  {
  }

  /** What `suggestName` returns: a file name or None, and an extension
      or None. */
  datatype Suggestion = Suggestion(name: PyValue, ext: PyValue)

  /** `content.suggestName()`. */
  function SuggestName(c: Content, rt: Runtime): (r: Result<Suggestion>)
    ensures var fn := GetProperty(c, "filename", Some(PyNone), rt);
            var ext := GetProperty(c, "ext", Some(PyStr("")), rt);
            fn.Ok? && ext.Ok? && Truthy(fn.value) && fn.value.PyStr? ==>
              var b := Basename(fn.value.s);
              r == if '.' in b then Ok(Suggestion(PyStr(b), PyNone))
                   else if Truthy(ext.value) then Ok(Suggestion(PyStr(b + "." + StrOf(ext.value, rt)), PyNone))
                   else Ok(Suggestion(PyNone, PyNone))
    ensures var fn := GetProperty(c, "filename", Some(PyNone), rt);
            var ext := GetProperty(c, "ext", Some(PyStr("")), rt);
            fn.Ok? && ext.Ok? && !Truthy(fn.value) && Truthy(ext.value) ==>
              r == Ok(Suggestion(PyNone, ext.value))
    ensures var fn := GetProperty(c, "filename", Some(PyNone), rt);
            var ext := GetProperty(c, "ext", Some(PyStr("")), rt);
            var mt := GetProperty(c, "mime_type", Some(PyNone), rt);
            fn.Ok? && ext.Ok? && !Truthy(fn.value) && !Truthy(ext.value) && mt.Ok? ==>
              r == if !Truthy(mt.value) then Ok(Suggestion(PyNone, PyNone))
                   else match rt.guessExtension(mt.value)
                        case Ok(g) => Ok(Suggestion(PyNone, if Truthy(g) then g else PyNone))
                        case Err(e) => Err(e)
  {
    var filename :- GetProperty(c, "filename", Some(PyNone), rt);
    var ext :- GetProperty(c, "ext", Some(PyStr("")), rt);
    if Truthy(filename) then
      if !filename.PyStr? then Err(AttributeError)
      else
        var b := Basename(filename.s);
        SplitExtBasename(b);
        if SplitExt(b).1 != "" then Ok(Suggestion(PyStr(b), PyNone))
        else if Truthy(ext) then Ok(Suggestion(PyStr(b + "." + StrOf(ext, rt)), PyNone))
        else Ok(Suggestion(PyNone, PyNone))
    else if Truthy(ext) then Ok(Suggestion(PyNone, ext))
    else
      var mt :- GetProperty(c, "mime_type", Some(PyNone), rt);
      if Truthy(mt) then
        var guessed :- rt.guessExtension(mt);
        if Truthy(guessed) then Ok(Suggestion(PyNone, guessed)) else Ok(Suggestion(PyNone, PyNone))
      else Ok(Suggestion(PyNone, PyNone))
  }
}
