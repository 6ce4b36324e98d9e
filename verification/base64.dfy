/** The base64 codec behind Python 2's `str.encode('base64')` and
    `str.decode('base64')`, which BinaryProperty uses to keep binary data in
    a text column.

    Encoding (`base64.encodestring`) cuts the bytes into chunks of 57, the
    most one 76-character line holds, encodes each chunk with `=` padding
    and ends every line with a newline. Decoding (`binascii.a2b_base64`)
    skips every character outside the alphabet, newlines included, and
    reads the rest four characters at a time.
 */
module Base64 {
  import opened Outcomes

  type Byte = x: int | 0 <= x < 256

  /** Input bytes per output line of `encodestring`. */
  const LineBytes: nat := 57

  // ---- the alphabet ----

  function SextetChar(v: int): (c: char)
    requires 0 <= v < 64
    ensures IsSextetChar(c)
  {
    if v < 26 then ('A' as int + v) as char
    else if v < 52 then ('a' as int + (v - 26)) as char
    else if v < 62 then ('0' as int + (v - 52)) as char
    else if v == 62 then '+'
    else '/'
  }

  predicate IsSextetChar(c: char)
  {
    ('A' <= c <= 'Z') || ('a' <= c <= 'z') || ('0' <= c <= '9') || c == '+' || c == '/'
  }

  function SextetValue(c: char): (v: int)
    requires IsSextetChar(c)
    ensures 0 <= v < 64 && SextetChar(v) == c
  {
    if 'A' <= c <= 'Z' then c as int - 'A' as int
    else if 'a' <= c <= 'z' then c as int - 'a' as int + 26
    else if '0' <= c <= '9' then c as int - '0' as int + 52
    else if c == '+' then 62
    else 63
  }

  lemma SextetRoundTrip(v: int)
    requires 0 <= v < 64
    ensures IsSextetChar(SextetChar(v)) && SextetValue(SextetChar(v)) == v
  {
  }

  /** The characters an encoder writes, padding included. */
  predicate IsCodeChar(c: char)
  {
    IsSextetChar(c) || c == '='
  }

  // ---- encoding ----

  function EncodeTriple(b0: Byte, b1: Byte, b2: Byte): (s: string)
    ensures |s| == 4
    ensures IsSextetChar(s[0]) && IsSextetChar(s[1]) && IsSextetChar(s[2]) && IsSextetChar(s[3])
  {
    [SextetChar(b0 / 4), SextetChar((b0 % 4) * 16 + b1 / 16),
     SextetChar((b1 % 16) * 4 + b2 / 64), SextetChar(b2 % 64)]
  }

  /** `binascii.b2a_base64` without the trailing newline. */
  function Encode(bs: seq<Byte>): string
  {
    if |bs| == 0 then ""
    else if |bs| == 1 then
      [SextetChar(bs[0] / 4), SextetChar((bs[0] % 4) * 16), '=', '=']
    else if |bs| == 2 then
      [SextetChar(bs[0] / 4), SextetChar((bs[0] % 4) * 16 + bs[1] / 16), SextetChar((bs[1] % 16) * 4), '=']
    else
      EncodeTriple(bs[0], bs[1], bs[2]) + Encode(bs[3..])
  }

  /** Four characters per started triple. */
  lemma {:induction false} EncodedLength(bs: seq<Byte>)
    ensures |Encode(bs)| == (|bs| + 2) / 3 * 4
    decreases |bs|
  {
    if |bs| >= 3 {
      EncodedLength(bs[3..]);
      EncodeUnfold(bs);
      var n := |bs|;
      assert (n + 2) / 3 == (n - 1) / 3 + 1;
    }
  }

  /** The encoder writes only alphabet characters and padding. */
  lemma {:induction false} EncodeCodeChars(bs: seq<Byte>)
    ensures forall i :: 0 <= i < |Encode(bs)| ==> IsCodeChar(Encode(bs)[i])
    decreases |bs|
  {
    if |bs| >= 3 {
      var t, rest := EncodeTriple(bs[0], bs[1], bs[2]), Encode(bs[3..]);
      EncodeCodeChars(bs[3..]);
      EncodeUnfold(bs);
      forall i | 0 <= i < |Encode(bs)|
        ensures IsCodeChar(Encode(bs)[i])
      {
        if i >= 4 {
          assert Encode(bs)[i] == rest[i - 4];
        }
      }
    }
  }

  lemma EncodeUnfold(bs: seq<Byte>)
    requires |bs| >= 3
    ensures Encode(bs) == EncodeTriple(bs[0], bs[1], bs[2]) + Encode(bs[3..])
  {
  }

  /** `base64.encodestring`: one newline-terminated line per 57 bytes. */
  function EncodeLines(bs: seq<Byte>): (s: string)
    ensures |bs| == 0 <==> |s| == 0
    ensures |s| > 0 ==> s[|s| - 1] == '\n'
    decreases |bs|
  {
    if |bs| == 0 then ""
    else if |bs| <= LineBytes then Encode(bs) + "\n"
    else Encode(bs[..LineBytes]) + "\n" + EncodeLines(bs[LineBytes..])
  }

  // ---- decoding ----

  /** The characters the decoder looks at; everything else is skipped. */
  function Clean(s: string): (t: string)
    ensures forall i :: 0 <= i < |t| ==> IsCodeChar(t[i])
  {
    if |s| == 0 then ""
    else if IsCodeChar(s[0]) then [s[0]] + Clean(s[1..])
    else Clean(s[1..])
  }

  /** Decodes text already free of skipped characters: full quadruples,
      the last of which may end in one or two `=`. */
  function DecodeClean(s: string): (r: Result<seq<Byte>>)
    ensures r.Err? ==> r.error == DecodeError
    decreases |s|
  {
    if |s| == 0 then Ok([])
    else if |s| < 4 || !IsSextetChar(s[0]) || !IsSextetChar(s[1]) then Err(DecodeError)
    else
      var c0, c1 := SextetValue(s[0]), SextetValue(s[1]);
      if IsSextetChar(s[2]) && IsSextetChar(s[3]) then
        var c2, c3 := SextetValue(s[2]), SextetValue(s[3]);
        var head: seq<Byte> := [c0 * 4 + c1 / 16, (c1 % 16) * 16 + c2 / 4, (c2 % 4) * 64 + c3];
        match DecodeClean(s[4..])
        case Ok(tail) => Ok(head + tail)
        case Err(e) => Err(e)
      else if |s| == 4 && s[2] == '=' && s[3] == '=' then
        Ok([c0 * 4 + c1 / 16])
      else if |s| == 4 && IsSextetChar(s[2]) && s[3] == '=' then
        var c2 := SextetValue(s[2]);
        Ok([c0 * 4 + c1 / 16, (c1 % 16) * 16 + c2 / 4])
      else Err(DecodeError)
  }

  /** `base64.decodestring`. */
  function Decode(s: string): (r: Result<seq<Byte>>)
    ensures r.Err? ==> r.error == DecodeError
  {
    DecodeClean(Clean(s))
  }

  // ---- the round trip ----

  lemma TripleArithmetic(b0: Byte, b1: Byte, b2: Byte)
    ensures (b0 / 4) * 4 + ((b0 % 4) * 16 + b1 / 16) / 16 == b0
    ensures (((b0 % 4) * 16 + b1 / 16) % 16) * 16 + ((b1 % 16) * 4 + b2 / 64) / 4 == b1
    ensures (((b1 % 16) * 4 + b2 / 64) % 4) * 64 + b2 % 64 == b2
  {
  }

  lemma DecodeEncodeTriple(bs: seq<Byte>, rest: string)
    requires |bs| >= 3
    requires DecodeClean(rest) == Ok(bs[3..])
    ensures DecodeClean(EncodeTriple(bs[0], bs[1], bs[2]) + rest) == Ok(bs)
  {
    var b0, b1, b2 := bs[0], bs[1], bs[2];
    var c0, c1, c2, c3 := b0 / 4, (b0 % 4) * 16 + b1 / 16, (b1 % 16) * 4 + b2 / 64, b2 % 64;
    var s := EncodeTriple(b0, b1, b2) + rest;
    SextetRoundTrip(c0);
    SextetRoundTrip(c1);
    SextetRoundTrip(c2);
    SextetRoundTrip(c3);
    assert s[0] == SextetChar(c0) && s[1] == SextetChar(c1) && s[2] == SextetChar(c2) && s[3] == SextetChar(c3);
    assert s[4..] == rest;
    DecodeQuad(s, c0, c1, c2, c3, bs[3..]);
    TripleArithmetic(b0, b1, b2);
    assert [b0, b1, b2] + bs[3..] == bs;
  }

  /** Four sextets followed by decodable text decode to three bytes and
      then that text's bytes. */
  lemma DecodeQuad(s: string, c0: int, c1: int, c2: int, c3: int, tail: seq<Byte>)
    requires 0 <= c0 < 64 && 0 <= c1 < 64 && 0 <= c2 < 64 && 0 <= c3 < 64
    requires |s| >= 4
    requires s[0] == SextetChar(c0) && s[1] == SextetChar(c1) && s[2] == SextetChar(c2) && s[3] == SextetChar(c3)
    requires IsSextetChar(s[0]) && IsSextetChar(s[1]) && IsSextetChar(s[2]) && IsSextetChar(s[3])
    requires SextetValue(s[0]) == c0 && SextetValue(s[1]) == c1 && SextetValue(s[2]) == c2 && SextetValue(s[3]) == c3
    requires DecodeClean(s[4..]) == Ok(tail)
    ensures DecodeClean(s) == Ok([c0 * 4 + c1 / 16, (c1 % 16) * 16 + c2 / 4, (c2 % 4) * 64 + c3] + tail)
  {
  }

  lemma DecodeEncodeOne(b0: Byte)
    ensures DecodeClean(Encode([b0])) == Ok([b0])
  {
    var s := Encode([b0]);
    SextetRoundTrip(b0 / 4);
    SextetRoundTrip((b0 % 4) * 16);
    assert s == [SextetChar(b0 / 4), SextetChar((b0 % 4) * 16), '=', '='];
    assert (b0 / 4) * 4 + ((b0 % 4) * 16) / 16 == b0;
  }

  lemma DecodeEncodeTwo(b0: Byte, b1: Byte)
    ensures DecodeClean(Encode([b0, b1])) == Ok([b0, b1])
  {
    var s := Encode([b0, b1]);
    var c1 := (b0 % 4) * 16 + b1 / 16;
    var c2 := (b1 % 16) * 4;
    SextetRoundTrip(b0 / 4);
    SextetRoundTrip(c1);
    SextetRoundTrip(c2);
    assert s == [SextetChar(b0 / 4), SextetChar(c1), SextetChar(c2), '='];
    TripleArithmetic(b0, b1, 0);
    assert (b0 / 4) * 4 + c1 / 16 == b0;
    assert (c1 % 16) * 16 + c2 / 4 == b1;
  }

  lemma DecodeEncodeStep(bs: seq<Byte>)
    requires |bs| >= 3
    requires DecodeClean(Encode(bs[3..])) == Ok(bs[3..])
    ensures DecodeClean(Encode(bs)) == Ok(bs)
  {
    var rest := Encode(bs[3..]);
    assert Encode(bs) == EncodeTriple(bs[0], bs[1], bs[2]) + rest;
    DecodeEncodeTriple(bs, rest);
  }

  /** Decoding what the encoder wrote gives the bytes back. */
  lemma {:induction false} DecodeEncode(bs: seq<Byte>)
    ensures DecodeClean(Encode(bs)) == Ok(bs)
    decreases |bs|
  {
    if |bs| == 0 {
    } else if |bs| == 1 {
      DecodeEncodeOne(bs[0]);
      assert [bs[0]] == bs;
    } else if |bs| == 2 {
      DecodeEncodeTwo(bs[0], bs[1]);
      assert [bs[0], bs[1]] == bs;
    } else {
      DecodeEncode(bs[3..]);
      DecodeEncodeStep(bs);
    }
  }

  /** A whole number of triples encodes independently of what follows. */
  lemma {:induction false} EncodeAppend(a: seq<Byte>, b: seq<Byte>)
    requires |a| % 3 == 0
    ensures Encode(a + b) == Encode(a) + Encode(b)
    decreases |a|
  {
    if |a| == 0 {
      assert a + b == b;
    } else {
      assert |a| >= 3;
      EncodeAppend(a[3..], b);
      EncodeAppendStep(a, b);
    }
  }

  lemma EncodeAppendStep(a: seq<Byte>, b: seq<Byte>)
    requires |a| >= 3
    requires Encode(a[3..] + b) == Encode(a[3..]) + Encode(b)
    ensures Encode(a + b) == Encode(a) + Encode(b)
  {
    var t := EncodeTriple(a[0], a[1], a[2]);
    var x, y := Encode(a[3..]), Encode(b);
    EncodeUnfold(a);
    EncodeUnfold(a + b);
    DropAppend(a, b, 3);
    assert (a + b)[0] == a[0] && (a + b)[1] == a[1] && (a + b)[2] == a[2];
    calc {
      Encode(a + b);
      t + Encode(a[3..] + b);
      t + (x + y);
      { SeqAssoc(t, x, y); }
      (t + x) + y;
      Encode(a) + y;
    }
  }

  lemma DropAppend<T>(a: seq<T>, b: seq<T>, k: nat)
    requires k <= |a|
    ensures (a + b)[k..] == a[k..] + b
  {
  }

  lemma SeqAssoc<T>(a: seq<T>, b: seq<T>, c: seq<T>)
    ensures a + (b + c) == (a + b) + c
  {
  }

  lemma {:induction false} CleanAppend(s: string, t: string)
    ensures Clean(s + t) == Clean(s) + Clean(t)
    decreases |s|
  {
    if |s| == 0 {
      assert s + t == t;
    } else {
      CleanAppend(s[1..], t);
      assert (s + t)[1..] == s[1..] + t;
    }
  }

  lemma {:induction false} CleanKeeps(s: string)
    requires forall i :: 0 <= i < |s| ==> IsCodeChar(s[i])
    ensures Clean(s) == s
    decreases |s|
  {
    if |s| > 0 {
      CleanKeeps(s[1..]);
      assert [s[0]] + s[1..] == s;
    }
  }

  /** Skipping the line breaks leaves the unbroken encoding. */
  lemma {:induction false} CleanEncodeLines(bs: seq<Byte>)
    ensures Clean(EncodeLines(bs)) == Encode(bs)
    decreases |bs|
  {
    if |bs| == 0 {
    } else if |bs| <= LineBytes {
      CleanLine(bs);
    } else {
      var head, tail := bs[..LineBytes], bs[LineBytes..];
      CleanEncodeLines(tail);
      CleanLine(head);
      CleanAppend(Encode(head) + "\n", EncodeLines(tail));
      EncodeAppend(head, tail);
      assert head + tail == bs;
    }
  }

  /** Skipping the newline after one line leaves that line's encoding. */
  lemma CleanLine(bs: seq<Byte>)
    ensures Clean(Encode(bs) + "\n") == Encode(bs)
  {
    CleanAppend(Encode(bs), "\n");
    EncodeCodeChars(bs);
    CleanKeeps(Encode(bs));
    assert Clean("\n") == "";
  }

  /** `s.encode('base64').decode('base64') == s` for every byte string. */
  lemma DecodeEncodeLines(bs: seq<Byte>)
    ensures Decode(EncodeLines(bs)) == Ok(bs)
  {
    CleanEncodeLines(bs);
    DecodeEncode(bs);
  }
}
