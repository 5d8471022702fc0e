/** The base64 decoder that reads the tokenizer's vocabulary. */
module Base64 {
  import opened Prelude
  import opened Text

  datatype Base64Error = BadLength | BadPadding | BadAlphabet

  const EQUALS: bv8 := 61

  // ---- Encoding: section 4 of RFC 4648 ------------------------------------------------

  /** The character of a six-bit value. */
  function Digit(v: bv8): bv8 {
    if v < 26 then v + 65
    else if v < 52 then v - 26 + 97
    else if v < 62 then v - 52 + 48
    else if v == 62 then 43
    else 47
  }

  /** The four six-bit values of three bytes. */
  function Sextets(x: bv8, y: bv8, z: bv8): (bv8, bv8, bv8, bv8) {
    (x >> 2, ((x & 3) << 4) | (y >> 4), ((y & 15) << 2) | (z >> 6), z & 63)
  }

  function EncodeGroup(x: bv8, y: bv8, z: bv8): (r: Bytes)
    ensures |r| == 4
  {
    var (a, b, c, d) := Sextets(x, y, z);
    [Digit(a), Digit(b), Digit(c), Digit(d)]
  }

  /** The last one or two bytes, with padding. */
  function EncodeLast(b: Bytes): (r: Bytes)
    requires |b| == 1 || |b| == 2
    ensures |r| == 4
  {
    if |b| == 1 then EncodeGroup(b[0], 0, 0)[..2] + [EQUALS, EQUALS] else EncodeGroup(b[0], b[1], 0)[..3] + [EQUALS]
  }

  function Encode(b: Bytes): (r: Bytes)
    ensures |r| == (|b| + 2) / 3 * 4
  {
    if b == [] then []
    else if |b| < 3 then EncodeLast(b)
    else EncodeGroup(b[0], b[1], b[2]) + Encode(b[3..])
  }

  // ---- Decoding ---------------------------------------------------------------------------

  /** The six-bit value of a character. */
  function Value(c: bv8): Option<bv8> {
    if 65 <= c <= 90 then Some(c - 65)
    else if 97 <= c <= 122 then Some(c - 97 + 26)
    else if 48 <= c <= 57 then Some(c - 48 + 52)
    else if c == 43 then Some(62)
    else if c == 47 then Some(63)
    else None
  }

  /** In the last two places of a chunk, `=` reads as zero. */
  function ValueOrZero(c: bv8): Option<bv8> { if c == EQUALS then Some(0) else Value(c) }

  /** How many `=` end the text. */
  function Padding(s: Bytes): (n: nat)
    ensures n <= |s|
  {
    if s == [] || s[|s| - 1] != EQUALS then 0 else 1 + Padding(s[..|s| - 1])
  }

  function FirstByte(a: bv8, b: bv8): bv8 { (a << 2) | (b >> 4) }

  function SecondByte(b: bv8, c: bv8): bv8 { (b << 4) | (c >> 2) }

  function ThirdByte(c: bv8, d: bv8): bv8 { (c << 6) | d }

  function DecodeChunk(chunk: Bytes, final: bool): Result<Bytes, Base64Error>
    requires |chunk| == 4
  {
    var padding := Padding(chunk);
    if padding > 2 || (!final && padding != 0) then Err(BadPadding)
    else
      var (a, b, c, d) := (Value(chunk[0]), Value(chunk[1]), ValueOrZero(chunk[2]), ValueOrZero(chunk[3]));
      if a.None? || b.None? || c.None? || d.None? then Err(BadAlphabet)
      else
        var x, y, z := FirstByte(a.value, b.value), SecondByte(b.value, c.value), ThirdByte(c.value, d.value);
        Ok(if padding == 0 then [x, y, z] else if padding == 1 then [x, y] else [x])
  }

  function DecodeChunks(s: Bytes): Result<Bytes, Base64Error>
    requires |s| % 4 == 0
  {
    if s == [] then Ok([])
    else
      match DecodeChunk(s[..4], |s| == 4)
      case Err(e) => Err(e)
      case Ok(first) =>
        match DecodeChunks(s[4..])
        case Err(e) => Err(e)
        case Ok(rest) => Ok(first + rest)
  }

  function Decoded(s: Bytes): Result<Bytes, Base64Error> {
    if s == [] || |s| % 4 != 0 then Err(BadLength) else DecodeChunks(s)
  }

  /** The body of the decoding loop: the bytes of one chunk. */
  method DecodeOne(chunk: Bytes, final: bool) returns (r: Result<Bytes, Base64Error>)
    requires |chunk| == 4
    ensures r == DecodeChunk(chunk, final)
  {
    hide Value, ValueOrZero, Padding, FirstByte, SecondByte, ThirdByte;
    var padding := Padding(chunk);
    if padding > 2 || (!final && padding != 0) {
      return Err(BadPadding);
    }
    var a, b, c, d := Value(chunk[0]), Value(chunk[1]), ValueOrZero(chunk[2]), ValueOrZero(chunk[3]);
    if a.None? || b.None? || c.None? || d.None? {
      return Err(BadAlphabet);
    }
    var output := [FirstByte(a.value, b.value)];
    if padding < 2 {
      output := output + [SecondByte(b.value, c.value)];
    }
    if padding == 0 {
      output := output + [ThirdByte(c.value, d.value)];
    }
    assert output == if padding == 0 then [output[0], output[1], output[2]]
                     else if padding == 1 then [output[0], output[1]] else [output[0]];
    r := Ok(output);
  }

  /** `decode_base64`. */
  method DecodeBase64(encoded: Bytes) returns (r: Result<Bytes, Base64Error>)
    ensures r == Decoded(encoded)
  {
    hide DecodeChunk, DecodeChunks, After;
    if encoded == [] || |encoded| % 4 != 0 {
      return Err(BadLength);
    }
    var output: Bytes := [];
    var at: nat := 0;
    assert encoded[0..] == encoded;
    PutBefore([], DecodeChunks(encoded));
    while at < |encoded|
      invariant at <= |encoded| && at % 4 == 0
      invariant DecodeChunks(encoded) == After(output, DecodeChunks(encoded[at..]))
    {
      ChunkAt(encoded, at);
      ChunkAfter(output, encoded[at..]);
      var chunk := DecodeOne(encoded[at..at + 4], at + 4 == |encoded|);
      if chunk.Err? {
        return Err(chunk.error);
      }
      output := output + chunk.value;
      at := at + 4;
    }
    NothingAfter(output);
    r := Ok(output);
  }

  /** Another chunk fits, and it is the first of what is left. */
  lemma ChunkAt(s: Bytes, at: nat)
    requires at < |s| && at % 4 == 0 && |s| % 4 == 0
    ensures at + 4 <= |s| && |s[at..]| % 4 == 0 && (|s[at..]| == 4 <==> at + 4 == |s|)
    ensures s[at..][..4] == s[at..at + 4] && s[at..][4..] == s[at + 4..]
  {}

  function After(before: Bytes, r: Result<Bytes, Base64Error>): Result<Bytes, Base64Error> {
    if r.Ok? then Ok(before + r.value) else r
  }

  /** What follows some bytes begins with the next chunk. */
  lemma ChunkAfter(before: Bytes, s: Bytes)
    requires s != [] && |s| % 4 == 0
    ensures var chunk := DecodeChunk(s[..4], |s| == 4);
            After(before, DecodeChunks(s))
            == if chunk.Err? then Err(chunk.error) else After(before + chunk.value, DecodeChunks(s[4..]))
  {
    hide DecodeChunk;
    var chunk := DecodeChunk(s[..4], |s| == 4);
    if chunk.Ok? && DecodeChunks(s[4..]).Ok? {
      AppendAssociative(before, chunk.value, DecodeChunks(s[4..]).value);
    }
  }

  lemma NothingAfter(before: Bytes)
    ensures After(before, DecodeChunks([])) == Ok(before)
  {
    assert before + [] == before;
  }

  lemma PutBefore(before: Bytes, r: Result<Bytes, Base64Error>)
    ensures before == [] ==> After(before, r) == r
  {
    if r.Ok? {
      assert [] + r.value == r.value;
    }
  }

  // ---- The alphabet and the bits: section 4 of RFC 4648 -----------------------------------

  /** The letters, capital and small, the digits, `+` and `/`. */
  const ALPHABET: Bytes :=
    [65, 66, 67, 68, 69, 70, 71, 72, 73, 74, 75, 76, 77, 78, 79, 80,
     81, 82, 83, 84, 85, 86, 87, 88, 89, 90, 97, 98, 99, 100, 101, 102,
     103, 104, 105, 106, 107, 108, 109, 110, 111, 112, 113, 114, 115, 116, 117, 118,
     119, 120, 121, 122, 48, 49, 50, 51, 52, 53, 54, 55, 56, 57, 43, 47]

  /** The digits are those of the alphabet, in its order. */
  lemma DigitsOfAlphabet()
    ensures [Digit(0), Digit(1), Digit(2), Digit(3), Digit(4), Digit(5), Digit(6), Digit(7),
             Digit(8), Digit(9), Digit(10), Digit(11), Digit(12), Digit(13), Digit(14), Digit(15),
             Digit(16), Digit(17), Digit(18), Digit(19), Digit(20), Digit(21), Digit(22), Digit(23),
             Digit(24), Digit(25), Digit(26), Digit(27), Digit(28), Digit(29), Digit(30), Digit(31),
             Digit(32), Digit(33), Digit(34), Digit(35), Digit(36), Digit(37), Digit(38), Digit(39),
             Digit(40), Digit(41), Digit(42), Digit(43), Digit(44), Digit(45), Digit(46), Digit(47),
             Digit(48), Digit(49), Digit(50), Digit(51), Digit(52), Digit(53), Digit(54), Digit(55),
             Digit(56), Digit(57), Digit(58), Digit(59), Digit(60), Digit(61), Digit(62), Digit(63)]
         == ALPHABET
  {}

  /** Four digits spell out the bits of three bytes, from the most significant on. */
  lemma GroupBits(x: bv8, y: bv8, z: bv8)
    ensures var (a, b, c, d) := Sextets(x, y, z);
            ((a as bv24) << 18) | ((b as bv24) << 12) | ((c as bv24) << 6) | (d as bv24)
            == ((x as bv24) << 16) | ((y as bv24) << 8) | (z as bv24)
  {}

  /** The bytes of four six-bit values spell out the same bits. */
  lemma BytesBits(a: bv8, b: bv8, c: bv8, d: bv8)
    requires a < 64 && b < 64 && c < 64 && d < 64
    ensures ((FirstByte(a, b) as bv24) << 16) | ((SecondByte(b, c) as bv24) << 8) | (ThirdByte(c, d) as bv24)
         == ((a as bv24) << 18) | ((b as bv24) << 12) | ((c as bv24) << 6) | (d as bv24)
  {}

  // ---- Round trip ----------------------------------------------------------------------

  lemma DigitValue(v: bv8)
    requires v < 64
    ensures Value(Digit(v)) == Some(v) && Digit(v) != EQUALS && ValueOrZero(Digit(v)) == Some(v)
  {}

  lemma PaddingOf(chunk: Bytes)
    requires |chunk| == 4 && chunk[1] != EQUALS
    ensures Padding(chunk) == if chunk[3] != EQUALS then 0 else if chunk[2] != EQUALS then 1 else 2
  {
    assert Padding(chunk[..3][..2]) == 0;
    assert Padding(chunk[..3]) == if chunk[2] != EQUALS then 0 else 1;
  }

  /** The sextets of three bytes, put together again. */
  lemma SextetsJoin(x: bv8, y: bv8, z: bv8)
    ensures var (a, b, c, d) := Sextets(x, y, z);
            && a < 64 && b < 64 && c < 64 && d < 64
            && FirstByte(a, b) == x && SecondByte(b, c) == y && ThirdByte(c, d) == z
  {}

  lemma GroupDecodes(x: bv8, y: bv8, z: bv8, final: bool)
    ensures DecodeChunk(EncodeGroup(x, y, z), final) == Ok([x, y, z])
  {
    hide Value, Digit, ValueOrZero, Padding, Sextets, FirstByte, SecondByte, ThirdByte;
    SextetsJoin(x, y, z);
    var (a, b, c, d) := Sextets(x, y, z);
    DigitValue(a);
    DigitValue(b);
    DigitValue(c);
    DigitValue(d);
    PaddingOf(EncodeGroup(x, y, z));
  }

  lemma LastDecodes(b: Bytes)
    requires |b| == 1 || |b| == 2
    ensures DecodeChunk(EncodeLast(b), true) == Ok(b)
  {
    hide Value, Digit, Padding, Sextets, FirstByte, SecondByte, ThirdByte;
    var x, y := b[0], if |b| == 2 then b[1] else 0;
    SextetsJoin(x, y, 0);
    var (p, q, r, s) := Sextets(x, y, 0);
    DigitValue(p);
    DigitValue(q);
    DigitValue(r);
    PaddingOf(EncodeLast(b));
    assert b == if |b| == 1 then [x] else [x, y];
  }

  lemma ChunkFirst(first: Bytes, rest: Bytes)
    requires |first| == 4 && |rest| % 4 == 0
    ensures DecodeChunk(first, rest == []).Ok? && DecodeChunks(rest).Ok? ==>
              DecodeChunks(first + rest) == Ok(DecodeChunk(first, rest == []).value + DecodeChunks(rest).value)
  {
    hide DecodeChunk;
    assert (first + rest)[..4] == first && (first + rest)[4..] == rest;
  }

  /** Decoding the padded encoding of any nonempty bytes gives them back. */
  lemma {:induction false} EncodedDecodes(b: Bytes)
    requires b != []
    ensures Decoded(Encode(b)) == Ok(b)
  {
    hide DecodeChunk, DecodeChunks, EncodeLast, EncodeGroup;
    NothingDecodes();
    if |b| < 3 {
      LastDecodes(b);
      ChunkFirst(EncodeLast(b), []);
      assert EncodeLast(b) + [] == EncodeLast(b) && b + [] == b;
    } else {
      GroupDecodes(b[0], b[1], b[2], |b| == 3);
      if |b| > 3 {
        EncodedDecodes(b[3..]);
      } else {
        assert b[3..] == [];
      }
      ChunkFirst(EncodeGroup(b[0], b[1], b[2]), Encode(b[3..]));
      assert [b[0], b[1], b[2]] + b[3..] == b;
    }
  }

  lemma NothingDecodes()
    ensures DecodeChunks([]) == Ok([])
  {}

  // ---- What does not decode ---------------------------------------------------------------

  /** One of the 64 digits. */
  ghost predicate InAlphabet(c: bv8) { exists v: bv8 :: v < 64 && Digit(v) == c }

  lemma OnlyDigits(c: bv8)
    ensures Value(c).Some? <==> InAlphabet(c)
    ensures ValueOrZero(c).Some? <==> InAlphabet(c) || c == EQUALS
  {
    hide Value, Digit;
    if Value(c).Some? {
      ValueDigit(c);
    }
    if v: bv8 :| v < 64 && Digit(v) == c {
      DigitValue(v);
    }
  }

  /** A character that may stand here: of the alphabet, or in the last two places `=`. */
  ghost predicate Allowed(chunk: Bytes, i: nat)
    requires i < |chunk|
  {
    InAlphabet(chunk[i]) || (i >= 2 && chunk[i] == EQUALS)
  }

  /**
   Why a chunk does not decode: it ends in three `=`, or at all in `=` although
   others follow; or otherwise some character may not stand in its place.
   */
  lemma ChunkErrors(chunk: Bytes, final: bool)
    requires |chunk| == 4
    ensures DecodeChunk(chunk, final) == Err(BadPadding)
       <==> chunk[3] == EQUALS && (!final || (chunk[2] == EQUALS && chunk[1] == EQUALS))
    ensures DecodeChunk(chunk, final) == Err(BadAlphabet)
       <==> DecodeChunk(chunk, final) != Err(BadPadding) && exists i | 0 <= i < 4 :: !Allowed(chunk, i)
    ensures DecodeChunk(chunk, final) != Err(BadLength)
  {
    hide Value, ValueOrZero, Padding, InAlphabet, FirstByte, SecondByte, ThirdByte;
    PaddingCounts(chunk);
    OnlyDigits(chunk[0]);
    OnlyDigits(chunk[1]);
    OnlyDigits(chunk[2]);
    OnlyDigits(chunk[3]);
    assert (exists i | 0 <= i < 4 :: !Allowed(chunk, i))
      <==> !Allowed(chunk, 0) || !Allowed(chunk, 1) || !Allowed(chunk, 2) || !Allowed(chunk, 3);
  }

  lemma PaddingCounts(chunk: Bytes)
    requires |chunk| == 4
    ensures Padding(chunk) == 0 <==> chunk[3] != EQUALS
    ensures Padding(chunk) > 2 <==> chunk[3] == EQUALS && chunk[2] == EQUALS && chunk[1] == EQUALS
  {
    assert Padding(chunk) == if chunk[3] != EQUALS then 0 else 1 + Padding(chunk[..3]);
    assert Padding(chunk[..3]) == if chunk[2] != EQUALS then 0 else 1 + Padding(chunk[..3][..2]);
    assert Padding(chunk[..3][..2]) == if chunk[1] != EQUALS then 0 else 1 + Padding(chunk[..3][..2][..1]);
  }

  // ---- Lengths, and what else decodes ---------------------------------------------------

  lemma ChunkLength(chunk: Bytes, final: bool)
    requires |chunk| == 4
    ensures DecodeChunk(chunk, final).Ok? ==>
              |DecodeChunk(chunk, final).value| == 3 - Padding(chunk) && (final || Padding(chunk) == 0)
  {
    hide Value, ValueOrZero, Padding, FirstByte, SecondByte, ThirdByte;
  }

  /** A successful decode has three bytes for each chunk, less the padding of the last one. */
  lemma {:induction false} DecodedLength(s: Bytes)
    ensures Decoded(s).Ok? ==> |s| >= 4 && |Decoded(s).value| == |s| / 4 * 3 - Padding(s[|s| - 4..])
  {
    hide DecodeChunk, Padding;
    if Decoded(s).Ok? {
      ChunkLength(s[..4], |s| == 4);
      if |s| == 4 {
        assert s[..4] == s && s[4..] == [] && s[0..] == s;
        NothingDecodes();
      } else {
        assert s[4..][|s| - 8..] == s[|s| - 4..];
        DecodedLength(s[4..]);
      }
    }
  }

  /** A chunk that the encoder could have written: `=` only as padding, and no stray bits before it. */
  predicate CanonicalChunk(chunk: Bytes)
    requires |chunk| == 4
  {
    if Padding(chunk) == 0 then chunk[2] != EQUALS
    else if Padding(chunk) == 1 then Value(chunk[2]).Some? ==> Value(chunk[2]).value & 3 == 0
    else Value(chunk[1]).Some? ==> Value(chunk[1]).value & 15 == 0
  }

  predicate Canonical(s: Bytes)
    requires |s| % 4 == 0
  {
    s == [] || (CanonicalChunk(s[..4]) && Canonical(s[4..]))
  }

  lemma ValueDigit(c: bv8)
    ensures Value(c).Some? ==> Value(c).value < 64 && Digit(Value(c).value) == c && c != EQUALS
  {}

  lemma DigitsDiffer(v: bv8, w: bv8)
    requires v < 64 && w < 64
    ensures Digit(v) == Digit(w) ==> v == w
  {}

  /** The sextets of bytes that were put together from sextets; padding clears what it leaves out. */
  lemma BytesSplit(a: bv8, b: bv8, c: bv8, d: bv8)
    requires a < 64 && b < 64 && c < 64 && d < 64
    ensures Sextets(FirstByte(a, b), SecondByte(b, c), ThirdByte(c, d)) == (a, b, c, d)
    ensures var s := Sextets(FirstByte(a, b), SecondByte(b, c), 0);
            s.0 == a && s.1 == b && s.2 < 64 && (s.2 == c <==> c & 3 == 0)
    ensures var s := Sextets(FirstByte(a, b), 0, 0); s.0 == a && s.1 < 64 && (s.1 == b <==> b & 15 == 0)
  {}

  lemma OneChunk(v: Bytes)
    requires 1 <= |v| <= 3
    ensures Encode(v) == if |v| == 3 then EncodeGroup(v[0], v[1], v[2]) else EncodeLast(v)
  {
    hide EncodeGroup, EncodeLast;
    if |v| == 3 {
      assert v[3..] == [] && Encode(v[3..]) == [];
      assert EncodeGroup(v[0], v[1], v[2]) + [] == EncodeGroup(v[0], v[1], v[2]);
    }
  }

  lemma ChunkReencodes(chunk: Bytes, final: bool)
    requires |chunk| == 4 && DecodeChunk(chunk, final).Ok?
    ensures Encode(DecodeChunk(chunk, final).value) == chunk <==> CanonicalChunk(chunk)
  {
    hide Value, Digit, Padding, Sextets, FirstByte, SecondByte, ThirdByte, Encode;
    var v := DecodeChunk(chunk, final).value;
    OneChunk(v);
    ValueDigit(chunk[0]);
    ValueDigit(chunk[1]);
    ValueDigit(chunk[2]);
    ValueDigit(chunk[3]);
    PaddingOf(chunk);
    var a, b := Value(chunk[0]).value, Value(chunk[1]).value;
    var c, d := ValueOrZero(chunk[2]).value, ValueOrZero(chunk[3]).value;
    BytesSplit(a, b, c, d);
    DigitValue(c);
    if |v| == 2 {
      DigitsDiffer(Sextets(v[0], v[1], 0).2, c);
    } else if |v| == 1 {
      DigitsDiffer(Sextets(v[0], 0, 0).1, b);
    }
    assert chunk == [chunk[0], chunk[1], chunk[2], chunk[3]];
  }

  /**
   Which encodings survive decoding and encoding: exactly those without a `=`
   in the third place of an unpadded chunk and without stray bits before the
   padding.
   */
  lemma {:induction false} DecodedEncodes(s: Bytes)
    requires |s| % 4 == 0 && DecodeChunks(s).Ok?
    ensures Encode(DecodeChunks(s).value) == s <==> Canonical(s)
  {
    hide DecodeChunk, CanonicalChunk, Encode;
    if s != [] {
      var first := DecodeChunk(s[..4], |s| == 4).value;
      var rest := DecodeChunks(s[4..]).value;
      ChunkReencodes(s[..4], |s| == 4);
      DecodedEncodes(s[4..]);
      if |s| == 4 {
        assert s[4..] == [];
        NothingDecodes();
        assert first + [] == first && s[..4] == s;
      } else {
        FullChunk(s[..4]);
        EncodeFirst(first, rest);
        assert s == s[..4] + s[4..];
        SameHalves(Encode(first), Encode(rest), s[..4], s[4..]);
      }
    } else {
      EncodeNothing();
    }
  }

  lemma EncodeNothing()
    ensures Encode([]) == []
  {}

  lemma FullChunk(chunk: Bytes)
    requires |chunk| == 4
    ensures DecodeChunk(chunk, false).Ok? ==> |DecodeChunk(chunk, false).value| == 3
  {
    hide Value, ValueOrZero, Padding;
  }

  lemma EncodeFirst(first: Bytes, rest: Bytes)
    requires |first| == 3
    ensures Encode(first + rest) == Encode(first) + Encode(rest) && |Encode(first)| == 4
  {
    hide EncodeGroup;
    OneChunk(first);
    assert (first + rest)[3..] == rest;
  }

  lemma SameHalves(a: Bytes, b: Bytes, x: Bytes, y: Bytes)
    requires |a| == |x|
    ensures a + b == x + y <==> a == x && b == y
  {
    if a + b == x + y {
      assert a == (a + b)[..|a|] && b == (a + b)[|a|..];
      assert x == (x + y)[..|x|] && y == (x + y)[|x|..];
    }
  }

  /** A decoded text that is not the encoding of what it decodes to: `AB=C` reads as `ABAC`. */
  lemma MisplacedPaddingDecodes()
    ensures Decoded([65, 66, 61, 67]).Ok? && Decoded([65, 66, 61, 67]) == Decoded([65, 66, 65, 67])
  {
    var s, t: Bytes := [65, 66, 61, 67], [65, 66, 65, 67];
    PaddingOf(s);
    PaddingOf(t);
    assert s[..4] == s && s[4..] == [] && t[..4] == t && t[4..] == [];
    hide Padding;
  }
}
