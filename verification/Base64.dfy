/**
  The hand-written base64 encoder, against a decoder written from section 4 of RFC 4648.
  (app/src-tauri/src/main.rs, `base64`)
 */
module Base64 {
  import opened Prelude

  type Byte = bv8
  type Bytes = seq<Byte>
  type Sextet = bv6

  const UPPER: string := "ABCDEFGHIJKLMNOPQRSTUVWXYZ"
  const LOWER: string := "abcdefghijklmnopqrstuvwxyz"
  const DIGITS: string := "0123456789"
  const ALPHABET: string := UPPER + LOWER + DIGITS + "+/"
  const PAD: char := '='

  function Letter(v: Sextet): char {
    ALPHABET[v as int]
  }

  /** Three bytes in one word. */
  function Joined(x: Byte, y: Byte, z: Byte): bv32 {
    ((x as bv32) << 16) | ((y as bv32) << 8) | (z as bv32)
  }

  /** Up to three bytes in one word, missing ones zero. */
  function Triple(chunk: Bytes): bv32
    requires 1 <= |chunk| <= 3
  {
    Joined(chunk[0], if |chunk| > 1 then chunk[1] else 0, if |chunk| > 2 then chunk[2] else 0)
  }

  function Sextet3(t: bv32): Sextet { ((t >> 18) & 0x3f) as Sextet }
  function Sextet2(t: bv32): Sextet { ((t >> 12) & 0x3f) as Sextet }
  function Sextet1(t: bv32): Sextet { ((t >> 6) & 0x3f) as Sextet }
  function Sextet0(t: bv32): Sextet { (t & 0x3f) as Sextet }

  function EncodeChunk(chunk: Bytes): (quad: string)
    requires 1 <= |chunk| <= 3
    ensures |quad| == 4
  {
    var t := Triple(chunk);
    [Letter(Sextet3(t)), Letter(Sextet2(t)),
     if |chunk| > 1 then Letter(Sextet1(t)) else PAD,
     if |chunk| > 2 then Letter(Sextet0(t)) else PAD]
  }

  function Encode(s: Bytes): string {
    if s == [] then "" else
    if |s| <= 3 then EncodeChunk(s) else EncodeChunk(s[..3]) + Encode(s[3..])
  }

  // ------------------------------------------------------------------ the decoder of the standard

  /** Table 1 of section 4, read backwards. */
  function Number(c: char): (n: Option<nat>)
    ensures n.Some? ==> n.value < 64
  {
    if 'A' <= c <= 'Z' then Some(c as int - 65)
    else if 'a' <= c <= 'z' then Some(c as int - 71)
    else if '0' <= c <= '9' then Some(c as int + 4)
    else if c == '+' then Some(62)
    else if c == '/' then Some(63)
    else None
  }

  function Value(c: char): Option<Sextet> {
    if Number(c).None? then None else Some(Number(c).value as Sextet)
  }

  lemma UpperRange(n: int)
    requires 0 <= n < 26
    ensures UPPER[n] as int == n + 65 && LOWER[n] as int == n + 97
  {
  }

  lemma DigitRange(n: int)
    requires 0 <= n < 10
    ensures DIGITS[n] as int == n + 48
  {
  }

  /** The number of a letter, from its sextet. */
  function CodeOf(n: int): int {
    if n < 26 then n + 65 else if n < 52 then n + 71 else if n < 62 then n - 4 else if n == 62 then 43 else 47
  }

  lemma LetterRange(n: int)
    requires 0 <= n < 64
    ensures ALPHABET[n] as int == CodeOf(n)
  {
    if n < 26 {
      UpperRange(n);
      assert ALPHABET[n] == UPPER[n];
    } else if n < 52 {
      UpperRange(n - 26);
      assert ALPHABET[n] == LOWER[n - 26];
    } else if n < 62 {
      DigitRange(n - 52);
      assert ALPHABET[n] == DIGITS[n - 52];
    } else {
      assert ALPHABET[n] == "+/"[n - 62];
    }
  }

  lemma CodeOfLetter(v: Sextet)
    ensures Letter(v) as int == CodeOf(v as int)
  {
    LetterRange(v as int);
  }

  lemma CodeOfNumber(c: char)
    requires Number(c).Some?
    ensures CodeOf(Number(c).value) == c as int && c != PAD
  {
  }

  lemma NumberOfCode(c: char, n: nat)
    requires n < 64 && c as int == CodeOf(n)
    ensures Number(c) == Some(n) && c != PAD
  {
  }

  lemma ValueOfLetter(v: Sextet)
    ensures Value(Letter(v)) == Some(v) && Letter(v) != PAD
  {
    CodeOfLetter(v);
    NumberOfCode(Letter(v), v as int);
    hide Letter, Number, CodeOf;
  }

  lemma AsSextet(n: nat)
    requires n < 64
    ensures (n as Sextet) as int == n
  {
  }

  lemma LetterOfValue(c: char)
    requires Value(c).Some?
    ensures Letter(Value(c).value) == c && c != PAD
  {
    CodeOfNumber(c);
    AsSextet(Number(c).value);
    CodeOfLetter(Value(c).value);
    hide Letter, Number, CodeOf;
  }

  /** Four sextets are 24 bits, which are three bytes. */
  function Word(a: Sextet, b: Sextet, c: Sextet, d: Sextet): bv32 {
    ((a as bv32) << 18) | ((b as bv32) << 12) | ((c as bv32) << 6) | (d as bv32)
  }

  function Byte2(w: bv32): Byte { ((w >> 16) & 0xff) as Byte }
  function Byte1(w: bv32): Byte { ((w >> 8) & 0xff) as Byte }
  function Byte0(w: bv32): Byte { (w & 0xff) as Byte }

  /** A group of four characters; the bits behind the last byte of a padded group must be zero (section 3.5). */
  function DecodeQuad(q: string): Option<Bytes>
    requires |q| == 4
  {
    if Value(q[0]).None? || Value(q[1]).None? then None
    else
      var a, b := Value(q[0]).value, Value(q[1]).value;
      if q[3] != PAD then
        if Value(q[2]).None? || Value(q[3]).None? then None
        else
          var w := Word(a, b, Value(q[2]).value, Value(q[3]).value);
          Some([Byte2(w), Byte1(w), Byte0(w)])
      else if q[2] != PAD then
        if Value(q[2]).None? || Value(q[2]).value & 3 != 0 then None
        else
          var w := Word(a, b, Value(q[2]).value, 0);
          Some([Byte2(w), Byte1(w)])
      else if b & 15 != 0 then None
      else Some([Byte2(Word(a, b, 0, 0))])
  }

  /** Whole groups of four; only the last may be padded. */
  function Decode(t: string): Option<Bytes> {
    if t == "" then Some([])
    else if |t| < 4 then None
    else
      var first := DecodeQuad(t[..4]);
      if first.None? then None
      else if |t| == 4 then first
      else if |first.value| < 3 then None
      else
        var rest := Decode(t[4..]);
        if rest.None? then None else Some(first.value + rest.value)
  }

  // ------------------------------------------------------------------ bits

  lemma BitsThere(x: Byte, y: Byte, z: Byte)
    ensures var t := Joined(x, y, z);
            var w := Word(Sextet3(t), Sextet2(t), Sextet1(t), Sextet0(t));
            Byte2(w) == x && Byte1(w) == y && Byte0(w) == z
  {
  }

  lemma BytesOfAWord(w: bv32)
    requires w <= 0xff_ffff
    ensures Joined(Byte2(w), Byte1(w), Byte0(w)) == w
  {
  }

  lemma SextetsOfAWord(a: Sextet, b: Sextet, c: Sextet, d: Sextet)
    ensures var w := Word(a, b, c, d);
            w <= 0xff_ffff && Sextet3(w) == a && Sextet2(w) == b && Sextet1(w) == c && Sextet0(w) == d
  {
  }

  lemma BitsBack(a: Sextet, b: Sextet, c: Sextet, d: Sextet)
    ensures var w := Word(a, b, c, d);
            var t := Joined(Byte2(w), Byte1(w), Byte0(w));
            Sextet3(t) == a && Sextet2(t) == b && Sextet1(t) == c && Sextet0(t) == d
  {
    SextetsOfAWord(a, b, c, d);
    BytesOfAWord(Word(a, b, c, d));
    hide Word, Joined, Byte2, Byte1, Byte0, Sextet3, Sextet2, Sextet1, Sextet0;
  }

  lemma BitsOfTwo(x: Byte, y: Byte)
    ensures var t := Joined(x, y, 0);
            Sextet1(t) & 3 == 0 && Sextet0(t) == 0
  {
  }

  lemma BitsOfOne(x: Byte)
    ensures var t := Joined(x, 0, 0);
            Sextet2(t) & 15 == 0 && Sextet1(t) == 0 && Sextet0(t) == 0
  {
  }

  /** What the decoder makes of four letters, or of fewer and padding. */
  lemma DecodeLetters(a: Sextet, b: Sextet, c: Sextet, d: Sextet)
    ensures DecodeQuad([Letter(a), Letter(b), Letter(c), Letter(d)])
            == var w := Word(a, b, c, d); Some([Byte2(w), Byte1(w), Byte0(w)])
    ensures DecodeQuad([Letter(a), Letter(b), Letter(c), PAD])
            == if c & 3 != 0 then None else var w := Word(a, b, c, 0); Some([Byte2(w), Byte1(w)])
    ensures DecodeQuad([Letter(a), Letter(b), PAD, PAD]) == if b & 15 != 0 then None
              else Some([Byte2(Word(a, b, 0, 0))])
  {
    ValueOfLetter(a);
    ValueOfLetter(b);
    ValueOfLetter(c);
    ValueOfLetter(d);
    hide Letter, Value, Word, Byte2, Byte1, Byte0;
  }

  lemma ThreeBytesThere(x: Byte, y: Byte, z: Byte)
    ensures DecodeQuad(EncodeChunk([x, y, z])) == Some([x, y, z])
  {
    hide DecodeQuad, EncodeChunk, Joined, Letter, Word, Byte2, Byte1, Byte0, Sextet3, Sextet2, Sextet1, Sextet0;
    var t := Joined(x, y, z);
    EncodeThree(x, y, z);
    DecodeLetters(Sextet3(t), Sextet2(t), Sextet1(t), Sextet0(t));
    BitsThere(x, y, z);
  }

  lemma TwoBytesThere(x: Byte, y: Byte)
    ensures DecodeQuad(EncodeChunk([x, y])) == Some([x, y])
  {
    hide DecodeQuad, EncodeChunk, Joined, Letter, Word, Byte2, Byte1, Byte0, Sextet3, Sextet2, Sextet1, Sextet0;
    var t := Joined(x, y, 0);
    EncodeTwo(x, y, 0);
    DecodeLetters(Sextet3(t), Sextet2(t), Sextet1(t), Sextet0(t));
    BitsThere(x, y, 0);
    BitsOfTwo(x, y);
  }

  lemma OneByteThere(x: Byte)
    ensures DecodeQuad(EncodeChunk([x])) == Some([x])
  {
    hide DecodeQuad, EncodeChunk, Joined, Letter, Word, Byte2, Byte1, Byte0, Sextet3, Sextet2, Sextet1, Sextet0;
    var t := Joined(x, 0, 0);
    EncodeOne(x, 0, 0);
    DecodeLetters(Sextet3(t), Sextet2(t), Sextet1(t), Sextet0(t));
    BitsThere(x, 0, 0);
    BitsOfOne(x);
  }

  lemma QuadRoundTrip(chunk: Bytes)
    requires 1 <= |chunk| <= 3
    ensures DecodeQuad(EncodeChunk(chunk)) == Some(chunk)
  {
    hide DecodeQuad, EncodeChunk;
    if |chunk| == 1 {
      OneByteThere(chunk[0]);
      assert [chunk[0]] == chunk;
    } else if |chunk| == 2 {
      TwoBytesThere(chunk[0], chunk[1]);
      assert [chunk[0], chunk[1]] == chunk;
    } else {
      ThreeBytesThere(chunk[0], chunk[1], chunk[2]);
      assert [chunk[0], chunk[1], chunk[2]] == chunk;
    }
  }

  lemma LowBitsClear(a: Sextet, b: Sextet, c: Sextet)
    ensures c & 3 == 0 ==> Byte0(Word(a, b, c, 0)) == 0
    ensures b & 15 == 0 ==> Byte1(Word(a, b, 0, 0)) == 0 && Byte0(Word(a, b, 0, 0)) == 0
  {
  }

  lemma EncodeThree(x: Byte, y: Byte, z: Byte)
    ensures var t := Joined(x, y, z);
            EncodeChunk([x, y, z]) == [Letter(Sextet3(t)), Letter(Sextet2(t)), Letter(Sextet1(t)), Letter(Sextet0(t))]
  {
    hide Joined, Letter, Sextet3, Sextet2, Sextet1, Sextet0;
  }

  lemma EncodeTwo(x: Byte, y: Byte, z: Byte)
    requires z == 0
    ensures var t := Joined(x, y, z);
            EncodeChunk([x, y]) == [Letter(Sextet3(t)), Letter(Sextet2(t)), Letter(Sextet1(t)), PAD]
  {
    hide Joined, Letter, Sextet3, Sextet2, Sextet1, Sextet0;
  }

  lemma EncodeOne(x: Byte, y: Byte, z: Byte)
    requires y == 0 && z == 0
    ensures var t := Joined(x, y, z);
            EncodeChunk([x]) == [Letter(Sextet3(t)), Letter(Sextet2(t)), PAD, PAD]
  {
    hide Joined, Letter, Sextet3, Sextet2, Sextet1, Sextet0;
  }

  lemma ThreeBytesBack(a: Sextet, b: Sextet, c: Sextet, d: Sextet)
    ensures var w := Word(a, b, c, d);
            EncodeChunk([Byte2(w), Byte1(w), Byte0(w)]) == [Letter(a), Letter(b), Letter(c), Letter(d)]
  {
    hide EncodeChunk, Joined, Letter, Word, Byte2, Byte1, Byte0, Sextet3, Sextet2, Sextet1, Sextet0;
    var w := Word(a, b, c, d);
    EncodeThree(Byte2(w), Byte1(w), Byte0(w));
    BitsBack(a, b, c, d);
  }

  lemma TwoBytesBack(a: Sextet, b: Sextet, c: Sextet)
    requires c & 3 == 0
    ensures var w := Word(a, b, c, 0);
            EncodeChunk([Byte2(w), Byte1(w)]) == [Letter(a), Letter(b), Letter(c), PAD]
  {
    hide EncodeChunk, Joined, Letter, Word, Byte2, Byte1, Byte0, Sextet3, Sextet2, Sextet1, Sextet0;
    var w := Word(a, b, c, 0);
    LowBitsClear(a, b, c);
    EncodeTwo(Byte2(w), Byte1(w), Byte0(w));
    BitsBack(a, b, c, 0);
  }

  lemma OneByteBack(a: Sextet, b: Sextet)
    requires b & 15 == 0
    ensures EncodeChunk([Byte2(Word(a, b, 0, 0))]) == [Letter(a), Letter(b), PAD, PAD]
  {
    hide EncodeChunk, Joined, Letter, Word, Byte2, Byte1, Byte0, Sextet3, Sextet2, Sextet1, Sextet0;
    var w := Word(a, b, 0, 0);
    LowBitsClear(a, b, 0);
    EncodeOne(Byte2(w), Byte1(w), Byte0(w));
    BitsBack(a, b, 0, 0);
  }

  /** A group that decodes is the group its bytes are encoded as. */
  lemma QuadIsCanonical(q: string)
    requires |q| == 4 && DecodeQuad(q).Some?
    ensures 1 <= |DecodeQuad(q).value| <= 3 && EncodeChunk(DecodeQuad(q).value) == q
  {
    hide Letter, Value, Word, Byte2, Byte1, Byte0, EncodeChunk;
    LetterOfValue(q[0]);
    LetterOfValue(q[1]);
    var a, b := Value(q[0]).value, Value(q[1]).value;
    if q[3] != PAD {
      LetterOfValue(q[2]);
      LetterOfValue(q[3]);
      ThreeBytesBack(a, b, Value(q[2]).value, Value(q[3]).value);
    } else if q[2] != PAD {
      LetterOfValue(q[2]);
      TwoBytesBack(a, b, Value(q[2]).value);
    } else {
      OneByteBack(a, b);
    }
  }

  // ------------------------------------------------------------------ whole texts

  /** Whatever was encoded comes back. */
  lemma {:induction false} RoundTrip(s: Bytes)
    ensures Decode(Encode(s)) == Some(s)
  {
    hide EncodeChunk, DecodeQuad;
    if 0 < |s| <= 3 {
      QuadRoundTrip(s);
      assert EncodeChunk(s)[..4] == EncodeChunk(s);
    } else if |s| > 3 {
      QuadRoundTrip(s[..3]);
      RoundTrip(s[3..]);
      var t := Encode(s);
      assert t[..4] == EncodeChunk(s[..3]) && t[4..] == Encode(s[3..]);
      NotEmpty(s[3..]);
      assert s[..3] + s[3..] == s;
    }
  }

  lemma NotEmpty(s: Bytes)
    ensures s != [] ==> |Encode(s)| >= 4
  {
  }

  /** And nothing else decodes: a text with a decoding is the encoding of it. */
  lemma {:induction false} OnlyEncodingsDecode(t: string)
    requires Decode(t).Some?
    ensures Encode(Decode(t).value) == t
  {
    hide EncodeChunk, DecodeQuad;
    if t != "" {
      QuadIsCanonical(t[..4]);
      if |t| > 4 {
        OnlyEncodingsDecode(t[4..]);
        var first, rest := DecodeQuad(t[..4]).value, Decode(t[4..]).value;
        assert rest != [];
        assert (first + rest)[..3] == first && (first + rest)[3..] == rest;
        assert t[..4] + t[4..] == t;
      } else {
        assert t[..4] == t;
      }
    }
  }

  lemma EncodingIsInjective(s: Bytes, u: Bytes)
    requires Encode(s) == Encode(u)
    ensures s == u
  {
    RoundTrip(s);
    RoundTrip(u);
  }

  predicate IsLetter(c: char) {
    Value(c).Some?
  }

  /** How many padding characters `n` bytes need. */
  function Padding(n: nat): nat {
    if n % 3 == 0 then 0 else 3 - n % 3
  }

  /** Letters, then `padding` padding characters. */
  predicate IsPadded(t: string, padding: nat) {
    && padding <= |t|
    && (forall i :: 0 <= i < |t| - padding ==> IsLetter(t[i]))
    && (forall i :: |t| - padding <= i < |t| ==> t[i] == PAD)
  }

  /** Four characters for every three bytes begun. */
  function EncodedLength(n: nat): nat {
    (n + 2) / 3 * 4
  }

  lemma ThreeMore(n: nat)
    ensures EncodedLength(n + 3) == EncodedLength(n) + 4 && Padding(n + 3) == Padding(n)
  {
    assert (n + 3) % 3 == n % 3;
    assert (n + 3 + 2) / 3 == (n + 2) / 3 + 1;
  }

  /** As many characters as the standard says: letters, then as much padding as bytes are missing from the last
      three. */
  lemma {:induction false} ShapeOfEncoding(s: Bytes)
    ensures |Encode(s)| == EncodedLength(|s|) && IsPadded(Encode(s), Padding(|s|))
  {
    if 0 < |s| <= 3 {
      ShapeOfChunk(s);
    } else if |s| > 3 {
      hide EncodeChunk, IsLetter, IsPadded, EncodedLength, Padding;
      ThreeMore(|s| - 3);
      ShapeOfChunk(s[..3]);
      ShapeOfEncoding(s[3..]);
      PaddedFurther(EncodeChunk(s[..3]), Encode(s[3..]), Padding(|s|));
    }
  }

  lemma PaddedFurther(first: string, rest: string, padding: nat)
    requires (forall i :: 0 <= i < |first| ==> IsLetter(first[i])) && IsPadded(rest, padding)
    ensures IsPadded(first + rest, padding)
  {
    hide IsLetter;
  }

  lemma ShapeOfChunk(chunk: Bytes)
    requires 1 <= |chunk| <= 3
    ensures forall i :: 0 <= i < 1 + |chunk| ==> IsLetter(EncodeChunk(chunk)[i])
    ensures forall i :: 1 + |chunk| <= i < 4 ==> EncodeChunk(chunk)[i] == PAD
  {
    var t := Triple(chunk);
    ValueOfLetter(Sextet3(t));
    ValueOfLetter(Sextet2(t));
    ValueOfLetter(Sextet1(t));
    ValueOfLetter(Sextet0(t));
    hide Letter, Value, Triple, Sextet3, Sextet2, Sextet1, Sextet0;
  }

  // ------------------------------------------------------------------ the encoder

  /** Chunks of three bytes, the last one possibly shorter. */
  method EncodeBytes(input: Bytes) returns (out: string)
    ensures out == Encode(input)
  {
    hide Letter, Sextet3, Sextet2, Sextet1, Sextet0, Triple, EncodeChunk;
    out := "";
    var i := 0;
    while i < |input|
      invariant 0 <= i <= |input| && out + Encode(input[i..]) == Encode(input)
    {
      var chunk := input[i..if i + 3 <= |input| then i + 3 else |input|];
      OneChunk(input, i, chunk);
      var quad := PushChunk(chunk);
      out := out + quad;
      i := i + |chunk|;
    }
    assert input[i..] == [];
    assert out + "" == out;
  }

  lemma OneChunk(input: Bytes, i: nat, chunk: Bytes)
    requires i < |input| && chunk == input[i..if i + 3 <= |input| then i + 3 else |input|]
    ensures Encode(input[i..]) == EncodeChunk(chunk) + Encode(input[i + |chunk|..])
  {
    hide EncodeChunk;
    var rest := input[i..];
    if |rest| <= 3 {
      assert chunk == rest && input[i + |chunk|..] == [];
    } else {
      assert rest[..3] == chunk && rest[3..] == input[i + |chunk|..];
    }
  }

  /** The four characters of one chunk, pushed one by one. */
  method PushChunk(chunk: Bytes) returns (out: string)
    requires 1 <= |chunk| <= 3
    ensures out == EncodeChunk(chunk)
  {
    hide Letter, Sextet3, Sextet2, Sextet1, Sextet0, Triple;
    out := "";
    var triple := Triple(chunk);
    out := out + [Letter(Sextet3(triple))];
    out := out + [Letter(Sextet2(triple))];
    if |chunk| > 1 {
      out := out + [Letter(Sextet1(triple))];
    } else {
      out := out + [PAD];
    }
    if |chunk| > 2 {
      out := out + [Letter(Sextet0(triple))];
    } else {
      out := out + [PAD];
    }
  }
}
