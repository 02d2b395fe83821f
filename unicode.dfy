/** Text as the codec sees it. A JavaScript string is modelled as a sequence of Unicode scalar
    values (Dafny's `char`); the encoder turns it into UTF-8 as TextEncoder does (RFC 3629
    section 3), the decoders turn UTF-8 back into text as TextDecoder does (replacing ill-formed
    input by U+FFFD), and key ordering looks at the UTF-16 code units JavaScript stores. */
module Unicode {
  import opened Binary

  /** The UTF-8 form of one scalar value. */
  function EncodeScalar(c: char): (r: seq<byte>)
    ensures 1 <= |r| <= 4
  {
    var n := c as int;
    if n < 0x80 then [n]
    else if n < 0x800 then [0xC0 + n / 64, 0x80 + n % 64]
    else if n < 0x10000 then [0xE0 + n / 4096, 0x80 + n / 64 % 64, 0x80 + n % 64]
    else [0xF0 + n / 0x40000, 0x80 + n / 4096 % 64, 0x80 + n / 64 % 64, 0x80 + n % 64]
  }

  /** The UTF-8 form of a string (TextEncoder.encode). */
  function Encode(s: string): (r: seq<byte>)
  {
    if s == [] then [] else EncodeScalar(s[0]) + Encode(s[1..])
  }

  /** Number of UTF-8 bytes one scalar value needs. */
  function ScalarByteLength(c: char): nat
  {
    if c as int < 0x80 then 1 else if c as int < 0x800 then 2 else if c as int < 0x10000 then 3 else 4
  }

  /** The UTF-8 byte length of a string, counted without encoding it (getByteLength). */
  function ByteLength(s: string): (r: nat)
    ensures r == |Encode(s)|
  {
    if s == [] then 0 else ScalarByteLength(s[0]) + ByteLength(s[1..])
  }

  lemma {:induction false} EncodeConcat(a: string, b: string)
    ensures Encode(a + b) == Encode(a) + Encode(b)
  {
    if a == [] {
      assert a + b == b;
    } else {
      assert (a + b)[0] == a[0] && (a + b)[1..] == a[1..] + b;
      EncodeConcat(a[1..], b);
    }
  }

  /** The character TextDecoder substitutes for ill-formed input. */
  const Replacement: char := '\U{FFFD}'

  /** One step of the UTF-8 decoder of the WHATWG Encoding standard: the scalar value at the
      front of `b` and the number of bytes it takes. An ill-formed sequence gives U+FFFD and
      consumes its longest well-formed prefix, at least one byte; a sequence cut short by the
      end of input gives one U+FFFD for all of it. */
  function DecodeStep(b: seq<byte>): (r: (char, nat))
    requires |b| > 0
    ensures 1 <= r.1 <= |b|
  {
    var b0: int := b[0];
    if b0 < 0x80 then (b0 as char, 1)
    else if 0xC2 <= b0 <= 0xDF then
      if |b| < 2 || !(0x80 <= b[1] <= 0xBF) then (Replacement, 1)
      else (((b0 - 0xC0) * 64 + (b[1] as int - 0x80)) as char, 2)
    else if 0xE0 <= b0 <= 0xEF then
      var lo := if b0 == 0xE0 then 0xA0 else 0x80;
      var hi := if b0 == 0xED then 0x9F else 0xBF;
      if |b| < 2 || !(lo <= b[1] <= hi) then (Replacement, 1)
      else if |b| < 3 || !(0x80 <= b[2] <= 0xBF) then (Replacement, 2)
      else (((b0 - 0xE0) * 4096 + (b[1] as int - 0x80) * 64 + (b[2] as int - 0x80)) as char, 3)
    else if 0xF0 <= b0 <= 0xF4 then
      var lo := if b0 == 0xF0 then 0x90 else 0x80;
      var hi := if b0 == 0xF4 then 0x8F else 0xBF;
      if |b| < 2 || !(lo <= b[1] <= hi) then (Replacement, 1)
      else if |b| < 3 || !(0x80 <= b[2] <= 0xBF) then (Replacement, 2)
      else if |b| < 4 || !(0x80 <= b[3] <= 0xBF) then (Replacement, 3)
      else (((b0 - 0xF0) * 0x40000 + (b[1] as int - 0x80) * 4096 + (b[2] as int - 0x80) * 64
             + (b[3] as int - 0x80)) as char, 4)
    else (Replacement, 1)
  }

  /** UTF-8 decoding with replacement, without TextDecoder's removal of a leading byte order
      mark. This is the decoding the codec needs for text to round-trip (see TextDecoderDecode). */
  function Decode(b: seq<byte>): (r: string)
    decreases |b|
  {
    if b == [] then [] else
      var (c, n) := DecodeStep(b);
      [c] + Decode(b[n..])
  }

  /** A string with one leading U+FEFF (byte order mark) removed, if it has one. */
  function DropByteOrderMark(s: string): (r: string)
  {
    if |s| > 0 && s[0] == '\U{FEFF}' then s[1..] else s
  }

  /** What `new TextDecoder().decode(b)` returns: the default decoder (ignoreBOM false)
      also drops a leading U+FEFF. */
  function TextDecoderDecode(b: seq<byte>): (r: string)
  {
    DropByteOrderMark(Decode(b))
  }

  /** Decoding the UTF-8 form of a scalar value, followed by anything, gives that value back. */
  lemma DecodeStepEncodeScalar(c: char, rest: seq<byte>)
    ensures DecodeStep(EncodeScalar(c) + rest) == (c, |EncodeScalar(c)|)
  {
    var n := c as int;
    if n < 0x80 {
    } else if n < 0x800 {
      DecodeTwoBytes(c, rest);
    } else if n < 0x10000 {
      DecodeThreeBytes(c, rest);
    } else {
      DecodeFourBytes(c, rest);
    }
  }

  lemma DecodeTwoBytes(c: char, rest: seq<byte>)
    requires 0x80 <= c as int < 0x800
    ensures DecodeStep(EncodeScalar(c) + rest) == (c, 2)
  {
    var n := c as int;
    var b := EncodeScalar(c) + rest;
    var x0, x1 := n / 64, n % 64;
    assert n == x0 * 64 + x1;
    assert b[0] == 0xC0 + x0 && b[1] == 0x80 + x1;
    assert (b[0] as int - 0xC0) * 64 + (b[1] as int - 0x80) == n;
  }

  lemma DecodeThreeBytes(c: char, rest: seq<byte>)
    requires 0x800 <= c as int < 0x10000
    ensures DecodeStep(EncodeScalar(c) + rest) == (c, 3)
  {
    var n := c as int;
    var b := EncodeScalar(c) + rest;
    var x0, x1, x2 := n / 4096, n / 64 % 64, n % 64;
    assert n == x0 * 4096 + x1 * 64 + x2;
    assert b[0] == 0xE0 + x0 && b[1] == 0x80 + x1 && b[2] == 0x80 + x2;
    assert x0 == 0 ==> x1 >= 32;
    assert x0 == 13 ==> x1 < 32;
    assert (b[0] as int - 0xE0) * 4096 + (b[1] as int - 0x80) * 64 + (b[2] as int - 0x80) == n;
  }

  lemma DecodeFourBytes(c: char, rest: seq<byte>)
    requires 0x10000 <= c as int
    ensures DecodeStep(EncodeScalar(c) + rest) == (c, 4)
  {
    var n := c as int;
    var b := EncodeScalar(c) + rest;
    var x0, x1, x2, x3 := n / 0x40000, n / 4096 % 64, n / 64 % 64, n % 64;
    FourDigits(n, x0, x1, x2, x3);
    assert b[0] == 0xF0 + x0 && b[1] == 0x80 + x1 && b[2] == 0x80 + x2 && b[3] == 0x80 + x3;
  }

  /** The base-64 digits of a supplementary code point, as the four-byte UTF-8 form splits it. */
  lemma FourDigits(n: int, x0: int, x1: int, x2: int, x3: int)
    requires 0x10000 <= n < 0x11_0000
    requires x0 == n / 0x40000 && x1 == n / 4096 % 64 && x2 == n / 64 % 64 && x3 == n % 64
    ensures n == x0 * 0x40000 + x1 * 4096 + x2 * 64 + x3
    ensures 0 <= x0 <= 4 && 0 <= x1 < 64 && 0 <= x2 < 64 && 0 <= x3 < 64
    ensures x0 == 0 ==> x1 >= 16
    ensures x0 == 4 ==> x1 < 16
  {
    var q := n / 64;
    assert n == q * 64 + x3;
    var r := q / 64;
    assert q == r * 64 + x2;
    assert r == n / 4096;
    assert r == x0 * 64 + x1;
  }

  /** UTF-8 decoding undoes UTF-8 encoding. */
  lemma {:induction false} DecodeEncode(s: string)
    ensures Decode(Encode(s)) == s
  {
    if s != [] {
      var e := EncodeScalar(s[0]);
      DecodeStepEncodeScalar(s[0], Encode(s[1..]));
      assert (e + Encode(s[1..]))[|e|..] == Encode(s[1..]);
      DecodeEncode(s[1..]);
    }
  }

  /** The byte order mark is lost by the default TextDecoder: U+FEFF encodes to EF BB BF and
      decodes to the empty string. */
  lemma TextDecoderDropsByteOrderMark()
    ensures Encode("\U{FEFF}") == [0xEF, 0xBB, 0xBF]
    ensures TextDecoderDecode(Encode("\U{FEFF}")) == ""
  {
    DecodeEncode("\U{FEFF}");
  }

  /** The default TextDecoder gives back the encoded text except for a leading byte order
      mark, which it drops. */
  lemma TextDecoderDecodeEncode(s: string)
    ensures TextDecoderDecode(Encode(s)) == DropByteOrderMark(s)
    ensures |s| == 0 || s[0] != '\U{FEFF}' ==> TextDecoderDecode(Encode(s)) == s
  {
    DecodeEncode(s);
  }

  /** The UTF-16 code units JavaScript stores for one scalar value. */
  function CodeUnits(c: char): (r: seq<int>)
    ensures 1 <= |r| <= 2
  {
    var n := c as int;
    if n < 0x10000 then [n] else [0xD800 + (n - 0x10000) / 1024, 0xDC00 + (n - 0x10000) % 1024]
  }

  /** The UTF-16 code units of a string: what `.length`, `<` and `[i]` see in JavaScript. */
  function Utf16(s: string): (r: seq<int>)
  {
    if s == [] then [] else CodeUnits(s[0]) + Utf16(s[1..])
  }

  /** Different strings have different UTF-16 forms. */
  lemma {:induction false} Utf16Injective(a: string, b: string)
    requires Utf16(a) == Utf16(b)
    ensures a == b
  {
    if a != [] && b != [] {
      var ua, ub := CodeUnits(a[0]), CodeUnits(b[0]);
      var na, nb := a[0] as int, b[0] as int;
      assert Utf16(a)[0] == ua[0] && Utf16(b)[0] == ub[0];
      if na < 0x10000 && nb >= 0x10000 {
        assert false;
      } else if nb < 0x10000 && na >= 0x10000 {
        assert false;
      } else if na >= 0x10000 {
        assert Utf16(a)[1] == ua[1] && Utf16(b)[1] == ub[1];
      }
      assert ua == ub;
      assert Utf16(a)[|ua|..] == Utf16(a[1..]);
      assert Utf16(b)[|ub|..] == Utf16(b[1..]);
      Utf16Injective(a[1..], b[1..]);
      assert a == [a[0]] + a[1..] && b == [b[0]] + b[1..];
    }
  }

  /** A string takes at most three UTF-8 bytes per UTF-16 code unit: one to three bytes for a
      character JavaScript stores in one unit, four for one it stores as a surrogate pair. */
  lemma {:induction false} ByteLengthBound(s: string)
    ensures |Encode(s)| <= 3 * |Utf16(s)|
  {
    if s != [] {
      ByteLengthBound(s[1..]);
    }
  }

  /** A string has at most two UTF-16 code units per character. */
  lemma {:induction false} Utf16LengthBound(s: string)
    ensures |Utf16(s)| <= 2 * |s|
  {
    if s != [] {
      Utf16LengthBound(s[1..]);
    }
  }
}
