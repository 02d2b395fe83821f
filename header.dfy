/** The head of every CBOR data item (section 3 of RFC 8949): an initial byte holding a 3-bit
    major type and 5 bits of additional information, followed by 0, 1, 2, 4 or 8 bytes of
    big-endian argument (section 3.1 of RFC 8949). */
module Header {
  import opened Binary

  /** Encoder.getAdditionalInformation: the argument itself below 24, otherwise the code of the
      narrowest follow-on width that holds it. */
  function AdditionalInformation(arg: nat): (r: nat)
    ensures arg < 24 ==> r == arg
    ensures 24 <= arg < 0x100 ==> r == 24
    ensures 0x100 <= arg < 0x1_0000 ==> r == 25
    ensures 0x1_0000 <= arg < 0x1_0000_0000 ==> r == 26
    ensures 0x1_0000_0000 <= arg ==> r == 27
    ensures r < 28
  {
    if arg < 24 then arg
    else if arg < 0x100 then 24
    else if arg < 0x1_0000 then 25
    else if arg < 0x1_0000_0000 then 26
    else 27
  }

  /** Number of argument bytes that follow an initial byte with this additional information. */
  function ArgumentSize(ai: nat): (r: nat)
    ensures r in {0, 1, 2, 4, 8}
    ensures 24 <= ai <= 27 <==> r > 0
  {
    if ai == 24 then 1 else if ai == 25 then 2 else if ai == 26 then 4 else if ai == 27 then 8 else 0
  }

  /** The initial byte `(major << 5) | ai`. */
  function InitialByte(major: nat, ai: nat): (r: byte)
    requires major < 8 && ai < 32
  {
    major * 32 + ai
  }

  /** The initial byte splits back into its major type (`initialByte >> 5`) and additional
      information (`initialByte & 0x1f`), and every byte is the initial byte of its two parts. */
  lemma SplitInitialByte(major: nat, ai: nat, b: byte)
    requires major < 8 && ai < 32
    ensures InitialByte(major, ai) / 32 == major && InitialByte(major, ai) % 32 == ai
    ensures InitialByte(b / 32, b % 32) == b
  {
  }

  /** Encoder.encodeTypeAndArgument: the initial byte, then the argument in the width its
      additional information names (setUint8/16/32, setBigUint64, all big-endian). */
  function Encode(major: nat, arg: nat): (r: seq<byte>)
    requires major < 8
  {
    var ai := AdditionalInformation(arg);
    [major * 32 + ai] + BigEndian(arg, ArgumentSize(ai))
  }

  /** The header is the initial byte for (major, ai) followed by exactly 0/1/2/4/8 argument
      bytes, which read back as the argument when it fits in 64 bits. */
  lemma EncodeShape(major: nat, arg: nat)
    requires major < 8 && arg < 0x1_0000_0000_0000_0000
    ensures var h := Encode(major, arg); var ai := AdditionalInformation(arg);
      |h| == 1 + ArgumentSize(ai) && |h| in {1, 2, 3, 5, 9}
      && h[0] / 32 == major && h[0] % 32 == ai
      && (ai < 24 ==> ai == arg)
      && (ai >= 24 ==> FromBigEndian(h[1..]) == arg)
  {
    var h := Encode(major, arg);
    var ai := AdditionalInformation(arg);
    assert h[1..] == BigEndian(arg, ArgumentSize(ai));
    if ai >= 24 {
      assert Pow256(1) == 0x100 && Pow256(2) == 0x1_0000;
      assert Pow256(4) == 0x1_0000_0000 && Pow256(8) == 0x1_0000_0000_0000_0000;
      FromToBigEndian(arg, ArgumentSize(ai));
    }
  }

  /** The chosen width is the narrowest that holds the argument (preferred serialization,
      section 4.2.1 of RFC 8949): a direct argument is never spilled into a follow-on byte,
      and no follow-on is wider than needed. */
  lemma ShortestForm(arg: nat)
    ensures var ai := AdditionalInformation(arg);
      (ai < 24 <==> arg < 24)
      && (ai == 25 ==> arg >= Pow256(1))
      && (ai == 26 ==> arg >= Pow256(2))
      && (ai == 27 ==> arg >= Pow256(4))
  {
    assert Pow256(1) == 0x100 && Pow256(2) == 0x1_0000 && Pow256(4) == 0x1_0000_0000;
  }

  /** Examples from Appendix A of RFC 8949: 23 fits in the initial byte, 24 takes one
      follow-on byte, and −100 is major type 1 with argument 99. */
  lemma AppendixSmallExamples()
    ensures Encode(0, 23) == [0x17] && Encode(0, 24) == [0x18, 0x18]
    ensures Encode(1, 99) == [0x38, 0x63]
  {
  }

  /** Appendix A of RFC 8949: 1000 is 19 03 e8. */
  lemma AppendixThousand(n: nat)
    requires n == 1000
    ensures Encode(0, n) == [0x19, 0x03, 0xE8]
  {
    assert AdditionalInformation(n) == 25;
    assert BigEndian(n, 2) == BigEndian(3, 1) + [0xE8];
  }

  /** Appendix A of RFC 8949: 10^12 is 1b 00 00 00 e8 d4 a5 10 00. */
  lemma AppendixTrillion(n: nat)
    requires n == 1_000_000_000_000
    ensures Encode(0, n) == [0x1B, 0x00, 0x00, 0x00, 0xE8, 0xD4, 0xA5, 0x10, 0x00]
  {
    assert AdditionalInformation(n) == 27;
    var n1, n2, n3, n4 := n / 256, n / 256 / 256, n / 256 / 256 / 256, n / 256 / 256 / 256 / 256;
    assert n % 256 == 0 && n1 % 256 == 0x10 && n2 % 256 == 0xA5 && n3 % 256 == 0xD4;
    assert n4 == 0xE8;
    BigEndianStep(n, 8);
    BigEndianStep(n1, 7);
    BigEndianStep(n2, 6);
    BigEndianStep(n3, 5);
    BigEndianStep(n4, 4);
    assert BigEndian(n4 / 256, 3) == [0, 0, 0];
  }

  /** The last byte of a big-endian form is the value modulo 256. */
  lemma BigEndianStep(n: nat, width: nat)
    requires width > 0
    ensures BigEndian(n, width) == BigEndian(n / 256, width - 1) + [n % 256]
  {
  }
}
