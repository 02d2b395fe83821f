/** The key order section 4.2.1 of RFC 8949 asks of deterministically encoded maps: keys
    sorted by the bytewise lexicographic order of their encodings. For text keys this is
    "shorter UTF-8 form first, then the UTF-8 bytes", which is what compareKeys meant to
    compute (it measures and compares UTF-16 code units instead; see
    Encoding.AdversarialKeys). */
module KeyOrder {
  import opened Binary
  import opened Values
  import Header
  import Unicode
  import Encoding
  import RoundTrip

  /** The corrected compareKeys: fewer UTF-8 bytes first, then the UTF-8 bytes compared
      lexicographically. */
  predicate ByteKeyLess(a: string, b: string)
  {
    var ea, eb := Unicode.Encode(a), Unicode.Encode(b);
    |ea| < |eb| || (|ea| == |eb| && LexLess(ea, eb))
  }

  /** A common prefix does not decide the order. */
  lemma {:induction false} LexLessCommonPrefix(h: seq<int>, x: seq<int>, y: seq<int>)
    ensures LexLess(h + x, h + y) <==> LexLess(x, y)
  {
    if h == [] {
      assert h + x == x && h + y == y;
    } else {
      assert (h + x)[1..] == h[1..] + x && (h + y)[1..] == h[1..] + y;
      LexLessCommonPrefix(h[1..], x, y);
    }
  }

  /** Of two sequences of the same length, the smaller stays smaller whatever follows them. */
  lemma {:induction false} LexLessExtend(a: seq<int>, b: seq<int>, x: seq<int>, y: seq<int>)
    requires |a| == |b| && LexLess(a, b)
    ensures LexLess(a + x, b + y)
  {
    assert a != [];
    assert (a + x)[0] == a[0] && (b + y)[0] == b[0];
    if a[0] == b[0] {
      assert (a + x)[1..] == a[1..] + x && (b + y)[1..] == b[1..] + y;
      LexLessExtend(a[1..], b[1..], x, y);
    }
  }

  lemma LexLessAsymmetric(a: seq<int>, b: seq<int>)
    requires LexLess(a, b)
    ensures !LexLess(b, a)
  {
    if LexLess(b, a) {
      LexLessTransitive(a, b, a);
      LexLessIrreflexive(a);
    }
  }

  /** Big-endian numbers of one width compare bytewise as they compare as numbers. */
  lemma {:induction false} BigEndianOrder(n: nat, m: nat, width: nat)
    requires n < m < Pow256(width)
    ensures LexLess(BigEndian(n, width), BigEndian(m, width))
  {
    var qn, qm := n / 256, m / 256;
    var pn, pm := BigEndian(qn, width - 1), BigEndian(qm, width - 1);
    assert BigEndian(n, width) == pn + [n % 256] && BigEndian(m, width) == pm + [m % 256];
    if qn < qm {
      BigEndianOrder(qn, qm, width - 1);
      LexLessExtend(pn, pm, [n % 256], [m % 256]);
    } else {
      assert LexLess([n % 256], [m % 256]);
      LexLessCommonPrefix(pn, [n % 256], [m % 256]);
    }
  }

  /** Heads of one major type compare bytewise as their arguments compare, whatever follows
      them: a larger argument has a larger additional information, or the same one and a
      larger big-endian argument. */
  lemma HeaderOrder(major: nat, n: nat, m: nat, x: seq<byte>, y: seq<byte>)
    requires major < 8 && n < m < 0x1_0000_0000_0000_0000
    ensures LexLess(Header.Encode(major, n) + x, Header.Encode(major, m) + y)
  {
    var ain, aim := Header.AdditionalInformation(n), Header.AdditionalInformation(m);
    var hn, hm := Header.Encode(major, n), Header.Encode(major, m);
    assert (hn + x)[0] == major * 32 + ain && (hm + y)[0] == major * 32 + aim;
    if ain == aim {
      var size := Header.ArgumentSize(ain);
      assert Pow256(1) == 0x100 && Pow256(2) == 0x1_0000;
      assert Pow256(4) == 0x1_0000_0000 && Pow256(8) == 0x1_0000_0000_0000_0000;
      var bn, bm := BigEndian(n, size), BigEndian(m, size);
      BigEndianOrder(n, m, size);
      LexLessExtend(bn, bm, x, y);
      var b := [major * 32 + ain];
      assert hn + x == b + (bn + x) && hm + y == b + (bm + y);
      LexLessCommonPrefix(b, bn + x, bm + y);
    }
  }

  /** The corrected order is the bytewise order of the encoded keys, in both directions. */
  lemma ByteKeyOrder(a: string, b: string)
    requires ValidText(a) && ValidText(b)
    ensures ByteKeyLess(a, b) <==> LexLess(Encoding.EncodeText(a), Encoding.EncodeText(b))
  {
    var ea, eb := Unicode.Encode(a), Unicode.Encode(b);
    RoundTrip.TextHead(a);
    RoundTrip.TextHead(b);
    var ta, tb := Encoding.EncodeText(a), Encoding.EncodeText(b);
    assert ta == Header.Encode(3, |ea|) + ea && tb == Header.Encode(3, |eb|) + eb;
    if |ea| < |eb| {
      HeaderOrder(3, |ea|, |eb|, ea, eb);
    } else if |eb| < |ea| {
      HeaderOrder(3, |eb|, |ea|, eb, ea);
      LexLessAsymmetric(tb, ta);
    } else {
      LexLessCommonPrefix(Header.Encode(3, |ea|), ea, eb);
    }
  }

  /** Keys listed in the corrected order have their encodings in strictly increasing bytewise
      order, as section 4.2.1 of RFC 8949 asks of a map's keys. */
  lemma ByteSortedEncodings(ks: seq<string>)
    requires forall k :: 0 <= k < |ks| ==> ValidText(ks[k])
    requires forall i, j :: 0 <= i < j < |ks| ==> ByteKeyLess(ks[i], ks[j])
    ensures forall i, j :: 0 <= i < j < |ks| ==>
      LexLess(Encoding.EncodeText(ks[i]), Encoding.EncodeText(ks[j]))
  {
    forall i, j | 0 <= i < j < |ks|
      ensures LexLess(Encoding.EncodeText(ks[i]), Encoding.EncodeText(ks[j]))
    {
      ByteKeyOrder(ks[i], ks[j]);
    }
  }

  /** The corrected order is a strict total order on strings, so sorting by it is
      deterministic. */
  lemma ByteKeyLessIsStrictTotalOrder(a: string, b: string, c: string)
    ensures !ByteKeyLess(a, a)
    ensures ByteKeyLess(a, b) && ByteKeyLess(b, c) ==> ByteKeyLess(a, c)
    ensures a != b ==> ByteKeyLess(a, b) || ByteKeyLess(b, a)
  {
    var ea, eb, ec := Unicode.Encode(a), Unicode.Encode(b), Unicode.Encode(c);
    LexLessIrreflexive(ea);
    if ByteKeyLess(a, b) && ByteKeyLess(b, c) && |ea| == |eb| == |ec| {
      LexLessTransitive(ea, eb, ec);
    }
    if a != b && ea == eb {
      Unicode.DecodeEncode(a);
      Unicode.DecodeEncode(b);
    } else if a != b {
      LexLessTotal(ea, eb);
    }
  }

  /** The adversarial keys of the test suite in the corrected order: "\U{FB01}a" (EF AC 81 61)
      before "\U{1F44D}" (F0 9F 91 8D), the reverse of what compareKeys gives. */
  lemma AdversarialKeysBytewise()
    ensures ByteKeyLess("\U{FB01}a", "\U{1F44D}")
    ensures !KeyLess("\U{FB01}a", "\U{1F44D}")
  {
    Encoding.AdversarialKeys();
    assert Unicode.Encode("\U{FB01}a") == [0xEF, 0xAC, 0x81, 0x61];
    assert Unicode.Encode("\U{1F44D}") == [0xF0, 0x9F, 0x91, 0x8D];
    KeyLessIsStrictTotalOrder("\U{1F44D}", "\U{FB01}a", "\U{1F44D}");
  }
}
