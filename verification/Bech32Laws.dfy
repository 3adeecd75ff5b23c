/**
 What a Bech32 text is, written out: the alphabet, and the shortest text there is.
 */
module Bech32Laws {
  import opened Bech32

  /** The values from 0 to 31 are spelled "qpzry9x8", "gf2tvdw0", "s3jn54kh", "ce6mua7l". */
  lemma {:induction false} Alphabet()
    ensures Spelled([0, 1, 2, 3, 4, 5, 6, 7]) == [0x71, 0x70, 0x7a, 0x72, 0x79, 0x39, 0x78, 0x38]
    ensures Spelled([8, 9, 10, 11, 12, 13, 14, 15]) == [0x67, 0x66, 0x32, 0x74, 0x76, 0x64, 0x77, 0x30]
    ensures Spelled([16, 17, 18, 19, 20, 21, 22, 23]) == [0x73, 0x33, 0x6a, 0x6e, 0x35, 0x34, 0x6b, 0x68]
    ensures Spelled([24, 25, 26, 27, 28, 29, 30, 31]) == [0x63, 0x65, 0x36, 0x6d, 0x75, 0x61, 0x37, 0x6c]
  {
    hide Charset;
    Letters0();
    Eight(0);
    Letters1();
    Eight(8);
    Letters2();
    Eight(16);
    Letters3();
    Eight(24);
  }

  lemma Eight(v: bv8)
    requires v <= 24
    ensures Spelled([v, v + 1, v + 2, v + 3, v + 4, v + 5, v + 6, v + 7]) ==
      [Charset(v), Charset(v + 1), Charset(v + 2), Charset(v + 3), Charset(v + 4), Charset(v + 5), Charset(v + 6), Charset(v + 7)]
  {
    hide Charset;
  }

  lemma Letters0()
    ensures Charset(0) == 0x71 && Charset(1) == 0x70 && Charset(2) == 0x7a && Charset(3) == 0x72 && Charset(4) == 0x79 && Charset(5) == 0x39 && Charset(6) == 0x78 && Charset(7) == 0x38
  {
  }

  lemma Letters1()
    ensures Charset(8) == 0x67 && Charset(9) == 0x66 && Charset(10) == 0x32 && Charset(11) == 0x74 && Charset(12) == 0x76 && Charset(13) == 0x64 && Charset(14) == 0x77 && Charset(15) == 0x30
  {
  }

  lemma Letters2()
    ensures Charset(16) == 0x73 && Charset(17) == 0x33 && Charset(18) == 0x6a && Charset(19) == 0x6e && Charset(20) == 0x35 && Charset(21) == 0x34 && Charset(22) == 0x6b && Charset(23) == 0x68
  {
  }

  lemma Letters3()
    ensures Charset(24) == 0x63 && Charset(25) == 0x65 && Charset(26) == 0x36 && Charset(27) == 0x6d && Charset(28) == 0x75 && Charset(29) == 0x61 && Charset(30) == 0x37 && Charset(31) == 0x6c
  {
  }

  /** A character stands for a value exactly if it is the value's own in lower or upper case. */
  lemma ValueOf(v: bv8, c: bv8)
    requires v < 32
    ensures CharsetRev(c) == v <==> LowerCase(c) == Charset(v)
  {
    hide Charset, CharsetRev, LowerCase;
    CharsetInverse(v);
    Small(v);
    CaseBlind(c);
    if CharsetRev(c) != NOT_IN_CHARSET { CharsetSurjective(c); }
  }

  lemma CaseBlind(c: bv8)
    ensures CharsetRev(LowerCase(c)) == CharsetRev(c)
  {
    hide CharsetRev;
    if c < 0x41 || c > 0x5a {
    } else if c <= 0x46 { Case0(c); }
    else if c <= 0x4c { Case1(c); }
    else if c <= 0x52 { Case2(c); }
    else { Case3(c); }
  }

  lemma Case0(c: bv8)
    requires 0x41 <= c <= 0x46
    ensures CharsetRev(LowerCase(c)) == CharsetRev(c)
  {
  }

  lemma Case1(c: bv8)
    requires 0x47 <= c <= 0x4c
    ensures CharsetRev(LowerCase(c)) == CharsetRev(c)
  {
  }

  lemma Case2(c: bv8)
    requires 0x4d <= c <= 0x52
    ensures CharsetRev(LowerCase(c)) == CharsetRev(c)
  {
  }

  lemma Case3(c: bv8)
    requires 0x53 <= c <= 0x5a
    ensures CharsetRev(LowerCase(c)) == CharsetRev(c)
  {
  }

  /** The shortest text there is, "a12uel5l", and its upper-case form stand for the prefix "a" with no data. */
  lemma {:induction false} Shortest()
    ensures Encoded([0x61], []) == [0x61, 0x31, 0x32, 0x75, 0x65, 0x6c, 0x35, 0x6c]
    ensures Decoded([0x61, 0x31, 0x32, 0x75, 0x65, 0x6c, 0x35, 0x6c]) == ([0x61], [])
  {
    hide Charset, PolyMod, Unpacked, Expanded, Decoded, Accepted;
    ShortestPrefix();
    ShortestRemainder();
    ShortestChecksum();
    RoundTrip([0x61], []);
    Printable();
    assert Checksum([0x61], []) == [10, 28, 25, 31, 20, 31];
    Letters1();
    Letters2();
    Letters3();
    var none: Octets := [];
    assert none + Checksum([0x61], none) == Checksum([0x61], none);
    var s := Spelled([10, 28, 25, 31, 20, 31]);
    assert s == [Charset(10), Charset(28), Charset(25), Charset(31), Charset(20), Charset(31)];
  }

  lemma Printable()
    ensures Encodable([0x61], []) && All5Bit([])
  {
  }

  lemma ShortestPrefix()
    ensures Expanded([0x61]) == [3, 0, 1]
  {
    ExpandedAt([0x61], 0);
  }

  lemma ShortestRemainder()
    ensures PolyMod([3, 0, 1] + [] + SIX_ZEROS) == 0x15cc_fe9e
  {
    hide PolyStep, Poly;
    ShortestSteps();
    var v9: Octets := [];
    var v8: Octets := [0] + v9;
    var v7: Octets := [0] + v8;
    var v6: Octets := [0] + v7;
    var v5: Octets := [0] + v6;
    var v4: Octets := [0] + v5;
    var v3: Octets := [0] + v4;
    var v2: Octets := [1] + v3;
    var v1: Octets := [0] + v2;
    var v0: Octets := [3] + v1;
    var whole: Octets := [3, 0, 1] + [] + SIX_ZEROS;
    assert whole == v0;
    NextValue(0x1, 3, v1);
    NextValue(0x23, 0, v2);
    NextValue(0x460, 1, v3);
    NextValue(0x8c01, 0, v4);
    NextValue(0x11_8020, 0, v5);
    NextValue(0x230_0400, 0, v6);
    NextValue(0x3d6a_d7b2, 0, v7);
    NextValue(0x2fd_30b9, 0, v8);
    NextValue(0x24cc_4092, 0, v9);
    NoMore(0x15cc_fe9e);
  }

  lemma NextValue(c: bv32, v: bv8, rest: Octets)
    ensures Poly(c, [v] + rest) == Poly(PolyStep(c, v), rest)
  {
    hide PolyStep;
    assert ([v] + rest)[1..] == rest;
  }

  lemma NoMore(c: bv32)
    ensures Poly(c, []) == c
  {
  }

  lemma ShortestSteps()
    ensures PolyStep(0x1, 3) == 0x23 && PolyStep(0x23, 0) == 0x460 && PolyStep(0x460, 1) == 0x8c01
    ensures PolyStep(0x8c01, 0) == 0x11_8020 && PolyStep(0x11_8020, 0) == 0x230_0400 && PolyStep(0x230_0400, 0) == 0x3d6a_d7b2
    ensures PolyStep(0x3d6a_d7b2, 0) == 0x2fd_30b9 && PolyStep(0x2fd_30b9, 0) == 0x24cc_4092 && PolyStep(0x24cc_4092, 0) == 0x15cc_fe9e
  {
  }

  lemma ShortestChecksum()
    ensures Unpacked(Flipped(0x15cc_fe9e)) == [10, 28, 25, 31, 20, 31]
  {
  }
}
