/**
 Bech32 (BIP 173): the checksum as arithmetic on bit vectors, and the encoding.
 Characters are bytes.
 */
module Bech32 {

  type Octets = seq<bv8>

  const SEPARATOR: bv8 := 0x31

  /** What the reverse table holds for a character outside the character set (minus one in a signed byte). */
  const NOT_IN_CHARSET: bv8 := 0xff

  /** The character for a 5-bit value. */
  function Charset(v: bv8): bv8 {
    if v == 0 then 0x71 else if v == 1 then 0x70 else if v == 2 then 0x7a else if v == 3 then 0x72 else
    if v == 4 then 0x79 else if v == 5 then 0x39 else if v == 6 then 0x78 else if v == 7 then 0x38 else
    if v == 8 then 0x67 else if v == 9 then 0x66 else if v == 10 then 0x32 else if v == 11 then 0x74 else
    if v == 12 then 0x76 else if v == 13 then 0x64 else if v == 14 then 0x77 else if v == 15 then 0x30 else
    if v == 16 then 0x73 else if v == 17 then 0x33 else if v == 18 then 0x6a else if v == 19 then 0x6e else
    if v == 20 then 0x35 else if v == 21 then 0x34 else if v == 22 then 0x6b else if v == 23 then 0x68 else
    if v == 24 then 0x63 else if v == 25 then 0x65 else if v == 26 then 0x36 else if v == 27 then 0x6d else
    if v == 28 then 0x75 else if v == 29 then 0x61 else if v == 30 then 0x37 else 0x6c
  }

  /** The 5-bit value of a character in either case, or NOT_IN_CHARSET. */
  function CharsetRev(c: bv8): bv8 {
    if c == 0x30 then 15 else if c == 0x32 then 10 else if c == 0x33 then 17 else if c == 0x34 then 21 else
    if c == 0x35 then 20 else if c == 0x36 then 26 else if c == 0x37 then 30 else if c == 0x38 then 7 else
    if c == 0x39 then 5 else if c == 0x41 then 29 else if c == 0x43 then 24 else if c == 0x44 then 13 else
    if c == 0x45 then 25 else if c == 0x46 then 9 else if c == 0x47 then 8 else if c == 0x48 then 23 else
    if c == 0x4a then 18 else if c == 0x4b then 22 else if c == 0x4c then 31 else if c == 0x4d then 27 else
    if c == 0x4e then 19 else if c == 0x50 then 1 else if c == 0x51 then 0 else if c == 0x52 then 3 else
    if c == 0x53 then 16 else if c == 0x54 then 11 else if c == 0x55 then 28 else if c == 0x56 then 12 else
    if c == 0x57 then 14 else if c == 0x58 then 6 else if c == 0x59 then 4 else if c == 0x5a then 2 else
    if c == 0x61 then 29 else if c == 0x63 then 24 else if c == 0x64 then 13 else if c == 0x65 then 25 else
    if c == 0x66 then 9 else if c == 0x67 then 8 else if c == 0x68 then 23 else if c == 0x6a then 18 else
    if c == 0x6b then 22 else if c == 0x6c then 31 else if c == 0x6d then 27 else if c == 0x6e then 19 else
    if c == 0x70 then 1 else if c == 0x71 then 0 else if c == 0x72 then 3 else if c == 0x73 then 16 else
    if c == 0x74 then 11 else if c == 0x75 then 28 else if c == 0x76 then 12 else if c == 0x77 then 14 else
    if c == 0x78 then 6 else if c == 0x79 then 4 else if c == 0x7a then 2 else NOT_IN_CHARSET
  }

  predicate Is5Bit(v: bv8) { v < 32 }

  predicate All5Bit(s: Octets) { forall i :: 0 <= i < |s| ==> Is5Bit(s[i]) }

  predicate IsLower(c: bv8) { 0x61 <= c <= 0x7a }

  predicate IsUpper(c: bv8) { 0x41 <= c <= 0x5a }

  predicate IsPrintable(c: bv8) { 33 <= c <= 126 }

  function LowerCase(c: bv8): bv8 { if IsUpper(c) then (c - 0x41) + 0x61 else c }

  /** The two tables are inverse, and the character set has no separator and no upper case. */
  lemma {:induction false} CharsetInverse(v: bv8)
    requires Is5Bit(v)
    ensures CharsetRev(Charset(v)) == v
    ensures var c := Charset(v); IsPrintable(c) && c != SEPARATOR && !IsUpper(c)
  {
    hide Charset, CharsetRev;
    Table0(); Table1(); Table2(); Table3(); Table4(); Table5(); Table6(); Table7();
    FiveBits(v);
    CharsetPlain(v);
  }

  lemma Table0()
    ensures CharsetRev(Charset(0)) == 0 && CharsetRev(Charset(1)) == 1 && CharsetRev(Charset(2)) == 2 && CharsetRev(Charset(3)) == 3
  {
  }

  lemma Table1()
    ensures CharsetRev(Charset(4)) == 4 && CharsetRev(Charset(5)) == 5 && CharsetRev(Charset(6)) == 6 && CharsetRev(Charset(7)) == 7
  {
  }

  lemma Table2()
    ensures CharsetRev(Charset(8)) == 8 && CharsetRev(Charset(9)) == 9 && CharsetRev(Charset(10)) == 10 && CharsetRev(Charset(11)) == 11
  {
  }

  lemma Table3()
    ensures CharsetRev(Charset(12)) == 12 && CharsetRev(Charset(13)) == 13 && CharsetRev(Charset(14)) == 14 && CharsetRev(Charset(15)) == 15
  {
  }

  lemma Table4()
    ensures CharsetRev(Charset(16)) == 16 && CharsetRev(Charset(17)) == 17 && CharsetRev(Charset(18)) == 18 && CharsetRev(Charset(19)) == 19
  {
  }

  lemma Table5()
    ensures CharsetRev(Charset(20)) == 20 && CharsetRev(Charset(21)) == 21 && CharsetRev(Charset(22)) == 22 && CharsetRev(Charset(23)) == 23
  {
  }

  lemma Table6()
    ensures CharsetRev(Charset(24)) == 24 && CharsetRev(Charset(25)) == 25 && CharsetRev(Charset(26)) == 26 && CharsetRev(Charset(27)) == 27
  {
  }

  lemma Table7()
    ensures CharsetRev(Charset(28)) == 28 && CharsetRev(Charset(29)) == 29 && CharsetRev(Charset(30)) == 30 && CharsetRev(Charset(31)) == 31
  {
  }

  lemma FiveBits(v: bv8)
    requires v < 32
    ensures v == 0 || v == 1 || v == 2 || v == 3 || v == 4 || v == 5 || v == 6 || v == 7 || v == 8 || v == 9 || v == 10 || v == 11 || v == 12 || v == 13 || v == 14 || v == 15 || v == 16 || v == 17 || v == 18 || v == 19 || v == 20 || v == 21 || v == 22 || v == 23 || v == 24 || v == 25 || v == 26 || v == 27 || v == 28 || v == 29 || v == 30 || v == 31
  {
  }

  lemma CharsetPlain(v: bv8)
    ensures var c := Charset(v); IsPrintable(c) && c != SEPARATOR && !IsUpper(c)
  {
  }

  // ---------------------------------------------------------------- exclusive or

  function Xor(a: bv32, b: bv32): bv32 { a ^ b }

  lemma XorZero(a: bv32)
    ensures Xor(a, 0) == a && Xor(0, a) == a && Xor(a, a) == 0
  {
  }

  lemma RawAssoc(a: bv32, b: bv32, c: bv32)
    ensures (a ^ b) ^ c == a ^ (b ^ c) && a ^ b == b ^ a
  {
  }

  lemma XorAssoc(a: bv32, b: bv32, c: bv32)
    ensures Xor(Xor(a, b), c) == Xor(a, Xor(b, c)) && Xor(a, b) == Xor(b, a)
  {
    RawAssoc(a, b, c);
  }

  lemma {:induction false} XorShuffle(a: bv32, b: bv32, c: bv32, d: bv32)
    ensures Xor(Xor(a, b), Xor(c, d)) == Xor(Xor(a, c), Xor(b, d))
  {
    hide Xor;
    XorAssoc(a, b, Xor(c, d));
    XorAssoc(b, c, d);
    XorAssoc(c, b, d);
    XorAssoc(a, c, Xor(b, d));
  }

  lemma {:induction false} XorCancel(a: bv32, b: bv32)
    ensures Xor(a, b) == 0 <==> a == b
    ensures Xor(Xor(a, b), b) == a
  {
    hide Xor;
    XorAssoc(a, b, b);
    XorZero(a);
    XorZero(b);
  }

  // ---------------------------------------------------------------- the checksum polynomial

  /** Whether bit `n` of the coefficient about to be shifted out is set. */
  predicate TopBit(c: bv32, n: nat)
    requires n < 5
  {
    match n
    case 0 => (c >> 25) & 1 != 0
    case 1 => (c >> 25) & 2 != 0
    case 2 => (c >> 25) & 4 != 0
    case 3 => (c >> 25) & 8 != 0
    case 4 => (c >> 25) & 16 != 0
  }

  function Generator(n: nat): bv32
    requires n < 5
  {
    match n
    case 0 => 0x3b6a57b2
    case 1 => 0x26508e6d
    case 2 => 0x1ea119fa
    case 3 => 0x3d4233dd
    case 4 => 0x2a1462b3
  }

  /** All but the top coefficient moved up, and a value added. */
  function Shifted(c: bv32, v: bv8): bv32 { ((c & 0x1ffffff) << 5) ^ (v as bv32) }

  /** The reduction for the lowest `n` bits of the coefficient shifted out of `c`, applied to `t`. */
  function Reduced(t: bv32, c: bv32, n: nat): bv32
    requires n <= 5
  {
    if n == 0 then t
    else AddIf(Reduced(t, c, n - 1), TopBit(c, n - 1), Generator(n - 1))
  }

  /** One step of the remainder: multiply by x, add a value, reduce. */
  function PolyStep(c: bv32, v: bv8): bv32 {
    var c0 := c >> 25;
    var t := ((c & 0x1ffffff) << 5) ^ (v as bv32);
    var t1 := AddIf(t, c0 & 1 != 0, 0x3b6a57b2);
    var t2 := AddIf(t1, c0 & 2 != 0, 0x26508e6d);
    var t3 := AddIf(t2, c0 & 4 != 0, 0x1ea119fa);
    var t4 := AddIf(t3, c0 & 8 != 0, 0x3d4233dd);
    AddIf(t4, c0 & 16 != 0, 0x2a1462b3)
  }

  function AddIf(t: bv32, flag: bool, k: bv32): bv32 { if flag then Xor(t, k) else t }

  lemma StepIsReduced(c: bv32, v: bv8)
    ensures PolyStep(c, v) == Reduced(Shifted(c, v), c, 5)
  {
    hide AddIf;
    var t := Shifted(c, v);
    assert Reduced(t, c, 1) == AddIf(t, TopBit(c, 0), Generator(0));
    assert Reduced(t, c, 2) == AddIf(Reduced(t, c, 1), TopBit(c, 1), Generator(1));
    assert Reduced(t, c, 3) == AddIf(Reduced(t, c, 2), TopBit(c, 2), Generator(2));
    assert Reduced(t, c, 4) == AddIf(Reduced(t, c, 3), TopBit(c, 3), Generator(3));
  }

  lemma TopBitLinear(a: bv32, b: bv32, n: nat)
    requires n < 5
    ensures TopBit(Xor(a, b), n) <==> TopBit(a, n) != TopBit(b, n)
  {
    BitLinear0(a, b);
    BitLinear1(a, b);
    BitLinear2(a, b);
    BitLinear3(a, b);
    BitLinear4(a, b);
  }

  lemma BitLinear0(a: bv32, b: bv32)
    ensures (Xor(a, b) >> 25) & 1 != 0 <==> ((a >> 25) & 1 != 0) != ((b >> 25) & 1 != 0)
  {
  }

  lemma BitLinear1(a: bv32, b: bv32)
    ensures (Xor(a, b) >> 25) & 2 != 0 <==> ((a >> 25) & 2 != 0) != ((b >> 25) & 2 != 0)
  {
  }

  lemma BitLinear2(a: bv32, b: bv32)
    ensures (Xor(a, b) >> 25) & 4 != 0 <==> ((a >> 25) & 4 != 0) != ((b >> 25) & 4 != 0)
  {
  }

  lemma BitLinear3(a: bv32, b: bv32)
    ensures (Xor(a, b) >> 25) & 8 != 0 <==> ((a >> 25) & 8 != 0) != ((b >> 25) & 8 != 0)
  {
  }

  lemma BitLinear4(a: bv32, b: bv32)
    ensures (Xor(a, b) >> 25) & 16 != 0 <==> ((a >> 25) & 16 != 0) != ((b >> 25) & 16 != 0)
  {
  }

  lemma ShiftedLinear(a: bv32, b: bv32, x: bv8, y: bv8)
    ensures Shifted(Xor(a, b), x ^ y) == Xor(Shifted(a, x), Shifted(b, y))
  {
  }

  lemma {:induction false} ReducedLinear(s: bv32, t: bv32, a: bv32, b: bv32, n: nat)
    requires n <= 5
    ensures Reduced(Xor(s, t), Xor(a, b), n) == Xor(Reduced(s, a, n), Reduced(t, b, n))
  {
    hide Xor, TopBit, Generator;
    if n > 0 {
      ReducedLinear(s, t, a, b, n - 1);
      TopBitLinear(a, b, n - 1);
      var g := Generator(n - 1);
      var x, y := Reduced(s, a, n - 1), Reduced(t, b, n - 1);
      XorShuffle(x, g, y, g);
      XorShuffle(x, y, g, 0);
      XorShuffle(x, 0, y, g);
      XorShuffle(x, y, 0, g);
      XorZero(g);
      XorZero(x);
      XorZero(y);
      XorZero(Xor(x, y));
    }
  }

  /** The step is linear over exclusive or. */
  lemma {:induction false} StepLinear(a: bv32, b: bv32, x: bv8, y: bv8)
    ensures PolyStep(Xor(a, b), x ^ y) == Xor(PolyStep(a, x), PolyStep(b, y))
  {
    hide Xor, Shifted, Reduced, PolyStep;
    StepIsReduced(Xor(a, b), x ^ y);
    StepIsReduced(a, x);
    StepIsReduced(b, y);
    ShiftedLinear(a, b, x, y);
    ReducedLinear(Shifted(a, x), Shifted(b, y), a, b, 5);
  }

  const BOUND: bv32 := 0x4000_0000

  lemma StepBound(c: bv32, v: bv8)
    ensures PolyStep(c, v) < BOUND
  {
  }

  /** The step loses nothing: only zero is taken to zero. */
  lemma StepInjective(a: bv32)
    requires a < BOUND && PolyStep(a, 0) == 0
    ensures a == 0
  {
  }

  /** With room at the top the step only shifts in the value. */
  lemma StepShifts(c: bv32, v: bv8)
    requires c < 0x200_0000
    ensures PolyStep(c, v) == (c << 5) ^ (v as bv32)
  {
  }

  /** The remainder of a whole sequence of values, from a given state. */
  function Poly(c: bv32, v: Octets): bv32
    decreases |v|
  {
    if v == [] then c else Poly(PolyStep(c, v[0]), v[1..])
  }

  function PolyMod(v: Octets): bv32 { Poly(1, v) }

  lemma {:induction false} PolyConcat(c: bv32, v: Octets, w: Octets)
    ensures Poly(c, v + w) == Poly(Poly(c, v), w)
    decreases |v|
  {
    hide PolyStep;
    if v == [] {
      assert v + w == w;
    } else {
      assert (v + w)[1..] == v[1..] + w;
      PolyConcat(PolyStep(c, v[0]), v[1..], w);
    }
  }

  /** Two sequences added value by value. */
  function XorBytes(v: Octets, w: Octets): Octets
    requires |v| == |w|
  {
    seq(|v|, i requires 0 <= i < |v| => XorByte(v[i], w[i]))
  }

  function XorByte(v: bv8, w: bv8): bv8 { v ^ w }

  /** Remainders add up. */
  lemma {:induction false} PolyLinear(a: bv32, b: bv32, v: Octets, w: Octets)
    requires |v| == |w|
    ensures Poly(Xor(a, b), XorBytes(v, w)) == Xor(Poly(a, v), Poly(b, w))
    decreases |v|
  {
    hide PolyStep, Xor;
    if v != [] {
      StepLinear(a, b, v[0], w[0]);
      assert XorBytes(v, w)[1..] == XorBytes(v[1..], w[1..]);
      PolyLinear(PolyStep(a, v[0]), PolyStep(b, w[0]), v[1..], w[1..]);
    }
  }

  lemma {:induction false} PolyBound(c: bv32, v: Octets)
    requires c < BOUND
    ensures Poly(c, v) < BOUND
    decreases |v|
  {
    hide PolyStep;
    if v != [] {
      StepBound(c, v[0]);
      PolyBound(PolyStep(c, v[0]), v[1..]);
    }
  }

  predicate AllZero(v: Octets) { forall i :: 0 <= i < |v| ==> v[i] == 0 }

  /** A difference in the state never goes away. */
  lemma {:induction false} DifferenceStays(d: bv32, v: Octets)
    requires d < BOUND && d != 0 && AllZero(v)
    ensures Poly(d, v) != 0
    decreases |v|
  {
    hide PolyStep;
    if v != [] {
      StepBound(d, 0);
      if PolyStep(d, 0) == 0 { StepInjective(d); }
      DifferenceStays(PolyStep(d, 0), v[1..]);
    }
  }

  /** Shifting in a 5-bit value keeps it apart from what is already there. */
  lemma ShiftIn(c: bv32, v: bv8)
    requires c < 0x200_0000 && Is5Bit(v)
    ensures PolyStep(c, v) == 0 <==> c == 0 && v == 0
    ensures c < 0x20 ==> PolyStep(c, v) < 0x400
    ensures c < 0x400 ==> PolyStep(c, v) < 0x8000
    ensures c < 0x8000 ==> PolyStep(c, v) < 0x10_0000
    ensures c < 0x10_0000 ==> PolyStep(c, v) < 0x200_0000
    ensures c == 0 ==> PolyStep(c, v) < 0x20
  {
    hide PolyStep;
    StepShifts(c, v);
  }

  /** From a clear state, six values leave a clear state only if all are zero. */
  lemma SixValues(d: Octets)
    requires |d| == 6 && All5Bit(d) && Poly(0, d) == 0
    ensures AllZero(d)
  {
    hide PolyStep;
    var c1 := PolyStep(0, d[0]);
    var c2 := PolyStep(c1, d[1]);
    var c3 := PolyStep(c2, d[2]);
    var c4 := PolyStep(c3, d[3]);
    var c5 := PolyStep(c4, d[4]);
    assert Is5Bit(d[0]) && Is5Bit(d[1]) && Is5Bit(d[2]) && Is5Bit(d[3]) && Is5Bit(d[4]) && Is5Bit(d[5]);
    ShiftIn(0, d[0]);
    ShiftIn(c1, d[1]);
    ShiftIn(c2, d[2]);
    ShiftIn(c3, d[3]);
    ShiftIn(c4, d[4]);
    ShiftIn(c5, d[5]);
    SixUnrolled(0, d);
  }

  lemma SixUnrolled(c: bv32, d: Octets)
    requires |d| == 6
    ensures Poly(c, d) == PolyStep(PolyStep(PolyStep(PolyStep(PolyStep(PolyStep(c, d[0]), d[1]), d[2]), d[3]), d[4]), d[5])
  {
    hide PolyStep;
    assert d == [d[0]] + [d[1]] + [d[2]] + [d[3]] + [d[4]] + [d[5]];
    PolyConcat(c, [d[0]] + [d[1]] + [d[2]] + [d[3]] + [d[4]], [d[5]]);
    PolyConcat(c, [d[0]] + [d[1]] + [d[2]] + [d[3]], [d[4]]);
    PolyConcat(c, [d[0]] + [d[1]] + [d[2]], [d[3]]);
    PolyConcat(c, [d[0]] + [d[1]], [d[2]]);
    PolyConcat(c, [d[0]], [d[1]]);
  }

  // ---------------------------------------------------------------- the prefix

  /** The prefix as it enters the checksum: high bits, a zero, low bits. */
  function Expanded(hrp: Octets): Octets {
    seq(|hrp|, i requires 0 <= i < |hrp| => HighBits(hrp[i])) + [0] + seq(|hrp|, i requires 0 <= i < |hrp| => LowBits(hrp[i]))
  }

  function HighBits(c: bv8): bv8 { c >> 5 }

  function LowBits(c: bv8): bv8 { c & 0x1f }

  lemma SplitByte(c: bv8)
    ensures HighBits(c) < 8 && LowBits(c) < 32 && HighBits(c) as int * 32 + LowBits(c) as int == c as int
  {
  }

  /** The prefix is expanded to the three high bits of every character, a zero, and their five low bits. */
  lemma ExpandedExactly(hrp: Octets)
    ensures var e := Expanded(hrp); |e| == 2 * |hrp| + 1 && e[|hrp|] == 0 && forall i :: 0 <= i < |hrp| ==> Halves(hrp[i], e[i], e[|hrp| + 1 + i])
  {
    hide HighBits, LowBits;
    forall i | 0 <= i < |hrp| ensures Halves(hrp[i], Expanded(hrp)[i], Expanded(hrp)[|hrp| + 1 + i]) {
      ExpandedAt(hrp, i);
      SplitByte(hrp[i]);
    }
  }

  /** A character and its two parts, as numbers. */
  predicate Halves(c: bv8, hi: bv8, lo: bv8) { hi < 8 && lo < 32 && hi as int * 32 + lo as int == c as int }

  lemma ExpandedAt(hrp: Octets, i: nat)
    requires i < |hrp|
    ensures Expanded(hrp)[i] == HighBits(hrp[i]) && Expanded(hrp)[|hrp| + 1 + i] == LowBits(hrp[i])
  {
    hide HighBits, LowBits;
  }

  predicate Verifies(hrp: Octets, values: Octets) { PolyMod(Expanded(hrp) + values) == 1 }

  /** Two sequences agree outside a window. */
  predicate DifferWithin(v: Octets, w: Octets, from: nat, to: nat)
    requires |v| == |w|
  {
    forall i :: 0 <= i < |v| && !(from <= i < to) ==> v[i] == w[i]
  }

  lemma XorSelf(v: bv8)
    ensures v ^ v == 0
  {
  }

  lemma Xor5Bit(v: bv8, w: bv8)
    requires Is5Bit(v) && Is5Bit(w)
    ensures Is5Bit(v ^ w) && (v ^ w == 0 <==> v == w)
  {
  }

  /**
   Any error confined to six consecutive characters is detected, at any length: of two
   different value sequences under the same prefix that differ only within such a window,
   at most one has a valid checksum.
   */
  lemma BurstDetected(hrp: Octets, v: Octets, w: Octets, from: nat)
    requires |v| == |w| && All5Bit(v) && All5Bit(w) && from + 6 <= |v| && DifferWithin(v, w, from, from + 6)
    requires Verifies(hrp, v) && Verifies(hrp, w)
    ensures v == w
  {
    hide Poly, PolyStep, Xor;
    var pre := Expanded(hrp) + v[..from];
    assert v[..from] == w[..from] && v[from + 6..] == w[from + 6..];
    var x, y, post := v[from..from + 6], w[from..from + 6], v[from + 6..];
    assert Expanded(hrp) + v == pre + (x + post) && Expanded(hrp) + w == pre + (y + post);
    PolyConcat(1, pre, x + post);
    PolyConcat(1, pre, y + post);
    var c := Poly(1, pre);
    PolyBound(1, pre);
    assert x == y by { WindowsEqual(c, x, y, post); }
    assert v == v[..from] + x + post && w == w[..from] + y + post;
  }

  lemma WindowsEqual(c: bv32, x: Octets, y: Octets, post: Octets)
    requires c < BOUND && |x| == |y| == 6 && All5Bit(x) && All5Bit(y) && Poly(c, x + post) == Poly(c, y + post)
    ensures x == y
  {
    hide Poly, PolyStep, Xor;
    PolyLinear(c, c, x + post, y + post);
    XorZero(c);
    XorCancel(Poly(c, x + post), Poly(c, y + post));
    var d, zeros := XorBytes(x, y), XorBytes(post, post);
    assert XorBytes(x + post, y + post) == d + zeros;
    PolyConcat(0, d, zeros);
    PolyBound(0, d);
    forall i | 0 <= i < |zeros| ensures zeros[i] == 0 { XorSelf(post[i]); }
    forall i | 0 <= i < 6 ensures Is5Bit(d[i]) && (d[i] == 0 <==> x[i] == y[i]) { assert Is5Bit(x[i]) && Is5Bit(y[i]); Xor5Bit(x[i], y[i]); }
    assert Poly(0, d) == 0 by { if Poly(0, d) != 0 { DifferenceStays(Poly(0, d), zeros); } }
    SixValues(d);
  }

  // ---------------------------------------------------------------- making a checksum

  /** A packed checksum without its lowest `5 - i` groups. */
  function Leading(m: bv32, i: nat): bv32
    requires i < 6
  {
    match i
    case 0 => m >> 25
    case 1 => m >> 20
    case 2 => m >> 15
    case 3 => m >> 10
    case 4 => m >> 5
    case 5 => m
  }

  /** The `i`th group of five bits, highest first. */
  function Group(m: bv32, i: nat): bv8
    requires i < 6
  {
    (Leading(m, i) & 31) as bv8
  }

  function Unpacked(m: bv32): Octets {
    [Group(m, 0), Group(m, 1), Group(m, 2), Group(m, 3), Group(m, 4), Group(m, 5)]
  }

  const SIX_ZEROS: Octets := [0, 0, 0, 0, 0, 0]

  function Checksum(hrp: Octets, values: Octets): Octets {
    Unpacked(Flipped(PolyMod(Expanded(hrp) + values + SIX_ZEROS)))
  }

  function Flipped(p: bv32): bv32 { p ^ 1 }

  lemma Unpacked5Bit(m: bv32)
    ensures |Unpacked(m)| == 6 && All5Bit(Unpacked(m))
  {
    hide Leading;
  }

  /** From a clear state, the six values pack back into the checksum. */
  lemma Repacked(m: bv32)
    requires m < BOUND
    ensures Poly(0, Unpacked(m)) == m
  {
    hide Poly, PolyStep, Group, Leading;
    SixUnrolled(0, Unpacked(m));
    PackFirst(m);
    PackNext(m, 1);
    PackNext(m, 2);
    PackNext(m, 3);
    PackNext(m, 4);
    PackNext(m, 5);
    assert Leading(m, 5) == m by { LeadingAll(m); }
  }

  lemma LeadingAll(m: bv32)
    ensures Leading(m, 5) == m
  {
  }

  lemma PackFirst(m: bv32)
    requires m < BOUND
    ensures PolyStep(0, Group(m, 0)) == Leading(m, 0)
  {
    hide PolyStep;
    StepShifts(0, Group(m, 0));
  }

  lemma {:induction false} PackNext(m: bv32, i: nat)
    requires m < BOUND && 1 <= i < 6
    ensures PolyStep(Leading(m, i - 1), Group(m, i)) == Leading(m, i)
  {
    hide PolyStep, Leading;
    LeadingStep(m, i);
    PackOne(Leading(m, i - 1), Leading(m, i), Group(m, i));
  }

  lemma {:induction false} LeadingStep(m: bv32, i: nat)
    requires m < BOUND && 1 <= i < 6
    ensures Leading(m, i - 1) == Leading(m, i) >> 5 && Leading(m, i) < BOUND
  {
    hide Leading;
    match i
    case 1 => Leading1(m);
    case 2 => Leading2(m);
    case 3 => Leading3(m);
    case 4 => Leading4(m);
    case 5 => Leading5(m);
  }

  lemma Leading1(m: bv32)
    requires m < BOUND
    ensures Leading(m, 0) == Leading(m, 1) >> 5 && Leading(m, 1) < BOUND
  {
  }

  lemma Leading2(m: bv32)
    requires m < BOUND
    ensures Leading(m, 1) == Leading(m, 2) >> 5 && Leading(m, 2) < BOUND
  {
  }

  lemma Leading3(m: bv32)
    requires m < BOUND
    ensures Leading(m, 2) == Leading(m, 3) >> 5 && Leading(m, 3) < BOUND
  {
  }

  lemma Leading4(m: bv32)
    requires m < BOUND
    ensures Leading(m, 3) == Leading(m, 4) >> 5 && Leading(m, 4) < BOUND
  {
  }

  lemma Leading5(m: bv32)
    requires m < BOUND
    ensures Leading(m, 4) == Leading(m, 5) >> 5 && Leading(m, 5) < BOUND
  {
  }

  lemma PackOne(hi: bv32, all: bv32, v: bv8)
    requires hi == all >> 5 && all < BOUND && v == (all & 31) as bv8
    ensures PolyStep(hi, v) == all
  {
    hide PolyStep;
    StepShifts(hi, v);
  }

  /** A checksum makes the whole verify. */
  lemma ChecksumVerifies(hrp: Octets, values: Octets)
    ensures Verifies(hrp, values + Checksum(hrp, values))
  {
    hide Poly, PolyStep, Unpacked, Expanded, Xor, Flipped, XorByte;
    var pre := Expanded(hrp) + values;
    var sum := Checksum(hrp, values);
    var m := Flipped(PolyMod(pre + SIX_ZEROS));
    Unpacked5Bit(m);
    PolyConcat(1, pre, SIX_ZEROS);
    PolyConcat(1, pre, sum);
    assert Expanded(hrp) + (values + sum) == pre + sum;
    var c := Poly(1, pre);
    PolyBound(1, pre + SIX_ZEROS);
    FlipLowBit(PolyMod(pre + SIX_ZEROS));
    Repacked(m);
    PolyLinear(c, 0, SIX_ZEROS, sum);
    XorZero(c);
    assert XorBytes(SIX_ZEROS, sum) == sum by { forall i | 0 <= i < 6 ensures XorByte(SIX_ZEROS[i], sum[i]) == sum[i] { ZeroXor(sum[i]); } }
  }

  lemma ZeroXor(v: bv8)
    ensures XorByte(0, v) == v
  {
  }

  lemma FlipLowBit(p: bv32)
    ensures p < BOUND ==> Flipped(p) < BOUND
    ensures Xor(p, Flipped(p)) == 1
  {
  }

  // ---------------------------------------------------------------- strings

  /** What `Encode` returns. */
  function Encoded(hrp: Octets, values: Octets): Octets {
    if All5Bit(values) then hrp + [SEPARATOR] + Spelled(values + Checksum(hrp, values)) else []
  }

  function Spelled(v: Octets): Octets { seq(|v|, i requires 0 <= i < |v| => Charset(v[i])) }

  function Valued(s: Octets): Octets { seq(|s|, i requires 0 <= i < |s| => CharsetRev(s[i])) }

  function Lowered(s: Octets): Octets { seq(|s|, i requires 0 <= i < |s| => LowerCase(s[i])) }

  predicate InCharset(s: Octets) { forall i :: 0 <= i < |s| ==> CharsetRev(s[i]) != NOT_IN_CHARSET }

  predicate AllPrintable(s: Octets) { forall i :: 0 <= i < |s| ==> IsPrintable(s[i]) }

  predicate HasUpper(s: Octets) { exists i :: 0 <= i < |s| && IsUpper(s[i]) }

  predicate HasLower(s: Octets) { exists i :: 0 <= i < |s| && IsLower(s[i]) }

  /** `pos` is where the last separator stands. */
  predicate LastSeparator(s: Octets, pos: nat) {
    pos < |s| && s[pos] == SEPARATOR && forall i :: pos < i < |s| ==> s[i] != SEPARATOR
  }

  /** A string split at its last separator into prefix and data, all six tests of the format passed. */
  ghost predicate Accepted(s: Octets, pos: nat) {
    && AllPrintable(s) && !(HasLower(s) && HasUpper(s))
    && LastSeparator(s, pos) && |s| <= 1023 && 0 < pos && pos + 7 <= |s|
    && InCharset(s[pos + 1..])
    && Verifies(Lowered(s[..pos]), Valued(s[pos + 1..]))
  }

  /** What an accepted string stands for. */
  function Meaning(s: Octets, pos: nat): (Octets, Octets)
    requires pos + 7 <= |s|
  {
    (Lowered(s[..pos]), Valued(s[pos + 1..])[..|s| - pos - 7])
  }

  /** What `Decode` returns: two empty strings stand for failure. */
  ghost function Decoded(s: Octets): (Octets, Octets) {
    if pos: nat :| Accepted(s, pos) then Meaning(s, pos) else ([], [])
  }

  lemma DecodedMeaning(s: Octets, pos: nat)
    requires LastSeparator(s, pos)
    ensures Accepted(s, pos) ==> Decoded(s) == Meaning(s, pos)
    ensures !Accepted(s, pos) ==> Decoded(s) == ([], [])
  {
    hide AllPrintable, HasLower, HasUpper, InCharset, Verifies, Lowered, Valued;
    forall q: nat | Accepted(s, q) ensures q == pos { }
  }

  /** The arguments the format can carry. */
  predicate Encodable(hrp: Octets, values: Octets) {
    && hrp != [] && AllPrintable(hrp) && !HasUpper(hrp) && All5Bit(values)
    && |hrp| + 1 + |values| + 6 <= 1023
  }

  lemma {:induction false} SpelledIsPlain(v: Octets)
    requires All5Bit(v)
    ensures var s := Spelled(v); InCharset(s) && AllPrintable(s) && !HasUpper(s) && Valued(s) == v && SEPARATOR !in s
  {
    hide Charset, CharsetRev, IsUpper, IsPrintable, Is5Bit;
    var s := Spelled(v);
    forall i | 0 <= i < |s|
      ensures CharsetRev(s[i]) == v[i] && v[i] != NOT_IN_CHARSET && IsPrintable(s[i]) && !IsUpper(s[i]) && s[i] != SEPARATOR
    {
      assert Is5Bit(v[i]);
      CharsetInverse(v[i]);
      Small(v[i]);
    }
  }

  lemma Small(v: bv8)
    requires Is5Bit(v)
    ensures v != NOT_IN_CHARSET
  {
  }

  lemma LoweredAlready(s: Octets)
    ensures Lowered(s) == s <==> !HasUpper(s)
  {
    forall i | 0 <= i < |s| ensures LowerCase(s[i]) == s[i] <==> !IsUpper(s[i]) { LowerCaseMoves(s[i]); }
    if HasUpper(s) {
      var i :| 0 <= i < |s| && IsUpper(s[i]);
      assert Lowered(s)[i] != s[i];
    }
  }

  lemma LowerCaseMoves(c: bv8)
    ensures LowerCase(c) == c <==> !IsUpper(c)
    ensures !IsUpper(LowerCase(c))
  {
  }

  /**
   Decoding what was encoded gives back prefix and values exactly for the arguments the format
   can carry; the one other pair that comes back is the pair that also stands for failure.
   */
  lemma {:induction false} RoundTrip(hrp: Octets, values: Octets)
    ensures Decoded(Encoded(hrp, values)) == (hrp, values) <==> Encodable(hrp, values) || (hrp == [] && values == [])
  {
    hide Verifies, Checksum, Lowered, Valued, Spelled, All5Bit, AllPrintable, HasUpper, HasLower, InCharset;
    if !All5Bit(values) {
      assert Encoded(hrp, values) == [];
      assert forall q: nat :: !Accepted([], q);
      assert values != [] by { hide Is5Bit; assert All5Bit([]) by { OneBits(); } }
    } else {
      EncodedDecodes(hrp, values);
    }
  }

  lemma OneBits()
    ensures All5Bit([])
  {
  }

  lemma EncodedDecodes(hrp: Octets, values: Octets)
    requires All5Bit(values)
    ensures Decoded(Encoded(hrp, values)) == (hrp, values) <==> Encodable(hrp, values) || (hrp == [] && values == [])
  {
    hide Verifies, Checksum, Lowered, Valued, Spelled, All5Bit, AllPrintable, HasUpper, HasLower, InCharset, Encoded, Decoded, Accepted, Meaning, LastSeparator;
    var s := Encoded(hrp, values);
    EncodedParts(hrp, values);
    DecodedMeaning(s, |hrp|);
    LoweredAlready(hrp);
    EncodedAccepted(hrp, values);
  }

  lemma {:induction false} EncodedParts(hrp: Octets, values: Octets)
    requires All5Bit(values)
    ensures var s := Encoded(hrp, values);
            && |s| == |hrp| + 1 + |values| + 6
            && LastSeparator(s, |hrp|) && s[..|hrp|] == hrp && Valued(s[|hrp| + 1..]) == values + Checksum(hrp, values)
            && AllPrintable(s[|hrp| + 1..]) && !HasUpper(s[|hrp| + 1..]) && InCharset(s[|hrp| + 1..])
            && Meaning(s, |hrp|) == (Lowered(hrp), values)
  {
    hide PolyMod, Expanded, Lowered, Charset, CharsetRev, IsUpper, IsPrintable, Is5Bit, Unpacked, Flipped;
    var sum := Checksum(hrp, values);
    Unpacked5Bit(Flipped(PolyMod(Expanded(hrp) + values + SIX_ZEROS)));
    assert |sum| == 6;
    var v := values + sum;
    assert All5Bit(v);
    SpelledIsPlain(v);
    var s := Encoded(hrp, values);
    assert s[|hrp| + 1..] == Spelled(v) && s[..|hrp|] == hrp;
    assert forall i :: |hrp| < i < |s| ==> s[i] == Spelled(v)[i - |hrp| - 1];
    assert v[..|values|] == values;
  }

  lemma {:induction false} EncodedAccepted(hrp: Octets, values: Octets)
    requires All5Bit(values)
    ensures Encodable(hrp, values) ==> Accepted(Encoded(hrp, values), |hrp|)
    ensures Accepted(Encoded(hrp, values), |hrp|) && !HasUpper(hrp) ==> Encodable(hrp, values)
    ensures Accepted(Encoded(hrp, values), |hrp|) ==> hrp != []
  {
    hide Verifies, Checksum, Lowered, Valued, Spelled, All5Bit, InCharset, Encoded, Decoded, LastSeparator, Meaning, IsUpper, IsLower, IsPrintable;
    var s := Encoded(hrp, values);
    EncodedParts(hrp, values);
    ChecksumVerifies(hrp, values);
    LoweredAlready(hrp);
    var rest := s[|hrp| + 1..];
    assert forall i :: 0 <= i < |hrp| ==> s[i] == hrp[i];
    assert forall i :: |hrp| < i < |s| ==> s[i] == rest[i - |hrp| - 1];
    assert s[|hrp|] == SEPARATOR by { SeparatorAt(s, |hrp|); }
    assert IsPrintable(SEPARATOR) && !IsUpper(SEPARATOR) by { SeparatorPlain(); }
    if Encodable(hrp, values) {
      assert !HasUpper(s);
    }
  }

  lemma SeparatorAt(s: Octets, pos: nat)
    requires LastSeparator(s, pos)
    ensures pos < |s| && s[pos] == SEPARATOR
  {
  }

  lemma SeparatorPlain()
    ensures IsPrintable(SEPARATOR) && !IsUpper(SEPARATOR) && LowerCase(SEPARATOR) == SEPARATOR
  {
  }

  /** The other way round: an accepted string is, but for its case, the one string that encodes its meaning. */
  lemma {:induction false} SpellingIsUnique(s: Octets, pos: nat)
    requires Accepted(s, pos)
    ensures Encoded(Meaning(s, pos).0, Meaning(s, pos).1) == Lowered(s)
  {
    hide Verifies, Checksum, Lowered, Valued, Spelled, All5Bit, AllPrintable, HasUpper, HasLower, InCharset;
    var hrp, all := Lowered(s[..pos]), Valued(s[pos + 1..]);
    ValuedSpelled(s[pos + 1..]);
    var k := |s| - pos - 7;
    var values, sum := all[..k], Checksum(hrp, all[..k]);
    ChecksumVerifies(hrp, values);
    ChecksumShape(hrp, values);
    assert all == values + all[k..];
    Take5Bit(all, k);
    Join5Bit(values, sum);
    assert DifferWithin(all, values + sum, k, k + 6);
    BurstDetected(hrp, all, values + sum, k);
    assert s == s[..pos] + [SEPARATOR] + s[pos + 1..];
    LoweredJoin(s[..pos], s[pos + 1..]);
  }

  lemma ChecksumShape(hrp: Octets, values: Octets)
    ensures |Checksum(hrp, values)| == 6 && All5Bit(Checksum(hrp, values))
  {
    hide PolyMod, Expanded, Unpacked, Flipped, All5Bit;
    Unpacked5Bit(Flipped(PolyMod(Expanded(hrp) + values + SIX_ZEROS)));
  }

  lemma Take5Bit(v: Octets, k: nat)
    requires k <= |v| && All5Bit(v)
    ensures All5Bit(v[..k])
  {
  }

  lemma Join5Bit(v: Octets, w: Octets)
    requires All5Bit(v) && All5Bit(w)
    ensures All5Bit(v + w)
  {
  }

  lemma LoweredJoin(s: Octets, t: Octets)
    ensures Lowered(s + [SEPARATOR] + t) == Lowered(s) + [SEPARATOR] + Lowered(t)
  {
    hide LowerCase;
    SeparatorPlain();
  }

  lemma {:induction false} ValuedSpelled(s: Octets)
    requires InCharset(s)
    ensures |Valued(s)| == |s| && All5Bit(Valued(s)) && Spelled(Valued(s)) == Lowered(s)
  {
    hide Charset, CharsetRev, LowerCase, Is5Bit;
    forall i | 0 <= i < |s| ensures Is5Bit(CharsetRev(s[i])) && Charset(CharsetRev(s[i])) == LowerCase(s[i]) {
      CharsetSurjective(s[i]);
    }
  }

  lemma {:induction false} CharsetSurjective(c: bv8)
    requires CharsetRev(c) != NOT_IN_CHARSET
    ensures Is5Bit(CharsetRev(c)) && Charset(CharsetRev(c)) == LowerCase(c)
  {
    hide Charset, CharsetRev, LowerCase, Is5Bit;
    if c < 0x31 {
      Spelling0(c);
    } else if c < 0x33 {
      Spelling1(c);
    } else if c < 0x36 {
      Spelling2(c);
    } else if c < 0x38 {
      Spelling3(c);
    } else if c < 0x41 {
      Spelling4(c);
    } else if c < 0x46 {
      Spelling5(c);
    } else if c < 0x4a {
      Spelling6(c);
    } else if c < 0x4d {
      Spelling7(c);
    } else if c < 0x52 {
      Spelling8(c);
    } else if c < 0x56 {
      Spelling9(c);
    } else if c < 0x59 {
      Spelling10(c);
    } else if c < 0x61 {
      Spelling11(c);
    } else if c < 0x67 {
      Spelling12(c);
    } else if c < 0x6b {
      Spelling13(c);
    } else if c < 0x6e {
      Spelling14(c);
    } else if c < 0x73 {
      Spelling15(c);
    } else if c < 0x76 {
      Spelling16(c);
    } else if c < 0x78 {
      Spelling17(c);
    } else if c < 0x79 {
      Spelling18(c);
    } else if c < 0x7a {
      Spelling19(c);
    } else {
      Spelling20(c);
    }
  }

  lemma Spelling0(c: bv8)
    requires CharsetRev(c) != NOT_IN_CHARSET && c < 0x31
    ensures Is5Bit(CharsetRev(c)) && Charset(CharsetRev(c)) == LowerCase(c)
  {
    assert c == 0x30 by { hide Charset; }
  }

  lemma Spelling1(c: bv8)
    requires CharsetRev(c) != NOT_IN_CHARSET && 0x31 <= c < 0x33
    ensures Is5Bit(CharsetRev(c)) && Charset(CharsetRev(c)) == LowerCase(c)
  {
  }

  lemma Spelling2(c: bv8)
    requires CharsetRev(c) != NOT_IN_CHARSET && 0x33 <= c < 0x36
    ensures Is5Bit(CharsetRev(c)) && Charset(CharsetRev(c)) == LowerCase(c)
  {
  }

  lemma Spelling3(c: bv8)
    requires CharsetRev(c) != NOT_IN_CHARSET && 0x36 <= c < 0x38
    ensures Is5Bit(CharsetRev(c)) && Charset(CharsetRev(c)) == LowerCase(c)
  {
  }

  lemma Spelling4(c: bv8)
    requires CharsetRev(c) != NOT_IN_CHARSET && 0x38 <= c < 0x41
    ensures Is5Bit(CharsetRev(c)) && Charset(CharsetRev(c)) == LowerCase(c)
  {
  }

  lemma Spelling5(c: bv8)
    requires CharsetRev(c) != NOT_IN_CHARSET && 0x41 <= c < 0x46
    ensures Is5Bit(CharsetRev(c)) && Charset(CharsetRev(c)) == LowerCase(c)
  {
  }

  lemma Spelling6(c: bv8)
    requires CharsetRev(c) != NOT_IN_CHARSET && 0x46 <= c < 0x4a
    ensures Is5Bit(CharsetRev(c)) && Charset(CharsetRev(c)) == LowerCase(c)
  {
  }

  lemma Spelling7(c: bv8)
    requires CharsetRev(c) != NOT_IN_CHARSET && 0x4a <= c < 0x4d
    ensures Is5Bit(CharsetRev(c)) && Charset(CharsetRev(c)) == LowerCase(c)
  {
  }

  lemma Spelling8(c: bv8)
    requires CharsetRev(c) != NOT_IN_CHARSET && 0x4d <= c < 0x52
    ensures Is5Bit(CharsetRev(c)) && Charset(CharsetRev(c)) == LowerCase(c)
  {
  }

  lemma Spelling9(c: bv8)
    requires CharsetRev(c) != NOT_IN_CHARSET && 0x52 <= c < 0x56
    ensures Is5Bit(CharsetRev(c)) && Charset(CharsetRev(c)) == LowerCase(c)
  {
  }

  lemma Spelling10(c: bv8)
    requires CharsetRev(c) != NOT_IN_CHARSET && 0x56 <= c < 0x59
    ensures Is5Bit(CharsetRev(c)) && Charset(CharsetRev(c)) == LowerCase(c)
  {
  }

  lemma Spelling11(c: bv8)
    requires CharsetRev(c) != NOT_IN_CHARSET && 0x59 <= c < 0x61
    ensures Is5Bit(CharsetRev(c)) && Charset(CharsetRev(c)) == LowerCase(c)
  {
  }

  lemma Spelling12(c: bv8)
    requires CharsetRev(c) != NOT_IN_CHARSET && 0x61 <= c < 0x67
    ensures Is5Bit(CharsetRev(c)) && Charset(CharsetRev(c)) == LowerCase(c)
  {
  }

  lemma Spelling13(c: bv8)
    requires CharsetRev(c) != NOT_IN_CHARSET && 0x67 <= c < 0x6b
    ensures Is5Bit(CharsetRev(c)) && Charset(CharsetRev(c)) == LowerCase(c)
  {
  }

  lemma Spelling14(c: bv8)
    requires CharsetRev(c) != NOT_IN_CHARSET && 0x6b <= c < 0x6e
    ensures Is5Bit(CharsetRev(c)) && Charset(CharsetRev(c)) == LowerCase(c)
  {
  }

  lemma Spelling15(c: bv8)
    requires CharsetRev(c) != NOT_IN_CHARSET && 0x6e <= c < 0x73
    ensures Is5Bit(CharsetRev(c)) && Charset(CharsetRev(c)) == LowerCase(c)
  {
  }

  lemma Spelling16(c: bv8)
    requires CharsetRev(c) != NOT_IN_CHARSET && 0x73 <= c < 0x76
    ensures Is5Bit(CharsetRev(c)) && Charset(CharsetRev(c)) == LowerCase(c)
  {
  }

  lemma Spelling17(c: bv8)
    requires CharsetRev(c) != NOT_IN_CHARSET && 0x76 <= c < 0x78
    ensures Is5Bit(CharsetRev(c)) && Charset(CharsetRev(c)) == LowerCase(c)
  {
  }

  lemma Spelling18(c: bv8)
    requires CharsetRev(c) != NOT_IN_CHARSET && 0x78 <= c < 0x79
    ensures Is5Bit(CharsetRev(c)) && Charset(CharsetRev(c)) == LowerCase(c)
  {
  }

  lemma Spelling19(c: bv8)
    requires CharsetRev(c) != NOT_IN_CHARSET && 0x79 <= c < 0x7a
    ensures Is5Bit(CharsetRev(c)) && Charset(CharsetRev(c)) == LowerCase(c)
  {
  }

  lemma Spelling20(c: bv8)
    requires CharsetRev(c) != NOT_IN_CHARSET && 0x7a <= c
    ensures Is5Bit(CharsetRev(c)) && Charset(CharsetRev(c)) == LowerCase(c)
  {
    assert c == 0x7a by { hide Charset; }
  }

  // ---------------------------------------------------------------- the algorithms

  method PolyModLoop(v: Octets) returns (c: bv32)
    ensures c == PolyMod(v)
  {
    hide AddIf, Xor, Generator;
    c := 1;
    for i := 0 to |v|
      invariant Poly(c, v[i..]) == PolyMod(v)
    {
      assert v[i..][1..] == v[i + 1..];
      c := OneStep(c, v[i]);
    }
    assert v[|v|..] == [];
  }

  method OneStep(c: bv32, v: bv8) returns (t: bv32)
    ensures t == PolyStep(c, v)
  {
    hide Xor;
    var c0 := c >> 25;
    t := ((c & 0x1ffffff) << 5) ^ (v as bv32);
    if c0 & 1 != 0 { t := Xor(t, 0x3b6a57b2); }
    if c0 & 2 != 0 { t := Xor(t, 0x26508e6d); }
    if c0 & 4 != 0 { t := Xor(t, 0x1ea119fa); }
    if c0 & 8 != 0 { t := Xor(t, 0x3d4233dd); }
    if c0 & 16 != 0 { t := Xor(t, 0x2a1462b3); }
  }

  method ExpandHRP(hrp: Octets) returns (ret: Octets)
    ensures ret == Expanded(hrp) && |ret| == 2 * |hrp| + 1 && ret[|hrp|] == 0
    ensures forall i :: 0 <= i < |hrp| ==> Halves(hrp[i], ret[i], ret[|hrp| + 1 + i])
  {
    hide HighBits, LowBits;
    ExpandedExactly(hrp);
    var n := |hrp|;
    ret := seq(2 * n + 1, i => 0);
    for i := 0 to n
      invariant |ret| == 2 * n + 1
      invariant forall k :: 0 <= k < i ==> ret[k] == HighBits(hrp[k]) && ret[k + n + 1] == LowBits(hrp[k])
    {
      ret := ret[i := HighBits(hrp[i])];
      ret := ret[i + n + 1 := LowBits(hrp[i])];
    }
    ret := ret[n := 0];
    assert forall k :: n < k < 2 * n + 1 ==> ret[k] == ret[(k - n - 1) + n + 1];
  }

  method VerifyChecksum(hrp: Octets, values: Octets) returns (ok: bool)
    ensures ok <==> Verifies(hrp, values)
  {
    hide Expanded, PolyMod;
    var e := ExpandHRP(hrp);
    var c := PolyModLoop(e + values);
    ok := c == 1;
  }

  method CreateChecksum(hrp: Octets, values: Octets) returns (ret: Octets)
    ensures ret == Checksum(hrp, values) && |ret| == 6 && All5Bit(ret)
    ensures Verifies(hrp, values + ret)
  {
    hide Expanded, PolyMod, Flipped, Group, Verifies, All5Bit;
    var enc := ExpandHRP(hrp);
    enc := enc + values + SIX_ZEROS;
    var p := PolyModLoop(enc);
    var m := Flipped(p);
    ret := SIX_ZEROS;
    for i := 0 to 6
      invariant |ret| == 6
      invariant forall k :: 0 <= k < i ==> ret[k] == Group(m, k)
    {
      ret := ret[i := Group(m, i)];
    }
    assert ret == Unpacked(m);
    ChecksumVerifies(hrp, values);
    ChecksumShape(hrp, values);
  }

  method Encode(hrp: Octets, values: Octets) returns (ret: Octets)
    ensures ret == Encoded(hrp, values)
    ensures Decoded(ret) == (hrp, values) <==> Encodable(hrp, values) || (hrp == [] && values == [])
  {
    hide Checksum, Charset, Verifies, Decoded, Encodable;
    RoundTrip(hrp, values);
    var checksum := CreateChecksum(hrp, values);
    var combined := values + checksum;
    ret := hrp + [SEPARATOR];
    for i := 0 to |combined|
      invariant ret == hrp + [SEPARATOR] + Spelled(combined[..i])
      invariant All5Bit(combined[..i])
    {
      var c := combined[i];
      assert combined[..i + 1] == combined[..i] + [c];
      if c >= 32 {
        assert i < |values| && values[i] == c && !Is5Bit(values[i]);
        return [];
      }
      assert Spelled(combined[..i + 1]) == Spelled(combined[..i]) + [Charset(c)];
      ret := ret + [Charset(c)];
    }
    assert combined[..|combined|] == combined;
    assert forall i :: 0 <= i < |values| ==> values[i] == combined[i];
  }

  /** Where the last separator is, or None (the library's reverse search). */
  method ReverseFind(s: Octets) returns (found: bool, pos: nat)
    ensures found ==> LastSeparator(s, pos)
    ensures !found ==> SEPARATOR !in s
  {
    pos := |s|;
    while pos > 0
      invariant pos <= |s|
      invariant forall k :: pos <= k < |s| ==> s[k] != SEPARATOR
    {
      pos := pos - 1;
      if s[pos] == SEPARATOR { return true, pos; }
    }
    return false, 0;
  }

  /** Whether all characters are printable and not of both cases. */
  method PlainText(s: Octets) returns (ok: bool)
    ensures ok <==> AllPrintable(s) && !(HasLower(s) && HasUpper(s))
  {
    hide IsLower, IsUpper, IsPrintable;
    var lower, upper := false, false;
    for i := 0 to |s|
      invariant AllPrintable(s[..i]) && (lower <==> HasLower(s[..i])) && (upper <==> HasUpper(s[..i]))
    {
      var c := s[i];
      if !IsPrintable(c) { return false; }
      CaseSeen(s, i);
      PrintableSeen(s, i);
      if IsLower(c) { lower := true; }
      if IsUpper(c) { upper := true; }
    }
    assert s[..|s|] == s;
    return !(lower && upper);
  }

  lemma PrintableSeen(s: Octets, i: nat)
    requires i < |s|
    ensures AllPrintable(s[..i + 1]) <==> AllPrintable(s[..i]) && IsPrintable(s[i])
  {
    hide IsPrintable;
    var a, b := s[..i], s[..i + 1];
    assert b[i] == s[i];
    assert forall k :: 0 <= k < i ==> a[k] == b[k];
  }

  lemma TakeNext(s: Octets, i: nat)
    requires i < |s|
    ensures s[..i + 1] == s[..i] + [s[i]]
  {
  }

  /** The values of some characters, if they all have one. */
  method ValuesOf(t: Octets) returns (ok: bool, values: Octets)
    ensures ok <==> InCharset(t)
    ensures ok ==> values == Valued(t)
  {
    hide CharsetRev;
    values := [];
    for i := 0 to |t|
      invariant InCharset(t[..i]) && values == Valued(t[..i])
    {
      var rev := CharsetRev(t[i]);
      if rev == NOT_IN_CHARSET { return false, []; }
      TakeNext(t, i);
      values := values + [rev];
    }
    assert t[..|t|] == t;
    return true, values;
  }

  method LowerText(t: Octets) returns (r: Octets)
    ensures r == Lowered(t)
  {
    hide LowerCase;
    r := [];
    for i := 0 to |t|
      invariant r == Lowered(t[..i])
    {
      TakeNext(t, i);
      r := r + [LowerCase(t[i])];
    }
    assert t[..|t|] == t;
  }

  method Decode(s: Octets) returns (hrp: Octets, data: Octets)
    ensures (hrp, data) == Decoded(s)
    ensures hrp != [] ==> Encoded(hrp, data) == Lowered(s)
  {
    hide Verifies, AllPrintable, HasLower, HasUpper, InCharset, Lowered, Valued, Encoded, Decoded, Meaning;
    var plain := PlainText(s);
    if !plain { NotAccepted(s); return [], []; }
    var found, pos := ReverseFind(s);
    if |s| > 1023 || !found || pos == 0 || pos + 7 > |s| { RejectedShape(s, found, pos); return [], []; }
    DecodedMeaning(s, pos);
    var ok, values := ValuesOf(s[pos + 1..]);
    if !ok { return [], []; }
    hrp := LowerText(s[..pos]);
    ok := VerifyChecksum(hrp, values);
    if !ok { return [], []; }
    FinishDecode(s, pos, hrp, values);
    data := values[..|values| - 6];
  }

  lemma {:induction false} FinishDecode(s: Octets, pos: nat, hrp: Octets, values: Octets)
    requires Accepted(s, pos) && hrp == Lowered(s[..pos]) && values == Valued(s[pos + 1..])
    ensures |values| >= 6 && Decoded(s) == (hrp, values[..|values| - 6])
    ensures Encoded(hrp, values[..|values| - 6]) == Lowered(s)
  {
    hide Verifies, AllPrintable, HasLower, HasUpper, InCharset, Encoded, Decoded;
    SpellingIsUnique(s, pos);
    DecodedMeaning(s, pos);
  }

  lemma CaseSeen(s: Octets, i: nat)
    requires i < |s|
    ensures HasLower(s[..i + 1]) <==> HasLower(s[..i]) || IsLower(s[i])
    ensures HasUpper(s[..i + 1]) <==> HasUpper(s[..i]) || IsUpper(s[i])
  {
    hide IsLower, IsUpper;
    var a, b := s[..i], s[..i + 1];
    assert forall k :: 0 <= k < i ==> a[k] == b[k];
    assert b[i] == s[i];
  }

  lemma NotAccepted(s: Octets)
    requires !AllPrintable(s) || (HasLower(s) && HasUpper(s))
    ensures Decoded(s) == ([], [])
  {
    hide Verifies, AllPrintable, HasLower, HasUpper, InCharset;
  }

  lemma RejectedShape(s: Octets, found: bool, pos: nat)
    requires if found then LastSeparator(s, pos) else SEPARATOR !in s
    requires |s| > 1023 || !found || pos == 0 || pos + 7 > |s|
    ensures Decoded(s) == ([], [])
  {
    hide Verifies, AllPrintable, HasLower, HasUpper, InCharset;
    if found { DecodedMeaning(s, pos); }
  }
}
