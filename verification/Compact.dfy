/**
 The compact form of difficulty targets: one byte of size and a 23-bit mantissa with a
 sign bit, in 32 bits.
 */
module Compact {
  import opened Limbs
  import opened BaseUint

  const SIGN: nat := 0x80_0000
  const EXPONENT: nat := 0x100_0000

  /** The size byte and the mantissa, as read. */
  function SizeOf(c: Limb): nat { c / EXPONENT }

  function MantissaOf(c: Limb): nat { c % SIGN }

  predicate SignOf(c: Limb) { (c / SIGN) % 2 == 1 }

  /** The number a compact form stands for, as a mathematical integer. */
  function Meaning(size: nat, mantissa: nat): nat {
    if size <= 3 then mantissa / Pow(256, 3 - size) else mantissa * Pow(256, size - 3)
  }

  /** The word the flags are decided on. */
  function Word(size: nat, mantissa: nat): nat {
    if size <= 3 then mantissa / Pow(256, 3 - size) else mantissa
  }

  /** How many bytes a number takes. */
  function ByteLength(x: nat): nat { if x == 0 then 0 else 1 + ByteLength(x / 256) }

  /** The leading three bytes of a number of `size` bytes. */
  function Leading(x: nat, size: nat): nat {
    if size <= 3 then x * Pow(256, 3 - size) else x / Pow(256, size - 3)
  }

  datatype Form = Form(size: nat, mantissa: nat)

  /** Size and mantissa of a number; a mantissa that would set the sign bit gives up a byte. */
  function Encoded(x: nat): Form {
    var size := ByteLength(x);
    var m := Leading(x, size);
    if m >= SIGN then Form(size + 1, m / 256) else Form(size, m)
  }

  lemma {:induction false} ByteBounds(x: nat)
    ensures x < Pow(256, ByteLength(x)) && (x > 0 ==> ByteLength(x) > 0 && Pow(256, ByteLength(x) - 1) <= x)
  {
    if x > 0 {
      ByteBounds(x / 256);
      DivDefinition(x, 256);
    }
  }

  lemma SmallPowers()
    ensures Pow(256, 0) == 1 && Pow(256, 1) == 256 && Pow(256, 2) == 0x1_0000 && Pow(256, 3) == EXPONENT
  {
    assert Pow(256, 1) == 256 * Pow(256, 0);
    assert Pow(256, 2) == 256 * Pow(256, 1);
  }

  // ---------------------------------------------------------------- round trips

  /** Dropping bytes below position `e` loses less than one unit there. */
  lemma {:induction false} Truncation(x: nat, p: nat, low: nat)
    requires p > 0 && x >= low * p && low >= 0x8000
    ensures var y := (x / p) * p; y <= x && (x - y) * 0x8000 < y
  {
    DivDefinition(x, p);
    var q := x / p;
    assert q >= low by {
      if q < low { Distribute(low - q - 1, q + 1, p); Distribute(q, 1, p); }
    }
    Distribute(q - 0x8000, 0x8000, p);
  }

  /** Encoding in few bytes is exact, in more it keeps at least 15 significant bits. */
  lemma {:induction false} RoundTrip(x: nat)
    requires x > 0
    ensures var f := Encoded(x); var y := Meaning(f.size, f.mantissa);
      f.mantissa < SIGN && y <= x && (x - y) * 0x8000 < y
  {
    hide Pow;
    ByteBounds(x);
    SmallPowers();
    var size := ByteLength(x);
    if size <= 3 {
      FewBytes(x, size);
    } else {
      ManyBytes(x, size);
    }
  }

  lemma {:induction false} FewBytes(x: nat, size: nat)
    requires 0 < size <= 3 && x < Pow(256, size) && size == ByteLength(x) && x > 0
    ensures var f := Encoded(x); f.mantissa < SIGN
    ensures var f := Encoded(x); var y := Meaning(f.size, f.mantissa); y <= x && (x - y) * 0x8000 < y
    ensures var f := Encoded(x); x < SIGN || x % 256 == 0 ==> Meaning(f.size, f.mantissa) == x
  {
    hide Pow, ByteLength;
    SmallPowers();
    if size == 3 { ThreeBytes(x); } else if size == 2 { TwoBytes(x); } else { OneByte(x); }
  }

  lemma ThreeBytes(x: nat)
    requires 0 < x < EXPONENT && ByteLength(x) == 3
    ensures var f := Encoded(x); var y := Meaning(f.size, f.mantissa); f.mantissa < SIGN && y <= x && (x - y) * 0x8000 < y
    ensures var f := Encoded(x); x < SIGN || x % 256 == 0 ==> Meaning(f.size, f.mantissa) == x
  {
    hide Pow, ByteLength;
    SmallPowers();
    assert Leading(x, 3) == x * 1 == x;
    if x < SIGN { assert x / 1 == x; } else { DivDefinition(x, 256); }
  }

  lemma {:induction false} TwoBytes(x: nat)
    requires 0 < x < 0x1_0000 && ByteLength(x) == 2
    ensures var f := Encoded(x); f.mantissa < SIGN && Meaning(f.size, f.mantissa) == x
  {
    hide Pow, ByteLength;
    SmallPowers();
    assert Leading(x, 2) == x * 256;
    assert (x * 256) / 256 == x && x / 1 == x;
  }

  lemma {:induction false} OneByte(x: nat)
    requires 0 < x < 256 && ByteLength(x) == 1
    ensures var f := Encoded(x); f.mantissa < SIGN && Meaning(f.size, f.mantissa) == x
  {
    hide Pow, ByteLength;
    SmallPowers();
    assert Leading(x, 1) == x * 0x1_0000;
    assert (x * 0x1_0000) / 0x1_0000 == x && (x * 0x1_0000) / 256 == x * 256 && (x * 256) / 256 == x;
  }

  lemma {:induction false} ManyBytes(x: nat, size: nat)
    requires size > 3 && Pow(256, size - 1) <= x < Pow(256, size) && size == ByteLength(x)
    ensures var f := Encoded(x); var y := Meaning(f.size, f.mantissa);
      && f.mantissa < SIGN && y <= x && (x - y) * 0x8000 < y
      && f.size >= size && y == (x / Pow(256, f.size - 3)) * Pow(256, f.size - 3)
      && (f.size == size || (f.size == size + 1 && x / Pow(256, size - 3) >= SIGN))
  {
    hide Pow, ByteLength;
    SmallPowers();
    var p := Pow(256, size - 3);
    PowAdd(256, 3, size - 3);
    PowAdd(256, 2, size - 3);
    PowAdd(256, 1, size - 3);
    var m := x / p;
    QuotientBounds(x, p, 0x1_0000, EXPONENT);
    if m >= SIGN {
      DivDiv(x, p, 256);
      Truncated256(x, p, m);
      Truncation(x, 256 * p, 0x8000);
    } else {
      Truncation(x, p, 0x1_0000);
    }
  }

  lemma Truncated256(x: nat, p: nat, m: nat)
    requires p > 0 && m == x / p >= SIGN
    ensures x >= 0x8000 * (256 * p) && p * 256 == 256 * p
  {
    DivDefinition(x, p);
    Distribute(m - SIGN, SIGN, p);
    assert (m - SIGN) * p >= 0;
    MulAssoc(0x8000, 256, p);
  }

  lemma {:induction false} QuotientBounds(x: nat, p: nat, lo: nat, hi: nat)
    requires p > 0 && lo * p <= x < hi * p
    ensures lo <= x / p < hi
  {
    DivDefinition(x, p);
    var q := x / p;
    if q < lo { Distribute(lo - q - 1, q + 1, p); Distribute(q, 1, p); }
    if q >= hi { Distribute(q - hi, hi, p); }
  }

  // ---------------------------------------------------------------- numbers that came from a compact form

  /** Multiplying by powers of 256 adds bytes. */
  lemma {:induction false} ByteLengthShifted(w: nat, e: nat)
    requires w > 0
    ensures w * Pow(256, e) > 0 && ByteLength(w * Pow(256, e)) == ByteLength(w) + e
  {
    if e > 0 {
      ByteLengthShifted(w, e - 1);
      var v := w * Pow(256, e - 1);
      assert w * Pow(256, e) == 256 * v by { MulAssoc(w, 256, Pow(256, e - 1)); MulAssoc(256, w, Pow(256, e - 1)); }
      assert (256 * v) / 256 == v;
    } else {
      assert w * Pow(256, 0) == w;
    }
  }

  lemma ByteLengthAtMost(w: nat, n: nat)
    requires w < Pow(256, n)
    ensures ByteLength(w) <= n
  {
    ByteBounds(w);
    if w > 0 && ByteLength(w) > n { PowMonotone(256, n, ByteLength(w) - 1); }
  }

  /** A number that came from a compact form is given back exactly by encoding it again. */
  lemma {:induction false} SecondRoundTrip(size: nat, mantissa: nat)
    requires mantissa < SIGN
    ensures var x := Meaning(size, mantissa); var f := Encoded(x); Meaning(f.size, f.mantissa) == x
  {
    hide Pow;
    var x := Meaning(size, mantissa);
    SmallPowers();
    if x == 0 {
      assert Leading(0, 0) == 0 * EXPONENT == 0 && 0 / EXPONENT == 0;
    } else if size <= 3 {
      DivDefinition(mantissa, Pow(256, 3 - size));
      MulAtLeast(Pow(256, 3 - size), x);
      ByteBounds(x);
      ByteLengthAtMost(x, 3);
      FewBytes(x, ByteLength(x));
    } else {
      ShiftedRoundTrip(mantissa, size - 3);
    }
  }

  lemma {:induction false} ShiftedRoundTrip(w: nat, e: nat)
    requires 0 < w < SIGN
    ensures var x := w * Pow(256, e); var f := Encoded(x); Meaning(f.size, f.mantissa) == x
  {
    hide Pow, Encoded, Meaning;
    var x := w * Pow(256, e);
    SmallPowers();
    ByteLengthShifted(w, e);
    ByteLengthAtMost(w, 3);
    ByteBounds(x);
    if ByteLength(x) <= 3 {
      if e > 0 { WholeBytes(w, e); } else { assert w * Pow(256, 0) == w; }
      FewBytes(x, ByteLength(x));
    } else {
      ShiftedBig(w, e, ByteLength(x), ByteLength(w));
    }
  }

  lemma {:induction false} WholeBytes(w: nat, e: nat)
    requires e > 0
    ensures (w * Pow(256, e)) % 256 == 0
  {
    MulAssoc(w, 256, Pow(256, e - 1));
    MulAssoc(256, w, Pow(256, e - 1));
    Times256(w * Pow(256, e - 1));
  }

  lemma {:induction false} ShiftedBig(w: nat, e: nat, size: nat, n: nat)
    requires 0 < w < SIGN && n <= 3 && size == n + e && size > 3 && size == ByteLength(w * Pow(256, e))
    requires Pow(256, size - 1) <= w * Pow(256, e) < Pow(256, size)
    ensures var x := w * Pow(256, e); var f := Encoded(x); Meaning(f.size, f.mantissa) == x
  {
    hide Pow, Encoded, Meaning, ByteLength;
    var x := w * Pow(256, e);
    ManyBytes(x, size);
    KeepsUnits(w, e, size - 3);
    if Encoded(x).size != size {
      LeadingOfShifted(w, e, size - 3, n);
      KeepsUnits(w, e, size - 2);
    }
  }

  lemma Times256(v: nat)
    ensures (256 * v) % 256 == 0
  {
  }

  /** Dropping only zero bytes drops nothing. */
  lemma {:induction false} KeepsUnits(w: nat, e: nat, k: nat)
    ensures k <= e ==> (w * Pow(256, e) / Pow(256, k)) * Pow(256, k) == w * Pow(256, e)
    ensures k <= e ==> w * Pow(256, e) / Pow(256, k) == w * Pow(256, e - k)
  {
    if k <= e {
      PowAdd(256, e - k, k);
      MulAssoc(w, Pow(256, e - k), Pow(256, k));
      DivUnique(w * Pow(256, e), Pow(256, k), w * Pow(256, e - k), 0);
    }
  }

  /** A full three-byte mantissa below the sign bit never needs to give up a byte. */
  lemma {:induction false} LeadingOfShifted(w: nat, e: nat, k: nat, n: nat)
    requires 0 < w < SIGN && n <= 3 && k == n + e - 3 && k >= 0 && w * Pow(256, e) / Pow(256, k) >= SIGN
    ensures k + 1 <= e
  {
    if k >= e {
      KeepsUnits(w, e, e);
    }
  }

  // ---------------------------------------------------------------- the operations

  lemma {:induction false} Pow256(k: nat)
    ensures Pow(256, k) == Pow(2, 8 * k)
  {
    if k > 0 {
      Pow256(k - 1);
      PowAdd(2, 8, 8 * (k - 1));
      assert Pow(2, 8) == 256;
    }
  }

  lemma SmallMeaning(size: nat, m: nat)
    requires size <= 3
    ensures Meaning(size, m) <= m
  {
    hide Pow;
    PowPositive(3 - size);
    DivDefinition(m, Pow(256, 3 - size));
    MulAtLeast(Pow(256, 3 - size), m / Pow(256, 3 - size));
  }

  /** The overflow test of the code is exact. */
  lemma OverflowIsExact(size: nat, m: nat)
    requires m < SIGN
    ensures var w := Word(size, m);
      (w != 0 && (size > 34 || (w > 0xff && size > 33) || (w > 0xffff && size > 32))) <==> Meaning(size, m) >= MODULUS
  {
    hide Pow;
    PowBase(WIDTH);
    Pow256(32);
    SmallPowers();
    if size <= 3 {
      SmallMeaning(size, m);
      PowMonotone(256, 3, 32);
    } else if size <= 32 {
      PowAdd(256, 3, size - 3);
      PowMonotone(256, size, 32);
      StrictMul(m, EXPONENT, Pow(256, size - 3));
    } else if size == 33 {
      PowAdd(256, 2, 30);
      CompareTimes(m, 0x1_0000, Pow(256, 30));
    } else if size == 34 {
      PowAdd(256, 1, 31);
      CompareTimes(m, 256, Pow(256, 31));
    } else {
      PowMonotone(256, 32, size - 3);
      CompareTimes(m, 1, Pow(256, size - 3));
      MulZero(m, Pow(256, size - 3));
    }
  }

  lemma MulZero(m: nat, p: nat)
    ensures m == 0 ==> m * p == 0
  {
  }

  lemma CompareTimes(a: nat, b: nat, p: nat)
    requires p > 0
    ensures a * p >= b * p <==> a >= b
  {
    if a < b { StrictMul(a, b, p); } else { MulMonotone(b, a, p); }
  }

  /** The word the flags are decided on is zero only for zero. */
  lemma MeaningZero(size: nat, m: nat)
    ensures Word(size, m) == 0 <==> Meaning(size, m) == 0
  {
    hide Pow;
    if size > 3 {
      PowPositive(size - 3);
      if m > 0 { MulAtLeast(m, Pow(256, size - 3)); }
      MulZero(m, Pow(256, size - 3));
    }
  }

  lemma {:induction false} PowPositive(n: nat)
    ensures Pow(256, n) > 0
  {
    if n > 0 { PowPositive(n - 1); }
  }

  /** Read a compact form; the flags tell a negative and an overflowing one. */
  method SetCompact(n: Number, c: Limb) returns (negative: bool, overflow: bool)
    requires n.Valid()
    modifies n.pn
    ensures n.Value() == Meaning(SizeOf(c), MantissaOf(c)) % MODULUS
    ensures negative <==> Meaning(SizeOf(c), MantissaOf(c)) != 0 && SignOf(c)
    ensures overflow <==> Meaning(SizeOf(c), MantissaOf(c)) >= MODULUS
  {
    hide Pow;
    var size := c / EXPONENT;
    var word := c % SIGN;
    OverflowIsExact(size, word);
    MeaningZero(size, word);
    if size <= 3 {
      SmallPowers();
      word := word / Pow(256, 3 - size);
      n.SetTo(word);
      DivUnique(word, MODULUS, 0, word);
    } else {
      n.SetTo(word);
      n.ShiftLeft(8 * (size - 3));
      Pow256(size - 3);
    }
    negative := word != 0 && (c / SIGN) % 2 == 1;
    overflow := word != 0 && (size > 34 || (word > 0xff && size > 33) || (word > 0xffff && size > 32));
  }

  lemma ByteLengthUnique(x: nat, s: nat)
    requires s > 0 && Pow(256, s - 1) <= x < Pow(256, s)
    ensures ByteLength(x) == s
  {
    ByteBounds(x);
    ByteLengthAtMost(x, s);
    if ByteLength(x) < s { PowMonotone(256, ByteLength(x), s - 1); }
  }

  /** Eight bits to a byte. */
  lemma BitsToBytes(x: nat, bits: nat)
    requires bits == 0 <==> x == 0
    requires bits > 0 ==> Pow(2, bits - 1) <= x < Pow(2, bits)
    ensures ByteLength(x) == (bits + 7) / 8
  {
    hide Pow;
    if x > 0 {
      var s := (bits + 7) / 8;
      Pow256(s);
      Pow256(s - 1);
      PowMonotone(2, bits, 8 * s);
      PowMonotone(2, 8 * (s - 1), bits - 1);
      ByteLengthUnique(x, s);
    }
  }

  lemma {:induction false} LeadingSmall(x: nat, size: nat)
    requires size == ByteLength(x)
    ensures Leading(x, size) < EXPONENT && (size <= 3 ==> x < EXPONENT)
  {
    hide Pow;
    ByteBounds(x);
    SmallPowers();
    if size <= 3 {
      PowAdd(256, size, 3 - size);
      StrictMul(x, Pow(256, size), Pow(256, 3 - size));
      PowMonotone(256, size, 3);
    } else {
      PowAdd(256, 3, size - 3);
      UpperQuotient(x, Pow(256, size - 3), EXPONENT);
    }
  }

  lemma UpperQuotient(x: nat, p: nat, hi: nat)
    requires p > 0 && x < hi * p
    ensures x / p < hi
  {
    DivDefinition(x, p);
    if x / p >= hi { Distribute(x / p - hi, hi, p); }
  }

  /** Write a number in compact form. */
  method GetCompact(n: Number, fNegative: bool) returns (c: Limb)
    requires n.Valid()
    ensures var f := Encoded(n.Value());
      && SizeOf(c) == f.size && MantissaOf(c) == f.mantissa && SignOf(c) == (fNegative && f.mantissa != 0)
  {
    hide Pow, ByteLength;
    var bits := n.Bits();
    BitsToBytes(n.Value(), bits);
    var size := (bits + 7) / 8;
    LeadingSmall(n.Value(), size);
    var m: nat;
    if size <= 3 {
      m := n.GetLow64();
      DivUnique(n.Value(), BASE * BASE, 0, n.Value());
      m := m * Pow(256, 3 - size);
    } else {
      var bn := new Number.Copy(n);
      bn.ShiftRight(8 * (size - 3));
      Pow256(size - 3);
      m := bn.GetLow64();
      DivUnique(bn.Value(), BASE * BASE, 0, bn.Value());
    }
    if m >= SIGN {
      m := m / 256;
      size := size + 1;
    }
    assert m < SIGN && size < 256;
    c := m + size * EXPONENT + (if fNegative && m != 0 then SIGN else 0);
    CompactFields(c, size, m, fNegative && m != 0);
  }

  lemma CompactFields(c: Limb, size: nat, m: nat, sign: bool)
    requires m < SIGN && c == m + size * EXPONENT + (if sign then SIGN else 0)
    ensures SizeOf(c) == size && MantissaOf(c) == m && SignOf(c) == sign
  {
  }
}
