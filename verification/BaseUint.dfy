/**
 256-bit unsigned integers in eight 32-bit limbs: the in-place operators, each
 proved to be arithmetic modulo 2 to the 256.
 */
module BaseUint {
  import opened Limbs
  import opened LimbShifts

  const WIDTH: nat := 8

  const MODULUS: nat := Pow(BASE, WIDTH)

  /** A 64-bit accumulator holds it without wrapping. */
  predicate FitsUint64(n: int) { 0 <= n <= 0xFFFF_FFFF_FFFF_FFFF }

  // ---------------------------------------------------------------- single steps

  lemma AddStep(carry: nat, a: Limb, b: Limb, i: nat)
    ensures var n := carry + a + b; W(n % BASE, i) + W(n / BASE, i + 1) == W(carry, i) + W(a, i) + W(b, i)
  {
    WCarry(carry + a + b, i);
    WAdd(carry + a, b, i);
    WAdd(carry, a, i);
  }

  /** One limb of the complement. */
  lemma NotStep(a: Limb, i: nat)
    ensures W(BASE - 1 - a, i) + W(a, i) + Pow(BASE, i) == Pow(BASE, i + 1)
  {
    WAdd(BASE - 1 - a, a, i);
    WAdd(BASE - 1, 1, i);
  }

  /** Two limbs, a carry and an old limb never exceed 64 bits. */
  lemma {:induction false} ProductFits(carry: nat, old': Limb, a: Limb, b: Limb)
    requires carry < BASE
    ensures carry + old' + a * b <= 0xFFFF_FFFF_FFFF_FFFF && (carry + old' + a * b) / BASE < BASE
  {
    LimbTimes(a, b);
    assert a * b + b <= BASE * b;
    var n := carry + old' + a * b;
    assert BASE * b <= BASE * (BASE - 1);
    DivDefinition(n, BASE);
  }

  class Number {
    const pn: array<Limb>

    ghost predicate Valid() { pn.Length == WIDTH }

    ghost function Value(): (v: nat)
      requires Valid()
      reads pn
      ensures v < MODULUS
    {
      ValBound(pn[..]);
      Val(pn[..])
    }

    /** A number from 64 bits. */
    constructor (b: nat)
      requires FitsUint64(b)
      ensures Valid() && fresh(pn) && Value() == b
    {
      pn := new Limb[WIDTH](_ => 0);
      new;
      pn[0] := b % BASE;
      pn[1] := b / BASE;
      TwoLimbs(pn[..]);
      DivDefinition(b, BASE);
    }

    constructor Copy(b: Number)
      requires b.Valid()
      ensures Valid() && fresh(pn) && pn[..] == b.pn[..] && Value() == b.Value()
    {
      pn := new Limb[WIDTH](i requires 0 <= i < b.pn.Length reads b.pn => b.pn[i]);
      new;
      assert pn[..] == b.pn[..];
    }

    /** Set to zero. */
    method Clear()
      requires Valid()
      modifies pn
      ensures Value() == 0 && forall i :: 0 <= i < WIDTH ==> pn[i] == 0
    {
      for i := 0 to WIDTH
        invariant forall j :: 0 <= j < i ==> pn[j] == 0
      {
        pn[i] := 0;
      }
      ValZero(pn[..]);
    }

    /** Assign 64 bits. */
    method SetTo(b: nat)
      requires Valid() && FitsUint64(b)
      modifies pn
      ensures Value() == b
    {
      Clear();
      pn[0] := b % BASE;
      pn[1] := b / BASE;
      TwoLimbs(pn[..]);
      DivDefinition(b, BASE);
    }

    /** The low 64 bits. */
    method GetLow64() returns (r: nat)
      requires Valid()
      ensures r == Value() % (BASE * BASE)
    {
      r := pn[0] + pn[1] * BASE;
      LowLimbs(pn[..]);
    }

    /** Addition; the operand may be this number itself. */
    method Add(b: Number)
      requires Valid() && b.Valid()
      modifies pn
      ensures Value() == (old(Value()) + old(b.Value())) % MODULUS
    {
      hide W, Pow, Val;
      ghost var x, y := pn[..], b.pn[..];
      NoLimbs();
      var carry: nat := 0;
      for i := 0 to WIDTH
        invariant pn[i..] == x[i..] && b.pn[i..] == y[i..] && carry <= 1
        invariant Val(pn[..i]) + W(carry, i) == Val(x[..i]) + Val(y[..i])
      {
        assert pn[i] == x[i] && b.pn[i] == y[i];
        ghost var before := pn[..i];
        AddStep(carry, x[i], y[i], i);
        ValPrefix(x, i);
        ValPrefix(y, i);
        var n := carry + pn[i] + b.pn[i];
        pn[i] := n % BASE;
        carry := n / BASE;
        assert pn[..i + 1] == before + [n % BASE];
        ValSnoc(before, n % BASE);
      }
      assert pn[..WIDTH] == pn[..] && x[..WIDTH] == x && y[..WIDTH] == y;
      ValBound(pn[..]);
      WTop(carry);
      DivUnique(Val(x) + Val(y), MODULUS, carry, Val(pn[..]));
    }

    /** Flip every bit. */
    method Complement()
      requires Valid()
      modifies pn
      ensures Value() == MODULUS - 1 - old(Value())
    {
      hide W, Pow, Val;
      ghost var x := pn[..];
      NoLimbs();
      for i := 0 to WIDTH
        invariant pn[i..] == x[i..]
        invariant Val(pn[..i]) + Val(x[..i]) + 1 == Pow(BASE, i)
      {
        assert pn[i] == x[i];
        ghost var before := pn[..i];
        NotStep(x[i], i);
        ValPrefix(x, i);
        pn[i] := BASE - 1 - pn[i];
        assert pn[..i + 1] == before + [BASE - 1 - x[i]];
        ValSnoc(before, BASE - 1 - x[i]);
      }
      assert pn[..WIDTH] == pn[..] && x[..WIDTH] == x;
    }

    /** Add one, stopping at the first limb that does not wrap. */
    method Increment()
      requires Valid()
      modifies pn
      ensures Value() == (old(Value()) + 1) % MODULUS
    {
      ghost var x := pn[..];
      var i := 0;
      pn[0] := (pn[0] + 1) % BASE;
      while pn[i] == 0 && i < WIDTH - 1
        invariant 0 <= i < WIDTH && pn[i + 1..] == x[i + 1..]
        invariant pn[i] == (x[i] + 1) % BASE
        invariant forall j :: 0 <= j < i ==> pn[j] == 0 && x[j] == BASE - 1
        decreases WIDTH - i
      {
        i := i + 1;
        pn[i] := (pn[i] + 1) % BASE;
      }
      CarryChain(x, pn[..], i);
    }

    /** Subtraction, by adding the two's complement. */
    method Sub(b: Number)
      requires Valid() && b.Valid()
      modifies pn
      ensures Value() == (old(Value()) - old(b.Value())) % MODULUS
    {
      hide Val;
      ghost var x, y := Value(), b.Value();
      var negated := new Number.Copy(b);
      negated.Complement();
      negated.Increment();
      Add(negated);
      SubIsAddNegated(x, y, MODULUS);
    }

    /** Order of two numbers, decided by the highest limb that differs. */
    method CompareTo(b: Number) returns (r: int)
      requires Valid() && b.Valid()
      ensures r == if Value() < b.Value() then -1 else if Value() > b.Value() then 1 else 0
    {
      var i := WIDTH;
      while i > 0
        invariant 0 <= i <= WIDTH && pn[i..] == b.pn[i..]
      {
        i := i - 1;
        if pn[i] < b.pn[i] { HighestDecides(pn[..], b.pn[..], i); return -1; }
        if pn[i] > b.pn[i] { HighestDecides(b.pn[..], pn[..], i); return 1; }
        assert pn[i..] == [pn[i]] + pn[i + 1..] && b.pn[i..] == [b.pn[i]] + b.pn[i + 1..];
      }
      assert pn[..] == b.pn[..];
      return 0;
    }

    /** The position of the highest set bit plus one, or zero. */
    method Bits() returns (r: nat)
      requires Valid()
      ensures r <= 32 * WIDTH && (r == 0 <==> Value() == 0)
      ensures r > 0 ==> Pow(2, r - 1) <= Value() < Pow(2, r)
    {
      hide Pow, Val, BitAnd;
      var pos := WIDTH;
      while pos > 0
        invariant 0 <= pos <= WIDTH && forall j :: pos <= j < WIDTH ==> pn[j] == 0
      {
        pos := pos - 1;
        if pn[pos] != 0 {
          var bits := TopBit(pn[pos]);
          TopBitValue(pn[..], pos, bits);
          return 32 * pos + bits + 1;
        }
      }
      ValZero(pn[..]);
      return 0;
    }

    /** Shift left, dropping what leaves at the top. */
    method ShiftLeft(shift: nat)
      requires Valid()
      modifies pn
      ensures Value() == (old(Value()) * Pow(2, shift)) % MODULUS
    {
      hide Lo, Hi, Pow, Val, PartlyLeft;
      var a := new Number.Copy(this);
      Clear();
      var k, t := shift / 32, shift % 32;
      PartlyNone(a.pn[..], k, t);
      for i := 0 to WIDTH
        invariant a.pn[..] == old(pn[..])
        invariant forall j :: 0 <= j < WIDTH ==> pn[j] == PartlyLeft(a.pn[..], k, t, i, j)
      {
        PlaceLeft(a, k, t, i);
      }
      PartlyAll(a.pn[..], pn[..], k, t);
      ShiftLeftValue(a.pn[..], pn[..], k, t);
    }

    /** Put one limb of the source into its two places. */
    method PlaceLeft(a: Number, k: nat, t: nat, i: nat)
      requires Valid() && a.Valid() && a.pn != pn && t < 32 && i < WIDTH
      requires forall j :: 0 <= j < WIDTH ==> pn[j] == PartlyLeft(a.pn[..], k, t, i, j)
      modifies pn
      ensures forall j :: 0 <= j < WIDTH ==> pn[j] == PartlyLeft(a.pn[..], k, t, i + 1, j)
    {
      hide Lo, Hi, Pow, Val, LimbOr;
      ghost var s := a.pn[..];
      OrParts(s[i], if i > 0 then s[i - 1] else 0, t);
      OrZero(Hi(s[i], t));
      NothingMoved(s[i], t);
      OrZero(Lo(s[i], t));
      if i + k + 1 < WIDTH && t != 0 { pn[i + k + 1] := LimbOr(pn[i + k + 1], Hi(a.pn[i], t)); }
      if i + k < WIDTH { pn[i + k] := LimbOr(pn[i + k], Lo(a.pn[i], t)); }
    }

    /** Shift right, dropping what leaves at the bottom. */
    method ShiftRight(shift: nat)
      requires Valid()
      modifies pn
      ensures Value() == old(Value()) / Pow(2, shift)
    {
      hide Retained, Handed, Pow, Val, LimbOr;
      var a := new Number.Copy(this);
      Clear();
      var k, t := shift / 32, shift % 32;
      for i := 0 to WIDTH
        invariant a.pn[..] == old(pn[..])
        invariant forall j :: 0 <= j < WIDTH ==> pn[j] == PartlyRight(a.pn[..], k, t, i, j)
      {
        ghost var s := a.pn[..];
        OrRight(if i > 0 then s[i - 1] else 0, s[i], t);
        OrZero(Retained(s[i], t));
        NothingHanded(s[i], t);
        if i - k - 1 >= 0 && t != 0 { pn[i - k - 1] := LimbOr(pn[i - k - 1], Handed(a.pn[i], t)); }
        if i - k >= 0 { pn[i - k] := LimbOr(pn[i - k], Retained(a.pn[i], t)); }
      }
      assert ShiftedRight(a.pn[..], pn[..], k, t);
      ShiftRightValue(a.pn[..], pn[..], k, t);
    }

    /** Multiplication by a 32-bit number. */
    method MulSmall(b32: Limb)
      requires Valid()
      modifies pn
      ensures Value() == (old(Value()) * b32) % MODULUS
    {
      hide W, Pow, Val, Times;
      ghost var x := pn[..];
      NoLimbs();
      TimesZero(b32);
      var carry: nat := 0;
      for i := 0 to WIDTH
        invariant pn[i..] == x[i..] && carry < BASE
        invariant Val(pn[..i]) + W(carry, i) == Times(b32, Val(x[..i]))
      {
        assert pn[i] == x[i];
        ghost var before := pn[..i];
        ProductFits(carry, 0, b32, x[i]);
        SmallStep(carry, b32, x[i], i, Val(x[..i]));
        ValPrefix(x, i);
        var n := carry + b32 * pn[i];
        assert FitsUint64(n);
        pn[i] := n % BASE;
        carry := n / BASE;
        assert pn[..i + 1] == before + [n % BASE];
        ValSnoc(before, n % BASE);
      }
      assert pn[..WIDTH] == pn[..] && x[..WIDTH] == x;
      ValBound(pn[..]);
      WTop(carry);
      TimesIs(b32, Val(x));
      DivUnique(Val(x) * b32, MODULUS, carry, Val(pn[..]));
    }

    /** Add one limb's worth of the product, at that limb's position. */
    method MulRow(c: Limb, j: nat, b: Number, ghost y: seq<Limb>)
      requires Valid() && b.Valid() && j < WIDTH && b.pn[..] == y
      requires pn == b.pn ==> forall i :: 0 <= i < WIDTH ==> y[i] == 0
      modifies pn
      ensures b.pn[..] == y
      ensures Value() == (old(Value()) + W(c * Val(y), j)) % MODULUS
    {
      hide W, Pow, Val;
      ghost var s := pn[..];
      NoLimbs();
      WZero(j);
      var carry: nat := 0;
      var i := 0;
      while i + j < WIDTH
        invariant 0 <= i <= WIDTH - j && carry < BASE && b.pn[..] == y
        invariant pn == b.pn ==> carry == 0
        invariant Val(pn[..]) + W(carry, i + j) == Val(s) + W(c * Val(y[..i]), j)
      {
        ghost var before := pn[..];
        ProductFits(carry, before[i + j], c, y[i]);
        RowStep(before, y, c, carry, i, j);
        var n := carry + pn[i + j] + c * b.pn[i];
        assert FitsUint64(n);
        pn[i + j] := n % BASE;
        carry := n / BASE;
        assert pn[..] == before[i + j := n % BASE];
        i := i + 1;
      }
      ValBound(pn[..]);
      RowMod(Val(s), Val(pn[..]), y, c, carry, j);
    }

    /**
     Multiplication.  The operand is read after this number has been cleared, so it must
     not be this number itself: squaring in place gives zero.
     */
    method Mul(b: Number)
      requires Valid() && b.Valid()
      modifies pn
      ensures Value() == if pn == b.pn then 0 else (old(Value()) * b.Value()) % MODULUS
    {
      hide W, Pow, Val;
      var a := new Number.Copy(this);
      Clear();
      ghost var x, y := a.pn[..], b.pn[..];
      NoLimbs();
      assert Val(y) == if pn == b.pn then 0 else b.Value();
      DivUnique(0, MODULUS, 0, 0);
      for j := 0 to WIDTH
        invariant a.pn[..] == x && b.pn[..] == y
        invariant Value() == (Val(x[..j]) * Val(y)) % MODULUS
      {
        ProductStep(x, y, j);
        MulRow(a.pn[j], j, b, y);
      }
      assert x[..WIDTH] == x;
      DivUnique(0, MODULUS, 0, 0);
    }

    /** Division by shifting and subtracting; a zero divisor is an error that leaves zero. */
    method Div(b: Number) returns (ok: bool)
      requires Valid() && b.Valid()
      modifies pn
      ensures ok <==> old(b.Value()) != 0
      ensures Value() == if ok then old(Value()) / old(b.Value()) else 0
    {
      hide W, Pow, Val, Remaining, LowZero;
      ghost var x, d := Value(), b.Value();
      var div := new Number.Copy(b);
      var num := new Number.Copy(this);
      Clear();
      var numBits := num.Bits();
      var divBits := div.Bits();
      if divBits == 0 { return false; }
      if divBits > numBits {
        TooBig(x, d, numBits, divBits);
        return true;
      }
      var shift: int := numBits - divBits;
      Aligned(x, d, numBits, divBits);
      div.ShiftLeft(shift);
      ok := true;
      NoBits(pn[..], shift + 1);
      while shift >= 0
        invariant -1 <= shift < 256
        invariant Remaining(x, d, Value(), num.Value(), div.Value(), shift) && LowZero(pn[..], shift + 1)
      {
        DivisionStep(num, div, shift, x, d);
        shift := shift - 1;
      }
      NothingRemains(x, d, Value(), num.Value(), div.Value());
    }

    /** One round of division: subtract if possible, set the quotient bit, shift the divisor back. */
    method DivisionStep(num: Number, div: Number, shift: nat, ghost x: nat, ghost d: nat)
      requires Valid() && num.Valid() && div.Valid() && shift < 256
      requires pn != num.pn && pn != div.pn && num.pn != div.pn
      requires Remaining(x, d, Value(), num.Value(), div.Value(), shift) && LowZero(pn[..], shift + 1)
      modifies pn, num.pn, div.pn
      ensures Remaining(x, d, Value(), num.Value(), div.Value(), shift - 1) && LowZero(pn[..], shift)
    {
      hide W, Pow, Val, Remaining, LowZero;
      ghost var q, n, v := Value(), num.Value(), div.Value();
      var c := num.CompareTo(div);
      if c >= 0 {
        Subtracted(x, d, q, n, v, shift);
        SetBit(pn[..], shift);
        num.Sub(div);
        DivUnique(n - v, MODULUS, 0, n - v);
        ghost var before := pn[..];
        pn[shift / 32] := LimbOr(pn[shift / 32], OneBit(shift % 32));
        assert pn[..] == before[shift / 32 := LimbOr(before[shift / 32], OneBit(shift % 32))];
      } else {
        NotSubtracted(x, d, q, n, v, shift);
        FewerZero(pn[..], shift);
      }
      div.ShiftRight(1);
      PowOne();
    }
  }

  /** Of `x` divided by `d`: a partial quotient, what remains, and the divisor shifted to match. */
  ghost predicate Remaining(x: nat, d: nat, q: nat, n: nat, v: nat, shift: int)
    requires shift >= -1
  {
    (shift >= 0 ==> v == d * Pow(2, shift)) && x == q * d + n && n < d * Pow(2, shift + 1)
  }

  lemma PowOne()
    ensures Pow(2, 1) == 2
  {
  }

  lemma {:induction false} Subtracted(x: nat, d: nat, q: nat, n: nat, v: nat, shift: nat)
    requires Remaining(x, d, q, n, v, shift) && n >= v
    ensures Remaining(x, d, q + Pow(2, shift), n - v, v / 2, shift - 1)
  {
    hide Pow;
    Halving(d, shift);
    Distribute(q, Pow(2, shift), d);
  }

  lemma NotSubtracted(x: nat, d: nat, q: nat, n: nat, v: nat, shift: nat)
    requires Remaining(x, d, q, n, v, shift) && n < v
    ensures Remaining(x, d, q, n, v / 2, shift - 1)
  {
    hide Pow;
    Halving(d, shift);
  }

  lemma {:induction false} NothingRemains(x: nat, d: nat, q: nat, n: nat, v: nat)
    requires Remaining(x, d, q, n, v, -1)
    ensures d > 0 && q == x / d
  {
    PowZero();
    DivUnique(x, d, q, n);
  }

  function Times(b: nat, v: nat): nat { b * v }

  lemma TimesZero(b: nat)
    ensures Times(b, 0) == 0
  {
  }

  lemma TimesIs(b: nat, v: nat)
    ensures Times(b, v) == v * b
  {
  }

  lemma SmallStep(carry: nat, b32: nat, a: Limb, i: nat, v: nat)
    ensures var n := carry + b32 * a; Times(b32, v + W(a, i)) == Times(b32, v) + W(n % BASE, i) + W(n / BASE, i + 1) - W(carry, i)
  {
    hide W;
    WCarry(carry + b32 * a, i);
    WAdd(carry, b32 * a, i);
    WScale(a, b32, i);
    assert a * b32 == b32 * a;
    assert b32 * (v + W(a, i)) == b32 * v + b32 * W(a, i);
  }

  /** A weight inside a weight. */
  lemma WNest(c: nat, v: nat, y: nat, i: nat, j: nat)
    ensures W(c * (v + W(y, i)), j) == W(c * v, j) + W(c * y, i + j)
  {
    var p, q := Pow(BASE, i), Pow(BASE, j);
    PowAdd(BASE, i, j);
    assert c * (v + y * p) == c * v + (c * y) * p by { MulAssoc(c, y, p); }
    Distribute(c * v, (c * y) * p, q);
    MulAssoc(c * y, p, q);
  }

  lemma RowStep(s: seq<Limb>, y: seq<Limb>, c: Limb, carry: nat, i: nat, j: nat)
    requires |s| == |y| == WIDTH && i + j < WIDTH
    ensures var n := carry + s[i + j] + c * y[i];
      Val(s[i + j := n % BASE]) + W(n / BASE, i + j + 1) - Val(s) - W(carry, i + j) == W(c * Val(y[..i + 1]), j) - W(c * Val(y[..i]), j)
  {
    hide W, Val;
    var n := carry + s[i + j] + c * y[i];
    ValUpdate(s, i + j, n % BASE);
    WCarry(n, i + j);
    WAdd(carry + s[i + j], c * y[i], i + j);
    WAdd(carry, s[i + j], i + j);
    ValPrefix(y, i);
    WNest(c, Val(y[..i]), y[i], i, j);
  }

  /** What a row leaves out lies at or above the modulus. */
  lemma RowMod(before: nat, after: nat, y: seq<Limb>, c: nat, carry: nat, j: nat)
    requires |y| == WIDTH && j < WIDTH && after < MODULUS
    requires after + W(carry, WIDTH) == before + W(c * Val(y[..WIDTH - j]), j)
    ensures after == (before + W(c * Val(y), j)) % MODULUS
  {
    hide Val;
    var n := WIDTH - j;
    assert y == y[..n] + y[n..];
    ValConcat(y[..n], y[n..]);
    var u := Val(y[n..]);
    WNest(c, Val(y[..n]), u, n, j);
    assert W(u, n) == Pow(BASE, n) * u;
    Distribute(carry, c * u, MODULUS);
    DivUnique(before + W(c * Val(y), j), MODULUS, carry + c * u, after);
  }

  /** One more limb of the multiplier. */
  lemma {:induction false} ProductStep(x: seq<Limb>, y: seq<Limb>, j: nat)
    requires |x| == WIDTH && j < WIDTH
    ensures ((Val(x[..j]) * Val(y)) % MODULUS + W(x[j] * Val(y), j)) % MODULUS == (Val(x[..j + 1]) * Val(y)) % MODULUS
  {
    hide Val;
    ValPrefix(x, j);
    Distribute(Val(x[..j]), W(x[j], j), Val(y));
    assert W(x[j], j) * Val(y) == W(x[j] * Val(y), j) by { hide Val; WScale(x[j], Val(y), j); }
    ModAbsorb(Val(x[..j]) * Val(y), W(x[j] * Val(y), j), MODULUS);
  }

  lemma {:induction false} ModAbsorb(p: nat, r: nat, m: nat)
    requires m > 0
    ensures (p % m + r) % m == (p + r) % m
  {
    DivDefinition(p, m);
    DivDefinition(p % m + r, m);
    var q := p / m + (p % m + r) / m;
    Distribute(p / m, (p % m + r) / m, m);
    DivUnique(p + r, m, q, (p % m + r) % m);
  }

  // ---------------------------------------------------------------- division steps

  lemma TooBig(x: nat, d: nat, numBits: nat, divBits: nat)
    requires divBits > numBits && Pow(2, divBits - 1) <= d
    requires numBits == 0 <==> x == 0
    requires numBits > 0 ==> x < Pow(2, numBits)
    ensures d > 0 && x / d == 0
  {
    PowMonotone(2, numBits, divBits - 1);
    DivUnique(x, d, 0, x);
  }

  lemma Aligned(x: nat, d: nat, numBits: nat, divBits: nat)
    requires 0 < divBits <= numBits <= 256 && Pow(2, numBits - 1) <= x < Pow(2, numBits) && Pow(2, divBits - 1) <= d < Pow(2, divBits)
    ensures var shift := numBits - divBits;
      (d * Pow(2, shift)) % MODULUS == d * Pow(2, shift) && Remaining(x, d, 0, x, d * Pow(2, shift), shift)
  {
    hide Pow;
    var shift := numBits - divBits;
    PowAdd(2, divBits, shift);
    PowAdd(2, divBits - 1, shift + 1);
    MulMonotone(Pow(2, divBits - 1), d, Pow(2, shift + 1));
    MulMonotone(d, Pow(2, divBits), Pow(2, shift));
    PowBase(WIDTH);
    PowMonotone(2, numBits, 256);
    StrictMul(d, Pow(2, divBits), Pow(2, shift));
    DivUnique(d * Pow(2, shift), MODULUS, 0, d * Pow(2, shift));
  }

  lemma MulMonotone(a: nat, b: nat, c: nat)
    requires a <= b
    ensures a * c <= b * c
  {
    Distribute(a, b - a, c);
    assert (b - a) * c >= 0;
  }

  lemma StrictMul(a: nat, b: nat, c: nat)
    requires a < b && c > 0
    ensures a * c < b * c
  {
    Distribute(a, b - a, c);
    MulAtLeast(b - a, c);
  }

  lemma Halving(d: nat, shift: nat)
    ensures d * Pow(2, shift + 1) == 2 * (d * Pow(2, shift))
    ensures Pow(2, 1) == 2 && (shift > 0 ==> (d * Pow(2, shift)) / 2 == d * Pow(2, shift - 1))
  {
    MulAssoc(d, 2, Pow(2, shift));
    MulAssoc(2, d, Pow(2, shift));
    if shift > 0 {
      MulAssoc(d, 2, Pow(2, shift - 1));
      MulAssoc(2, d, Pow(2, shift - 1));
      DivUnique(d * Pow(2, shift), 2, d * Pow(2, shift - 1), 0);
    }
  }

  function OneBit(k: nat): Limb
    requires k < 32
  {
    PowMonotone(2, k, 31);
    Pow2To32();
    assert Pow(2, 32) == 2 * Pow(2, 31);
    Pow(2, k)
  }

  /** The lowest `n` bits are clear. */
  ghost predicate LowZero(s: seq<Limb>, n: nat) {
    forall j :: 0 <= j < |s| ==> LimbLowZero(s[j], j, n)
  }

  ghost predicate LimbLowZero(x: Limb, j: nat, n: nat) {
    if 32 * (j + 1) <= n then x == 0 else if 32 * j < n then Multiple(x, Pow(2, n - 32 * j)) else true
  }

  lemma NoBits(s: seq<Limb>, n: nat)
    requires forall j :: 0 <= j < |s| ==> s[j] == 0
    ensures LowZero(s, n)
  {
    forall j | 0 <= j < |s| ensures LimbLowZero(s[j], j, n) { if 32 * j < n { DivUnique(0, Pow(2, n - 32 * j), 0, 0); } }
  }

  lemma {:induction false} FewerZero(s: seq<Limb>, n: nat)
    requires LowZero(s, n + 1)
    ensures LowZero(s, n)
  {
    forall j | 0 <= j < |s| ensures LimbLowZero(s[j], j, n) {
      assert LimbLowZero(s[j], j, n + 1);
      if 32 * j < n < 32 * (j + 1) { LimbFewer(s[j], j, n); }
    }
  }

  lemma {:induction false} LimbFewer(x: Limb, j: nat, n: nat)
    requires 32 * j < n < 32 * (j + 1) && LimbLowZero(x, j, n + 1)
    ensures Multiple(x, Pow(2, n - 32 * j))
  {
    var p := Pow(2, n - 32 * j);
    if x == 0 { DivUnique(0, p, 0, 0); }
    else { HalveMultiple(x, p); }
  }

  lemma {:induction false} HalveMultiple(x: nat, p: nat)
    requires p > 0 && Multiple(x, 2 * p)
    ensures Multiple(x, p)
  {
    DivDefinition(x, 2 * p);
    MulAssoc(x / (2 * p), 2, p);
    DivUnique(x, p, x / (2 * p) * 2, 0);
  }

  /** Setting bit `k`, with it and all lower bits clear, adds `2^k`. */
  lemma {:induction false} SetBit(s: seq<Limb>, k: nat)
    requires |s| == WIDTH && k < 256 && LowZero(s, k + 1)
    ensures var r := s[k / 32 := LimbOr(s[k / 32], OneBit(k % 32))];
      Val(r) == Val(s) + Pow(2, k) && LowZero(r, k)
  {
    hide Val, W, Pow, LimbOr, Multiple;
    var j, b := k / 32, k % 32;
    assert LimbLowZero(s[j], j, k + 1);
    BitFits(s[j], b);
    ValUpdate(s, j, s[j] + Pow(2, b));
    WAdd(s[j], Pow(2, b), j);
    PowBase(j);
    PowAdd(2, 32 * j, b);
    WIs(Pow(2, b), j);
    FewerZero(s, k);
    var r := s[j := LimbOr(s[j], OneBit(b))];
    forall i | 0 <= i < |r| ensures LimbLowZero(r[i], i, k) { assert i != j ==> LimbLowZero(s[i], i, k); }
  }

  lemma WIs(x: nat, i: nat)
    ensures W(x, i) == Pow(BASE, i) * x
  {
  }

  lemma {:induction false} BitFits(x: Limb, b: nat)
    requires b < 32 && (if b == 31 then x == 0 else Multiple(x, Pow(2, b + 1)))
    ensures LimbOr(x, OneBit(b)) == x + Pow(2, b) && Multiple(x + Pow(2, b), Pow(2, b))
  {
    var p := Pow(2, b);
    if x == 0 {
      DivUnique(p, p, 1, 0);
    } else {
      OrDisjoint(x, p, b + 1);
      HalveMultiple(x, p);
      DivDefinition(x, p);
      Distribute(x / p, 1, p);
      DivUnique(x + p, p, x / p + 1, 0);
    }
  }

  lemma {:induction false} SubIsAddNegated(x: nat, y: nat, m: nat)
    requires y < m && x < m
    ensures (x + ((m - 1 - y + 1) % m)) % m == (x - y) % m
  {
    if y == 0 {
      DivUnique(m, m, 1, 0);
    } else {
      DivUnique(m - y, m, 0, m - y);
      if x >= y {
        DivUnique(x + m - y, m, 1, x - y);
        DivUnique(x - y, m, 0, x - y);
      } else {
        DivUnique(x + m - y, m, 0, x + m - y);
        DivUnique(x - y, m, -1, x + m - y);
      }
    }
  }

  lemma HighestDecides(x: seq<Limb>, y: seq<Limb>, i: nat)
    requires |x| == |y| && i < |x| && x[i + 1..] == y[i + 1..] && x[i] < y[i]
    ensures Val(x) < Val(y)
  {
    hide Pow, W, Val;
    ValPrefix(x, i);
    ValPrefix(y, i);
    ValBound(x[..i]);
    WAdd(x[i] + 1, y[i] - x[i] - 1, i);
    WAdd(x[i], 1, i);
    WOne(i);
    assert x == x[..i + 1] + x[i + 1..] && y == y[..i + 1] + y[i + 1..];
    ValConcat(x[..i + 1], x[i + 1..]);
    ValConcat(y[..i + 1], y[i + 1..]);
  }

  /** The highest set bit of a nonzero limb, by testing bits 31 down to 1. */
  method TopBit(x: Limb) returns (bits: nat)
    requires x != 0
    ensures bits < 32 && Pow(2, bits) <= x < Pow(2, bits + 1)
  {
    hide Pow, BitAnd;
    Pow2To32();
    bits := 31;
    while bits > 0
      invariant 0 <= bits <= 31 && x < Pow(2, bits + 1)
    {
      AndBit(x, bits);
      BitClear(x, bits);
      if BitAnd(x, Pow(2, bits)) != 0 { return; }
      bits := bits - 1;
    }
    PowZero();
  }

  lemma PowZero()
    ensures Pow(2, 0) == 1
  {
  }

  /** Below `2^(k+1)`, bit `k` is set exactly in the numbers from `2^k` on. */
  lemma {:induction false} BitClear(x: nat, k: nat)
    requires x < Pow(2, k + 1)
    ensures (x / Pow(2, k)) % 2 == 1 <==> x >= Pow(2, k)
  {
    var p := Pow(2, k);
    if x < p { DivUnique(x, p, 0, x); } else { DivUnique(x, p, 1, x - p); }
  }

  lemma TopBitValue(s: seq<Limb>, pos: nat, bits: nat)
    requires pos < |s| && bits < 32 && Pow(2, bits) <= s[pos] < Pow(2, bits + 1)
    requires forall j :: pos < j < |s| ==> s[j] == 0
    ensures Val(s) > 0 && Pow(2, 32 * pos + bits) <= Val(s) < Pow(2, 32 * pos + bits + 1)
  {
    hide Val, Pow;
    assert s == s[..pos + 1] + s[pos + 1..];
    ValConcat(s[..pos + 1], s[pos + 1..]);
    ValZero(s[pos + 1..]);
    ValPrefix(s, pos);
    ValBound(s[..pos]);
    PowBase(pos);
    PowAdd(2, 32 * pos, bits);
    PowAdd(2, 32 * pos, bits + 1);
    LimbWeight(s[pos], Pow(2, bits), Pow(2, bits + 1), Pow(BASE, pos), Val(s[..pos]));
  }

  lemma {:induction false} LimbWeight(x: nat, lo: nat, hi: nat, p: nat, r: nat)
    requires lo <= x < hi && r < p
    ensures p * lo <= r + x * p < p * hi
  {
    Distribute(x - lo, lo, p);
    Distribute(hi - x, x, p);
    MulAtLeast(hi - x, p);
    assert (x - lo) * p >= 0;
  }

  lemma OrZero(x: Limb)
    ensures LimbOr(0, x) == x && LimbOr(x, 0) == x
  {
  }

  /** Limb `j` of a left shift after the first `i` source limbs have been placed. */
  ghost function PartlyLeft(a: seq<Limb>, k: nat, t: nat, i: nat, j: nat): nat
    requires t < 32 && i <= |a| && j < |a|
  {
    if j < k || j > k + i then 0
    else (if j < k + i then Lo(a[j - k], t) else 0) + HiBelow(a, j - k, t)
  }

  lemma PartlyNone(a: seq<Limb>, k: nat, t: nat)
    requires t < 32
    ensures forall j :: 0 <= j < |a| ==> PartlyLeft(a, k, t, 0, j) == 0
  {
    hide Lo, Hi;
  }

  lemma PartlyAll(a: seq<Limb>, r: seq<Limb>, k: nat, t: nat)
    requires t < 32 && |a| == |r| == WIDTH && forall j :: 0 <= j < WIDTH ==> r[j] == PartlyLeft(a, k, t, WIDTH, j)
    ensures ShiftedLeft(a, r, k, t)
  {
    hide Lo, Hi;
  }

  lemma NothingMoved(x: Limb, t: nat)
    requires t < 32
    ensures t == 0 ==> Hi(x, t) == 0
  {
  }

  lemma NothingHanded(x: Limb, t: nat)
    requires t < 32
    ensures t == 0 ==> Handed(x, t) == 0
    ensures LimbOr(0, Handed(x, t)) == Handed(x, t)
  {
  }

  /** Limb `j` of a right shift after the first `i` source limbs have been placed. */
  ghost function PartlyRight(a: seq<Limb>, k: nat, t: nat, i: nat, j: nat): nat
    requires t < 32 && i <= |a|
  {
    (if j + k < i then Retained(a[j + k], t) else 0) + (if j + k + 1 < i then Handed(a[j + k + 1], t) else 0)
  }

  lemma NoLimbs()
    ensures Val([]) == 0 && W(0, 0) == 0 && Pow(BASE, 0) == 1
  {
  }

  lemma WTop(c: nat)
    ensures W(c, WIDTH) == c * MODULUS
  {
  }

  lemma TwoLimbs(s: seq<Limb>)
    requires |s| == WIDTH && forall i :: 2 <= i < WIDTH ==> s[i] == 0
    ensures Val(s) == s[0] + s[1] * BASE
  {
    ValCons(s);
    ValCons(s[1..]);
    ValZero(s[1..][1..]);
  }

  lemma {:induction false} LowLimbs(s: seq<Limb>)
    requires |s| == WIDTH
    ensures Val(s) % (BASE * BASE) == s[0] + s[1] * BASE
  {
    ValCons(s);
    ValCons(s[1..]);
    var u := Val(s[1..][1..]);
    DivUnique(Val(s), BASE * BASE, u, s[0] + s[1] * BASE);
  }

  lemma {:induction false} AllOnes(s: seq<Limb>)
    requires forall j :: 0 <= j < |s| ==> s[j] == BASE - 1
    ensures Val(s) + 1 == Pow(BASE, |s|)
  {
    if s != [] {
      AllOnes(s[..|s| - 1]);
      NotStep(0, |s| - 1);
      WZero(|s| - 1);
    }
  }

  /** Limbs below `i` wrap from all ones to zero, limb `i` goes up by one. */
  lemma {:induction false} CarryChain(x: seq<Limb>, r: seq<Limb>, i: nat)
    requires |x| == |r| == WIDTH && i < WIDTH
    requires r[i] == (x[i] + 1) % BASE && r[i + 1..] == x[i + 1..]
    requires forall j :: 0 <= j < i ==> r[j] == 0 && x[j] == BASE - 1
    requires r[i] != 0 || i == WIDTH - 1
    ensures Val(r) == (Val(x) + 1) % MODULUS
  {
    hide Val, Pow, W;
    ValBound(r);
    if x[i] + 1 < BASE {
      ChainParts(x, r, i);
      WAdd(x[i], 1, i);
      WOne(i);
      DivUnique(Val(x) + 1, MODULUS, 0, Val(r));
    } else {
      AllOnes(x);
      ValZero(r);
      DivUnique(Val(x) + 1, MODULUS, 1, 0);
    }
  }

  lemma WOne(i: nat)
    ensures W(1, i) == Pow(BASE, i)
  {
  }

  /** Everything above limb `i` is as before. */
  lemma {:induction false} ChainParts(x: seq<Limb>, r: seq<Limb>, i: nat)
    requires |x| == |r| == WIDTH && i < WIDTH && r[i + 1..] == x[i + 1..]
    requires forall j :: 0 <= j < i ==> r[j] == 0 && x[j] == BASE - 1
    ensures Val(r) + W(x[i], i) + Pow(BASE, i) == Val(x) + 1 + W(r[i], i)
  {
    hide Pow, W, Val;
    AllOnes(x[..i]);
    ValZero(r[..i]);
    ValPrefix(x, i);
    ValPrefix(r, i);
    assert x == x[..i + 1] + x[i + 1..] && r == r[..i + 1] + r[i + 1..];
    ValConcat(x[..i + 1], x[i + 1..]);
    ValConcat(r[..i + 1], r[i + 1..]);
  }
}
