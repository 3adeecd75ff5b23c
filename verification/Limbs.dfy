/**
 Numbers as sequences of 32-bit limbs, least significant first, and the bit
 operations on single limbs.
 */
module Limbs {

  const BASE: nat := 0x1_0000_0000

  type Limb = x: nat | x < BASE

  function Pow(b: nat, n: nat): (p: nat)
    ensures b > 0 ==> p > 0
  {
    if n == 0 then 1 else b * Pow(b, n - 1)
  }

  lemma {:induction false} PowAdd(b: nat, m: nat, n: nat)
    ensures Pow(b, m + n) == Pow(b, m) * Pow(b, n)
  {
    if m > 0 {
      PowAdd(b, m - 1, n);
      MulAssoc(b, Pow(b, m - 1), Pow(b, n));
    }
  }

  lemma MulAssoc(x: int, y: int, z: int)
    ensures x * (y * z) == (x * y) * z
  {
  }

  lemma {:induction false} PowMonotone(b: nat, m: nat, n: nat)
    requires b > 0 && m <= n
    ensures Pow(b, m) <= Pow(b, n)
  {
    if m < n {
      PowMonotone(b, m, n - 1);
      assert b * Pow(b, n - 1) >= Pow(b, n - 1);
    }
  }

  lemma Pow2To32()
    ensures Pow(2, 32) == BASE
  {
    assert Pow(2, 8) == 256;
    PowAdd(2, 8, 8);
    PowAdd(2, 16, 16);
  }

  lemma {:induction false} PowBase(n: nat)
    ensures Pow(BASE, n) == Pow(2, 32 * n)
  {
    if n > 0 {
      PowBase(n - 1);
      Pow2To32();
      PowAdd(2, 32, 32 * (n - 1));
    }
  }

  /** The weight of `x` at limb position `i`. */
  function W(x: nat, i: nat): nat { x * Pow(BASE, i) }

  lemma WAdd(x: nat, y: nat, i: nat)
    ensures W(x + y, i) == W(x, i) + W(y, i)
  {
    Distribute(x, y, Pow(BASE, i));
  }

  lemma WZero(i: nat)
    ensures W(0, i) == 0
  {
  }

  /** A carry moves up one position. */
  lemma WCarry(n: nat, i: nat)
    ensures W(n % BASE, i) + W(n / BASE, i + 1) == W(n, i)
  {
    SplitCarry(n, Pow(BASE, i));
  }

  lemma WUp(x: nat, i: nat)
    ensures W(BASE * x, i) == W(x, i + 1)
  {
    var p := Pow(BASE, i);
    assert (BASE * x) * p == x * (BASE * p) by { MulAssoc(x, BASE, p); }
  }

  /** The number a sequence of limbs stands for. */
  function Val(s: seq<Limb>): nat {
    if s == [] then 0 else Val(s[..|s| - 1]) + W(s[|s| - 1], |s| - 1)
  }

  lemma ValSnoc(s: seq<Limb>, x: Limb)
    ensures Val(s + [x]) == Val(s) + W(x, |s|)
  {
    assert (s + [x])[..|s|] == s;
  }

  lemma ValPrefix(s: seq<Limb>, i: nat)
    requires i < |s|
    ensures Val(s[..i + 1]) == Val(s[..i]) + W(s[i], i)
  {
    assert s[..i + 1] == s[..i] + [s[i]];
    ValSnoc(s[..i], s[i]);
  }

  lemma {:induction false} ValConcat(s: seq<Limb>, t: seq<Limb>)
    ensures Val(s + t) == Val(s) + Pow(BASE, |s|) * Val(t)
  {
    if t == [] {
      assert s + t == s;
    } else {
      var r, x := t[..|t| - 1], t[|t| - 1];
      assert s + t == (s + r) + [x];
      ValConcat(s, r);
      ValSnoc(s + r, x);
      PowAdd(BASE, |s|, |r|);
      MulShuffle(Pow(BASE, |s|), Val(r), x, Pow(BASE, |r|));
    }
  }

  lemma MulShuffle(p: nat, v: nat, x: nat, q: nat)
    ensures p * v + x * (p * q) == p * (v + x * q)
  {
  }

  lemma ValCons(s: seq<Limb>)
    requires s != []
    ensures Val(s) == s[0] + BASE * Val(s[1..])
  {
    assert s == [s[0]] + s[1..];
    ValConcat([s[0]], s[1..]);
    assert Pow(BASE, 1) == BASE * Pow(BASE, 0);
    assert Val([s[0]]) == s[0];
  }

  lemma LimbTimes(x: Limb, p: nat)
    ensures x * p + p <= BASE * p
  {
    Distribute(x, BASE - x, p);
    MulAtLeast(BASE - x, p);
  }

  lemma {:induction false} ValBound(s: seq<Limb>)
    ensures Val(s) < Pow(BASE, |s|)
  {
    if s != [] {
      ValBound(s[..|s| - 1]);
      LimbTimes(s[|s| - 1], Pow(BASE, |s| - 1));
    }
  }

  lemma {:induction false} ValZero(s: seq<Limb>)
    requires forall i :: 0 <= i < |s| ==> s[i] == 0
    ensures Val(s) == 0
  {
    if s != [] { ValZero(s[..|s| - 1]); }
  }

  /** Changing one limb changes the value by that limb's weight. */
  lemma ValUpdate(s: seq<Limb>, i: nat, x: Limb)
    requires i < |s|
    ensures Val(s[i := x]) == Val(s) - W(s[i], i) + W(x, i)
  {
    var lo, hi := s[..i], s[i + 1..];
    assert s == lo + [s[i]] + hi && s[i := x] == lo + [x] + hi;
    ValConcat(lo + [s[i]], hi);
    ValConcat(lo + [x], hi);
    ValSnoc(lo, s[i]);
    ValSnoc(lo, x);
  }

  /** Splitting off the low limb of a two-limb sum. */
  lemma SplitCarry(n: nat, p: nat)
    ensures (n % BASE) * p + (n / BASE) * (BASE * p) == n * p
  {
    assert n == n % BASE + (n / BASE) * BASE;
    Distribute(n % BASE, (n / BASE) * BASE, p);
    MulAssoc(n / BASE, BASE, p);
  }

  lemma Distribute(x: int, y: int, p: int)
    ensures (x + y) * p == x * p + y * p
  {
  }

  lemma MulAtLeast(a: int, m: int)
    requires a >= 1 && m >= 0
    ensures a * m >= m
  {
    Distribute(a - 1, 1, m);
    assert (a - 1) * m >= 0;
  }

  /** Quotient and remainder are the only numbers that fit together as such. */
  lemma {:induction false} DivUnique(x: int, m: int, q: int, r: int)
    requires m > 0 && 0 <= r < m && x == r + q * m
    ensures x / m == q && x % m == r
  {
    var q', r' := x / m, x % m;
    DivDefinition(x, m);
    var d := q - q';
    Distribute(q', d, m);
    if d > 0 { MulAtLeast(d, m); }
    if d < 0 { MulAtLeast(-d, m); }
  }

  lemma DivDefinition(x: int, m: int)
    requires m > 0
    ensures x == (x / m) * m + x % m && 0 <= x % m < m
  {
  }

  // ---------------------------------------------------------------- bits of a limb

  function BitOr(x: nat, y: nat): nat {
    if x == 0 then y else if y == 0 then x
    else (if x % 2 == 1 || y % 2 == 1 then 1 else 0) + 2 * BitOr(x / 2, y / 2)
  }

  lemma {:induction false} OrBound(x: nat, y: nat, k: nat)
    requires x < Pow(2, k) && y < Pow(2, k)
    ensures BitOr(x, y) < Pow(2, k)
  {
    if x != 0 && y != 0 { OrBound(x / 2, y / 2, k - 1); }
  }

  function LimbOr(x: Limb, y: Limb): Limb {
    Pow2To32();
    OrBound(x, y, 32);
    BitOr(x, y)
  }

  predicate Multiple(x: nat, m: nat)
    requires m > 0
  {
    x % m == 0
  }

  /** Bits that do not overlap can be added. */
  lemma {:induction false} OrDisjoint(x: nat, y: nat, k: nat)
    requires Multiple(x, Pow(2, k)) && y < Pow(2, k)
    ensures BitOr(x, y) == x + y && BitOr(y, x) == x + y
  {
    if x != 0 && y != 0 {
      var p := Pow(2, k - 1);
      HalfOfMultiple(x, p);
      OrDisjoint(x / 2, y / 2, k - 1);
    }
  }

  lemma {:induction false} HalfOfMultiple(x: nat, p: nat)
    requires p > 0 && Multiple(x, 2 * p)
    ensures x % 2 == 0 && Multiple(x / 2, p)
  {
    var q := x / (2 * p);
    DivDefinition(x, 2 * p);
    assert x == q * (2 * p);
    MulAssoc(2, q, p);
    assert q * (2 * p) == 2 * (q * p) by { MulAssoc(q, 2, p); MulAssoc(2, q, p); }
    DivUnique(x / 2, p, q, 0);
  }

  function BitAnd(x: nat, y: nat): nat {
    if x == 0 || y == 0 then 0
    else (if x % 2 == 1 && y % 2 == 1 then 1 else 0) + 2 * BitAnd(x / 2, y / 2)
  }

  /** Testing one bit. */
  lemma {:induction false} AndBit(x: nat, k: nat)
    ensures BitAnd(x, Pow(2, k)) != 0 <==> (x / Pow(2, k)) % 2 == 1
  {
    if k > 0 && x > 0 {
      AndBit(x / 2, k - 1);
      DivDiv(x, 2, Pow(2, k - 1));
      assert Pow(2, k) / 2 == Pow(2, k - 1) && Pow(2, k) % 2 == 0;
    } else if x > 0 {
      assert BitAnd(x / 2, 0) == 0;
    } else {
      DivUnique(0, Pow(2, k), 0, 0);
    }
  }

  lemma {:induction false} DivDiv(x: nat, a: nat, b: nat)
    requires a > 0 && b > 0
    ensures a * b > 0 && x / (a * b) == (x / a) / b
    ensures x % (a * b) == (x / a % b) * a + x % a
  {
    MulAtLeast(a, b);
    DivDefinition(x, a);
    DivDefinition(x / a, b);
    var q, r := (x / a) / b, x / a % b;
    Regroup(q, b, r, a);
    DigitBound(r, b, x % a, a);
    DivUnique(x, a * b, q, r * a + x % a);
  }

  lemma Regroup(q: int, b: int, r: int, a: int)
    ensures (q * b + r) * a == q * (a * b) + r * a
  {
    Distribute(q * b, r, a);
    MulAssoc(q, b, a);
  }

  lemma {:induction false} DigitBound(r: int, b: int, d: int, a: int)
    requires 0 <= r < b && 0 <= d < a
    ensures 0 <= r * a + d < a * b
  {
    Distribute(r, b - r, a);
    MulAtLeast(b - r, a);
    assert r * a >= 0;
  }
}
