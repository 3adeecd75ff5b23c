/**
 What moving bits across limbs does to the number: the two parts of a shifted limb,
 and the value of the limbs a left or right shift leaves.
 */
module LimbShifts {
  import opened Limbs

  /** The part of a limb that stays in its place when shifted left by `t` bits. */
  function Lo(v: Limb, t: nat): Limb { (v * Pow(2, t)) % BASE }

  /** The part of a limb that moves to the next one when shifted left by `t` bits. */
  function Hi(v: Limb, t: nat): Limb
    requires t < 32
  {
    if t == 0 then 0
    else
      assert v / Pow(2, 32 - t) <= v by { DivDefinition(v, Pow(2, 32 - t)); MulAtMost(v / Pow(2, 32 - t), Pow(2, 32 - t)); }
      v / Pow(2, 32 - t)
  }

  lemma MulAtMost(q: nat, m: nat)
    requires m >= 1
    ensures q * m >= q
  {
    Distribute(m - 1, 1, q);
  }

  lemma PowSplit(t: nat)
    requires t <= 32
    ensures Pow(2, t) * Pow(2, 32 - t) == BASE
  {
    PowAdd(2, t, 32 - t);
    Pow2To32();
  }

  /** The two parts make up the shifted limb, and do not overlap. */
  lemma {:induction false} Parts(v: Limb, t: nat)
    requires t < 32
    ensures v * Pow(2, t) == Lo(v, t) + BASE * Hi(v, t)
    ensures Hi(v, t) < Pow(2, t) && Multiple(Lo(v, t), Pow(2, t))
  {
    hide Multiple, Pow;
    PowSplit(t);
    if t == 0 {
      NoShift(v);
    } else {
      CutLimb(v, Pow(2, 32 - t), Pow(2, t));
      HighPartSmall(v, Pow(2, 32 - t), Pow(2, t));
    }
  }

  lemma NoShift(v: Limb)
    ensures Pow(2, 0) == 1 && v * Pow(2, 0) == v && Lo(v, 0) == v && Multiple(v, Pow(2, 0))
  {
  }

  /** Multiplying by `q` a number cut at `p`, where `p q` is the base. */
  lemma {:induction false} CutLimb(v: Limb, p: nat, q: nat)
    requires p > 0 && q > 0 && q * p == BASE
    ensures v * q == (v % p) * q + BASE * (v / p)
    ensures (v * q) % BASE == (v % p) * q && Multiple((v % p) * q, q)
  {
    var h, l := v / p, v % p;
    DivDefinition(v, p);
    Regroup(h, p, l, q);
    DigitBound(l, p, 0, q);
    DivUnique(v * q, BASE, h, l * q);
    DivUnique(l * q, q, l, 0);
  }

  lemma HighPartSmall(v: nat, p: nat, q: nat)
    requires p > 0 && v < q * p
    ensures v / p < q
  {
    DivDefinition(v, p);
    if v / p >= q { Distribute(v / p - q, q, p); }
  }

  /** Parts of two neighbouring limbs put together are their sum, and fit one limb. */
  lemma {:induction false} OrParts(v: Limb, u: Limb, t: nat)
    requires t < 32
    ensures Lo(v, t) + Hi(u, t) < BASE && LimbOr(Hi(u, t), Lo(v, t)) == Lo(v, t) + Hi(u, t)
  {
    hide Lo, Hi, Pow, BitOr, Multiple;
    Parts(v, t);
    Parts(u, t);
    OrDisjoint(Lo(v, t), Hi(u, t), t);
    var o: Limb := LimbOr(Hi(u, t), Lo(v, t));
  }

  function HiBelow(a: seq<Limb>, m: nat, t: nat): Limb
    requires m <= |a| && t < 32
  {
    if m == 0 then 0 else Hi(a[m - 1], t)
  }

  /** Limbs shifted left by fewer than 32 bits hold the product, less what moved out at the top. */
  lemma {:induction false} ShlSmall(a: seq<Limb>, r: seq<Limb>, t: nat, m: nat)
    requires t < 32 && m <= |r| <= |a|
    requires forall j :: 0 <= j < |r| ==> r[j] == Lo(a[j], t) + HiBelow(a, j, t)
    ensures Val(r[..m]) + W(HiBelow(a, m, t), m) == Pow(2, t) * Val(a[..m])
  {
    hide Val, W, Pow, Lo, Hi;
    if m > 0 {
      var i := m - 1;
      ShlSmall(a, r, t, i);
      Parts(a[i], t);
      ValPrefix(a, i);
      ValPrefix(r, i);
      WAdd(Lo(a[i], t), HiBelow(a, i, t), i);
      WUp(Hi(a[i], t), i);
      WAdd(Lo(a[i], t), BASE * Hi(a[i], t), i);
      WScale(a[i], Pow(2, t), i);
      assert Pow(2, t) * (Val(a[..i]) + W(a[i], i)) == Pow(2, t) * Val(a[..i]) + Pow(2, t) * W(a[i], i);
    } else {
      WZero(0);
      assert Val([]) == 0 by { ValZero([]); }
    }
  }

  lemma WScale(x: nat, q: nat, i: nat)
    ensures W(x * q, i) == q * W(x, i)
  {
    var p := Pow(BASE, i);
    assert (x * q) * p == q * (x * p) by { MulAssoc(q, x, p); }
  }

  /** The limbs a left shift by `32 k + t` leaves. */
  ghost predicate ShiftedLeft(a: seq<Limb>, r: seq<Limb>, k: nat, t: nat)
    requires t < 32
  {
    && |r| == |a|
    && (forall j :: 0 <= j < k && j < |r| ==> r[j] == 0)
    && (forall j :: k <= j < |r| ==> r[j] == Lo(a[j - k], t) + HiBelow(a, j - k, t))
  }

  lemma ShiftLeftValue(a: seq<Limb>, r: seq<Limb>, k: nat, t: nat)
    requires t < 32 && ShiftedLeft(a, r, k, t)
    ensures Val(r) == (Val(a) * Pow(2, 32 * k + t)) % Pow(BASE, |a|)
  {
    hide Val, W;
    var m := Pow(BASE, |a|);
    PowAdd(2, 32 * k, t);
    PowBase(k);
    if k >= |a| {
      ValZero(r);
      PowAdd(BASE, |a|, k - |a|);
      FullMultiple(Val(a), Pow(BASE, |a|), Pow(BASE, k - |a|), Pow(2, t));
    } else {
      var n := |a| - k;
      var hi := r[k..];
      ShlSmall(a, hi, t, n);
      assert hi[..n] == hi;
      assert r == r[..k] + r[k..];
      ValZero(r[..k]);
      ValConcat(r[..k], r[k..]);
      assert a == a[..n] + a[n..];
      ValConcat(a[..n], a[n..]);
      PowAdd(BASE, n, k);
      ValBound(r);
      ShiftEquation(Val(a[..n]), Val(a[n..]), Val(hi), HiBelow(a, n, t), Pow(2, t), Pow(BASE, k), Pow(BASE, n), n);
      DivUnique(Val(a) * (Pow(BASE, k) * Pow(2, t)), m, HiBelow(a, n, t) + Pow(2, t) * Val(a[n..]), Val(r));
    }
  }

  lemma {:induction false} FullMultiple(v: nat, m: nat, c: nat, q: nat)
    requires m > 0
    ensures (v * ((m * c) * q)) % m == 0
  {
    assert v * ((m * c) * q) == 0 + (v * c * q) * m by {
      MulAssoc(m, c, q);
      MulAssoc(v, m, c * q);
      MulAssoc(v, c, q);
      assert v * (m * (c * q)) == (v * (c * q)) * m;
    }
    DivUnique(v * ((m * c) * q), m, v * c * q, 0);
  }

  lemma ShiftEquation(lo: nat, up: nat, hi: nat, c: nat, q: nat, pk: nat, pn: nat, n: nat)
    requires pn == Pow(BASE, n) && hi + W(c, n) == q * lo
    ensures (lo + pn * up) * (pk * q) == pk * hi + (c + q * up) * (pn * pk)
  {
    calc {
      (lo + pn * up) * (pk * q);
      { MulAssoc(lo + pn * up, q, pk); }
      ((lo + pn * up) * q) * pk;
      { Distribute(lo, pn * up, q); }
      (lo * q + (pn * up) * q) * pk;
      { assert (pn * up) * q == (q * up) * pn by { MulAssoc(pn, up, q); MulAssoc(q, up, pn); } }
      (hi + c * pn + (q * up) * pn) * pk;
      { Distribute(c, q * up, pn); }
      (hi + (c + q * up) * pn) * pk;
      { Distribute(hi, (c + q * up) * pn, pk); MulAssoc(c + q * up, pn, pk); }
      hi * pk + (c + q * up) * (pn * pk);
    }
  }

  // ---------------------------------------------------------------- right shifts

  /** What a limb keeps when shifted right by `t` bits. */
  function Retained(v: Limb, t: nat): Limb
    requires t < 32
  {
    assert v / Pow(2, t) <= v by { DivDefinition(v, Pow(2, t)); MulAtMost(v / Pow(2, t), Pow(2, t)); }
    v / Pow(2, t)
  }

  /** What a limb hands down to the one below when shifted right by `t` bits. */
  function Handed(v: Limb, t: nat): Limb
    requires t < 32
  {
    if t == 0 then 0 else Lo(v, 32 - t)
  }

  lemma RetainedIsHi(v: Limb, t: nat)
    requires 0 < t < 32
    ensures Retained(v, t) == Hi(v, 32 - t) && Handed(v, t) == Lo(v, 32 - t)
  {
  }

  lemma OrRight(v: Limb, u: Limb, t: nat)
    requires t < 32
    ensures Retained(v, t) + Handed(u, t) < BASE && LimbOr(Handed(u, t), Retained(v, t)) == Retained(v, t) + Handed(u, t)
    ensures LimbOr(Retained(v, t), Handed(u, t)) == Retained(v, t) + Handed(u, t)
  {
    if t == 0 {
    } else {
      hide Lo, Hi, Pow, BitOr, Multiple;
      RetainedIsHi(v, t);
      RetainedIsHi(u, t);
      Parts(v, 32 - t);
      Parts(u, 32 - t);
      OrDisjoint(Lo(u, 32 - t), Hi(v, 32 - t), 32 - t);
      var o: Limb := LimbOr(Handed(u, t), Retained(v, t));
    }
  }

  /** The limbs a right shift by `32 k + t` leaves. */
  ghost predicate ShiftedRight(a: seq<Limb>, r: seq<Limb>, k: nat, t: nat)
    requires t < 32
  {
    && |r| == |a|
    && (forall j :: 0 <= j < |r| ==> r[j] == RightLimb(a, j + k, t))
  }

  ghost function RightLimb(a: seq<Limb>, i: nat, t: nat): nat
    requires t < 32
  {
    if i >= |a| then 0 else Retained(a[i], t) + (if i + 1 < |a| then Handed(a[i + 1], t) else 0)
  }

  lemma ShiftRightValue(a: seq<Limb>, r: seq<Limb>, k: nat, t: nat)
    requires t < 32 && ShiftedRight(a, r, k, t)
    ensures Val(r) == Val(a) / Pow(2, 32 * k + t)
  {
    hide Val, Pow;
    PowAdd(2, 32 * k, t);
    PowBase(k);
    if k >= |a| {
      ValZero(r);
      ValBound(a);
      PowMonotone(BASE, |a|, k);
      DivDiv(Val(a), Pow(BASE, k), Pow(2, t));
      DivUnique(Val(a), Pow(BASE, k), 0, Val(a));
      DivUnique(0, Pow(2, t), 0, 0);
    } else {
      assert a == a[..k] + a[k..];
      ValConcat(a[..k], a[k..]);
      ValBound(a[..k]);
      DivUnique(Val(a), Pow(BASE, k), Val(a[k..]), Val(a[..k]));
      DivDiv(Val(a), Pow(BASE, k), Pow(2, t));
      var n := |a| - k;
      assert r == r[..n] + r[n..];
      ValZero(r[n..]);
      ValConcat(r[..n], r[n..]);
      ShrSmall(a[k..], r[..n], t);
    }
  }

  lemma {:induction false} ShrSmall(a: seq<Limb>, r: seq<Limb>, t: nat)
    requires t < 32 && |r| == |a| > 0
    requires forall j :: 0 <= j < |r| ==> r[j] == RightLimb(a, j, t)
    ensures Val(r) == Val(a) / Pow(2, t)
  {
    if t == 0 {
      forall j | 0 <= j < |r| ensures r[j] == a[j] { DivUnique(a[j], 1, a[j], 0); }
      assert r == a;
      DivUnique(Val(a), 1, Val(a), 0);
    } else {
      ShrPositive(a, r, t);
    }
  }

  /** Shifting right by `t` is shifting left by `32 - t` and dropping the lowest limb. */
  lemma {:induction false} ShrPositive(a: seq<Limb>, r: seq<Limb>, t: nat)
    requires 0 < t < 32 && |r| == |a| > 0
    requires forall j :: 0 <= j < |r| ==> r[j] == RightLimb(a, j, t)
    ensures Val(r) == Val(a) / Pow(2, t)
  {
    hide Val, Pow, W, Lo, Hi;
    var u, n := 32 - t, |a|;
    var low := Lo(a[0], u);
    var l := [low] + r[..n - 1];
    forall j | 0 <= j < n ensures l[j] == Lo(a[j], u) + HiBelow(a, j, u) {
      if j > 0 { RetainedIsHi(a[j - 1], t); RetainedIsHi(a[j], t); }
    }
    ShlSmall(a, l, u, n);
    RetainedIsHi(a[n - 1], t);
    assert l[..n] == l && a[..n] == a;
    assert l + [r[n - 1]] == [low] + r;
    ValSnoc(l, r[n - 1]);
    ValCons([low] + r);
    assert ([low] + r)[1..] == r;
    DivUnique(Pow(2, u) * Val(a), BASE, Val(r), low);
    PowSplit(u);
    DivCancel(Val(a), Pow(2, u), Pow(2, t));
  }

  lemma {:induction false} DivCancel(x: nat, c: nat, m: nat)
    requires c > 0 && m > 0
    ensures c * m > 0 && (c * x) / (c * m) == x / m
  {
    DivDiv(c * x, c, m);
    DivUnique(c * x, c, x, 0);
  }
}
