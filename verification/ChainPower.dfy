/**
 The order on chains by work and stake together: each is scaled to 16 bits relative
 to the larger of the two chains compared, and the sums are compared.
 */
module ChainPower {
  import opened Limbs
  import opened BaseUint

  /** What two 256-bit accumulators hold. */
  datatype Power = Power(work: nat, stake: nat)

  predicate InRange(p: Power) { p.work < MODULUS && p.stake < MODULUS }

  /** Amounts that can be scaled by 2^16 without losing bits. */
  predicate Scalable(p: Power) { p.work * 0x1_0000 < MODULUS && p.stake * 0x1_0000 < MODULUS }

  /** These are the amounts below 2^240. */
  lemma ScalableBelow(p: Power)
    ensures Scalable(p) <==> p.work < Pow(2, 240) && p.stake < Pow(2, 240)
  {
    ScalingKeeps(p.work, 1);
    ScalingKeeps(p.stake, 1);
    WidthIs();
  }

  lemma WidthIs()
    ensures MODULUS == Pow(2, 240) * 65536
  {
    PowBase(WIDTH);
    PowAdd(2, 240, 16);
    Pow2To16();
  }

  /** The larger amount, or one if both are zero. */
  function Divisor(a: nat, b: nat): (d: nat)
    ensures d > 0
  {
    if a > b then a else if b != 0 then b else 1
  }

  /** One amount, shifted left by 16 bits and divided. */
  function Share(a: nat, d: nat): nat
    requires d > 0
  {
    ((a * 0x1_0000) % MODULUS) / d
  }

  function Score(p: Power, wd: nat, sd: nat): nat
    requires wd > 0 && sd > 0
  {
    (Share(p.work, wd) + Share(p.stake, sd)) % MODULUS
  }

  function ScoreIn(p: Power, p1: Power, p2: Power): nat {
    Score(p, Divisor(p1.work, p2.work), Divisor(p1.stake, p2.stake))
  }

  predicate Less(p1: Power, p2: Power) { ScoreIn(p1, p1, p2) < ScoreIn(p2, p1, p2) }

  predicate LessEq(p1: Power, p2: Power) { ScoreIn(p1, p1, p2) <= ScoreIn(p2, p1, p2) }

  predicate Equal(p1: Power, p2: Power) { ScoreIn(p1, p1, p2) == ScoreIn(p2, p1, p2) }

  predicate Greater(p1: Power, p2: Power) { !LessEq(p1, p2) }

  lemma DivisorSymmetric(a: nat, b: nat)
    ensures Divisor(a, b) == Divisor(b, a)
  {
  }

  /** Of any two chains exactly one of less, equal and greater holds, in agreement with the swapped comparison. */
  lemma Trichotomy(p1: Power, p2: Power)
    ensures (Less(p1, p2) && !Equal(p1, p2) && !Greater(p1, p2))
         || (!Less(p1, p2) && Equal(p1, p2) && !Greater(p1, p2))
         || (!Less(p1, p2) && !Equal(p1, p2) && Greater(p1, p2))
    ensures LessEq(p1, p2) <==> Less(p1, p2) || Equal(p1, p2)
    ensures Greater(p1, p2) <==> Less(p2, p1)
    ensures Equal(p1, p2) <==> Equal(p2, p1)
  {
    DivisorSymmetric(p1.work, p2.work);
    DivisorSymmetric(p1.stake, p2.stake);
  }

  // ---------------------------------------------------------------- the shares

  lemma ModulusBig()
    ensures MODULUS >= BASE * BASE
  {
    PowMonotone(BASE, 2, WIDTH);
    assert Pow(BASE, 2) == BASE * (BASE * Pow(BASE, 0));
  }

  /** Below 2^240 a share is the exact scaled quotient: all of it for the divisor, none for nothing, less for less. */
  lemma {:induction false} ShareFacts(a: nat, d: nat)
    requires a * 0x1_0000 < MODULUS && a <= d && d > 0
    ensures Share(a, d) == (a * 0x1_0000) / d <= 0x1_0000
    ensures a == d ==> Share(a, d) == 0x1_0000
    ensures a < d ==> Share(a, d) < 0x1_0000
    ensures a == 0 ==> Share(a, d) == 0
  {
    DivUnique(a * 0x1_0000, MODULUS, 0, a * 0x1_0000);
    DivDefinition(a * 0x1_0000, d);
    if a == d { DivUnique(a * 0x1_0000, d, 0x1_0000, 0); }
    if a < d && (a * 0x1_0000) / d >= 0x1_0000 {
      Distribute((a * 0x1_0000) / d - 0x1_0000, 0x1_0000, d);
    }
    if a == 0 { DivUnique(0, d, 0, 0); }
  }

  lemma {:induction false} ScoreFacts(p: Power, wd: nat, sd: nat)
    requires Scalable(p) && p.work <= wd && p.stake <= sd && wd > 0 && sd > 0
    ensures Score(p, wd, sd) == Share(p.work, wd) + Share(p.stake, sd)
  {
    ShareFacts(p.work, wd);
    ShareFacts(p.stake, sd);
    ModulusBig();
    DivUnique(Share(p.work, wd) + Share(p.stake, sd), MODULUS, 0, Share(p.work, wd) + Share(p.stake, sd));
  }

  /** A smaller scaled quotient means a smaller fraction. */
  lemma {:induction false} FractionLess(a: nat, b: nat, c: nat, d: nat)
    requires b > 0 && d > 0 && (a * 0x1_0000) / b < (c * 0x1_0000) / d
    ensures a * d < c * b
  {
    var x, y := (a * 0x1_0000) / b, (c * 0x1_0000) / d;
    DivDefinition(a * 0x1_0000, b);
    DivDefinition(c * 0x1_0000, d);
    assert a * 0x1_0000 < (x + 1) * b by { Distribute(x, 1, b); }
    assert (x + 1) * b <= y * b by { Distribute(y - x - 1, x + 1, b); assert (y - x - 1) * b >= 0; }
    assert y * d <= c * 0x1_0000;
    CrossMultiply(a, b, c, d, y);
  }

  lemma CrossMultiply(a: nat, b: nat, c: nat, d: nat, y: nat)
    requires d > 0 && a * 0x1_0000 < y * b && y * d <= c * 0x1_0000
    ensures a * d < c * b
  {
    assert (a * 0x1_0000) * d < (y * b) * d by { StrictMul(a * 0x1_0000, y * b, d); }
    assert (y * d) * b <= (c * 0x1_0000) * b by { MulMonotone(y * d, c * 0x1_0000, b); }
    assert (y * b) * d == (y * d) * b by { MulAssoc(y, b, d); MulAssoc(y, d, b); }
    assert (a * 0x1_0000) * d == (a * d) * 0x1_0000 by { MulAssoc(a, 0x1_0000, d); MulAssoc(a, d, 0x1_0000); }
    assert (c * 0x1_0000) * b == (c * b) * 0x1_0000 by { MulAssoc(c, 0x1_0000, b); MulAssoc(c, b, 0x1_0000); }
  }

  // ---------------------------------------------------------------- the order

  /** A measure that grows along the order: first work times stake, then their sum. */
  predicate Below(p1: Power, p2: Power) {
    || p1.work * p1.stake < p2.work * p2.stake
    || (p1.work * p1.stake == p2.work * p2.stake && p1.work + p1.stake < p2.work + p2.stake)
  }

  /** A smaller chain is smaller in both respects, or in the product of the two. */
  lemma {:induction false} LessShape(p1: Power, p2: Power)
    requires Scalable(p1) && Scalable(p2) && Less(p1, p2)
    ensures (p1.work <= p2.work && p1.stake <= p2.stake && p1 != p2) || p1.work * p1.stake < p2.work * p2.stake
  {
    hide Score, Share;
    var wd, sd := Divisor(p1.work, p2.work), Divisor(p1.stake, p2.stake);
    ScoreFacts(p1, wd, sd);
    ScoreFacts(p2, wd, sd);
    ShareFacts(p1.work, wd);
    ShareFacts(p1.stake, sd);
    ShareFacts(p2.work, wd);
    ShareFacts(p2.stake, sd);
    if p1.work > p2.work {
      FractionLess(p1.stake, sd, p2.work, wd);
      Commute(p1.stake, p1.work);
    } else if p1.stake > p2.stake {
      FractionLess(p1.work, wd, p2.stake, sd);
      Commute(p2.stake, p2.work);
    }
  }

  lemma Commute(x: nat, y: nat)
    ensures x * y == y * x
  {
  }

  /** Along the order, work times stake grows; or it stays, and work plus stake grows. */
  lemma {:induction false} LessGrows(p1: Power, p2: Power)
    requires Scalable(p1) && Scalable(p2) && Less(p1, p2)
    ensures Below(p1, p2)
  {
    hide Less;
    LessShape(p1, p2);
    if p1.work <= p2.work && p1.stake <= p2.stake {
      MulMonotone(p1.work, p2.work, p1.stake);
      MulMonotone(p1.stake, p2.stake, p2.work);
      Commute(p1.stake, p2.work);
      Commute(p2.stake, p2.work);
    }
  }

  /** For chains with some work and some stake, more power means a larger product of the two. */
  lemma {:induction false} LessProduct(p1: Power, p2: Power)
    requires Scalable(p1) && Scalable(p2) && p1.work > 0 && p1.stake > 0 && Less(p1, p2)
    ensures p1.work * p1.stake < p2.work * p2.stake
  {
    hide Less;
    LessShape(p1, p2);
    if p1.work <= p2.work && p1.stake <= p2.stake {
      Commute(p2.stake, p2.work);
      Commute(p1.stake, p2.work);
      MulMonotone(p1.stake, p2.stake, p2.work);
      MulMonotone(p1.work, p2.work, p1.stake);
      if p1.work < p2.work { StrictMul(p1.work, p2.work, p1.stake); } else { StrictMul(p1.stake, p2.stake, p2.work); }
    }
  }

  /** Below is transitive, and irreflexive by definition. */
  lemma {:induction false} ChainGrows(ps: seq<Power>)
    requires |ps| >= 2 && (forall i :: 0 <= i < |ps| ==> Scalable(ps[i]))
    requires forall i :: 0 <= i < |ps| - 1 ==> Less(ps[i], ps[i + 1])
    ensures Below(ps[0], ps[|ps| - 1])
  {
    hide Less;
    var n := |ps|;
    assert Less(ps[n - 2], ps[n - 2 + 1]);
    LessGrows(ps[n - 2], ps[n - 1]);
    if n > 2 { ChainGrows(ps[..n - 1]); }
  }

  /** The order has no cycles: a chain never ends up below itself by way of stronger and stronger chains. */
  lemma {:induction false} NoCycles(ps: seq<Power>)
    requires |ps| >= 2 && (forall i :: 0 <= i < |ps| ==> Scalable(ps[i]))
    requires forall i :: 0 <= i < |ps| - 1 ==> Less(ps[i], ps[i + 1])
    ensures ps[0] != ps[|ps| - 1] && !Less(ps[|ps| - 1], ps[0])
  {
    hide Less;
    ChainGrows(ps);
    if Less(ps[|ps| - 1], ps[0]) { LessGrows(ps[|ps| - 1], ps[0]); }
  }

  /** Between chains of equal stake, the order is the order on work. */
  lemma {:induction false} EqualStakes(p1: Power, p2: Power)
    requires Scalable(p1) && Scalable(p2) && p1.stake == p2.stake
    ensures Less(p1, p2) <==> p1.work < p2.work
    ensures Equal(p1, p2) <==> p1.work == p2.work
  {
    hide Score, Share;
    var wd, sd := Divisor(p1.work, p2.work), Divisor(p1.stake, p2.stake);
    ScoreFacts(p1, wd, sd);
    ScoreFacts(p2, wd, sd);
    ShareFacts(p1.work, wd);
    ShareFacts(p2.work, wd);
  }

  /** No better in either respect, and worse in one. */
  predicate Dominated(a: Power, c: Power) { a.work <= c.work && a.stake <= c.stake && a != c }

  /** More work but less stake. */
  predicate Crosses(a: Power, c: Power) { a.work > c.work && a.stake < c.stake }

  /** The scores of two chains, each in terms of the larger amounts. */
  lemma ScoresInTerms(a: Power, c: Power)
    requires Scalable(a) && Scalable(c)
    ensures Crosses(a, c) ==> ScoreIn(a, a, c) == 0x1_0000 + Share(a.stake, c.stake) && ScoreIn(c, a, c) == Share(c.work, a.work) + 0x1_0000
    ensures Dominated(a, c) ==> ScoreIn(a, a, c) < ScoreIn(c, a, c)
  {
    hide Score, Share;
    var wd, sd := Divisor(a.work, c.work), Divisor(a.stake, c.stake);
    ScoreFacts(a, wd, sd);
    ScoreFacts(c, wd, sd);
    ShareFacts(a.work, wd);
    ShareFacts(a.stake, sd);
    ShareFacts(c.work, wd);
    ShareFacts(c.stake, sd);
  }

  /**
   The exact order below 2^240: a chain is less if it is dominated; and if each has more of one
   thing, the one with the smaller share of what it has less of.
   */
  lemma LessExactly(a: Power, c: Power)
    requires Scalable(a) && Scalable(c)
    ensures Less(a, c) <==>
      || Dominated(a, c)
      || (Crosses(a, c) && Share(a.stake, c.stake) < Share(c.work, a.work))
      || (Crosses(c, a) && Share(a.work, c.work) < Share(c.stake, a.stake))
    ensures Equal(a, c) <==>
      || a == c
      || (Crosses(a, c) && Share(a.stake, c.stake) == Share(c.work, a.work))
      || (Crosses(c, a) && Share(a.work, c.work) == Share(c.stake, a.stake))
  {
    hide ScoreIn, Share;
    ScoresInTerms(a, c);
    ScoresInTerms(c, a);
    SwappedScores(a, c);
  }

  lemma SwappedScores(a: Power, c: Power)
    ensures ScoreIn(a, a, c) == ScoreIn(a, c, a) && ScoreIn(c, a, c) == ScoreIn(c, c, a)
  {
    DivisorSymmetric(a.work, c.work);
    DivisorSymmetric(a.stake, c.stake);
  }

  /**
   When the order is transitive: two steps up never lead down, and they lead strictly up unless
   each of the outer chains has more of one thing and their shares of the other are the same.
   */
  lemma TransitiveUnless(a: Power, b: Power, c: Power)
    requires Scalable(a) && Scalable(b) && Scalable(c) && Less(a, b) && Less(b, c)
    ensures LessEq(a, c) && a != c
    ensures !Less(a, c) <==>
      || (Crosses(a, c) && Share(a.stake, c.stake) == Share(c.work, a.work))
      || (Crosses(c, a) && Share(a.work, c.work) == Share(c.stake, a.stake))
  {
    hide Less, LessEq, Equal, Share;
    var ps := [a, b, c];
    NoCycles(ps);
    Trichotomy(a, c);
    LessExactly(a, c);
  }

  /** Scores of small amounts, with no reduction modulo 2^256 left in them. */
  lemma {:induction false} SmallScore(p: Power, p1: Power, p2: Power)
    requires p == p1 || p == p2
    requires p.work < BASE && p.stake < BASE
    ensures ScoreIn(p, p1, p2) == (p.work * 0x1_0000) / Divisor(p1.work, p2.work) + (p.stake * 0x1_0000) / Divisor(p1.stake, p2.stake)
  {
    ModulusBig();
    ScoreFacts(p, Divisor(p1.work, p2.work), Divisor(p1.stake, p2.stake));
    ShareFacts(p.work, Divisor(p1.work, p2.work));
    ShareFacts(p.stake, Divisor(p1.stake, p2.stake));
  }

  /** Sixteen bits are too few for a linear order: neither equality nor the order itself is transitive. */
  lemma {:induction false} NotTransitive()
    ensures var a, b, c := Power(1, 0x1_0001), Power(0x1_0001, 1), Power(1, 0x2_0000); Equal(a, b) && Equal(b, c) && !Equal(a, c)
    ensures var a, b, c := Power(1, 0x1_0001), Power(2, 0x1_0000), Power(0x2_0001, 1); Less(a, b) && Less(b, c) && !Less(a, c)
  {
    hide Score;
    var a, b, c := Power(1, 0x1_0001), Power(0x1_0001, 1), Power(1, 0x2_0000);
    SmallScore(a, a, b); SmallScore(b, a, b);
    SmallScore(b, b, c); SmallScore(c, b, c);
    SmallScore(a, a, c); SmallScore(c, a, c);
    var d, e := Power(2, 0x1_0000), Power(0x2_0001, 1);
    SmallScore(a, a, d); SmallScore(d, a, d);
    SmallScore(d, d, e); SmallScore(e, d, e);
    SmallScore(a, a, e); SmallScore(e, a, e);
  }

  /** From 2^240 on the scaling drops bits: an example of a chain with that much work that compares equal to one with next to none. */
  lemma {:induction false} ScalingDropsBits()
    ensures Equal(Power(Pow(2, 240), 1), Power(1, 1)) && InRange(Power(Pow(2, 240), 1))
  {
    hide Pow, Score, Share;
    var big := Pow(2, 240);
    PowBase(WIDTH);
    PowAdd(2, 240, 16);
    Pow2To16();
    PowMonotone(2, 16, 240);
    DivUnique(big * 0x1_0000, MODULUS, 1, 0);
    ModulusBig();
    ShareOfBig(big);
  }

  /** What the scaling drops: everything from bit 240 on; so it loses nothing exactly below 2^240. */
  lemma ScalingKeeps(a: nat, d: nat)
    requires d > 0
    ensures Share(a, d) == ((a % Pow(2, 240)) * 0x1_0000) / d
    ensures (a * 0x1_0000) % MODULUS == a * 0x1_0000 <==> a < Pow(2, 240)
  {
    hide Pow;
    var big := Pow(2, 240);
    PowBase(WIDTH);
    PowAdd(2, 240, 16);
    Pow2To16();
    DivDefinition(a, big);
    var q, r := a / big, a % big;
    Distribute(q * big, r, 0x1_0000);
    MulAssoc(q, big, 0x1_0000);
    DivUnique(a * 0x1_0000, MODULUS, q, r * 0x1_0000);
    if a < big { DivUnique(a, big, 0, a); }
  }

  lemma Pow2To16()
    ensures Pow(2, 16) == 0x1_0000 && Pow(2, 240) > 0x1_0000
  {
    assert Pow(2, 8) == 256;
    PowAdd(2, 8, 8);
    PowMonotone(2, 17, 240);
    assert Pow(2, 17) == 2 * Pow(2, 16);
  }

  lemma ShareOfBig(big: nat)
    requires big > 0x1_0000 && (big * 0x1_0000) % MODULUS == 0 && MODULUS > 0x2_0000
    ensures Equal(Power(big, 1), Power(1, 1))
  {
    DivUnique(0, big, 0, 0);
    DivUnique(0x1_0000, MODULUS, 0, 0x1_0000);
    DivUnique(0x1_0000, big, 0, 0x1_0000);
    assert Share(big, big) == 0 && Share(1, big) == 0;
  }

  // ---------------------------------------------------------------- the operators

  /** A chain's accumulators. */
  class ChainPower {
    const chainWork: Number
    const chainStake: Number

    constructor (work: Number, stake: Number)
      requires work.Valid() && stake.Valid()
      ensures Valid() && chainWork == work && chainStake == stake
    {
      chainWork, chainStake := work, stake;
    }

    ghost predicate Valid() { chainWork.Valid() && chainStake.Valid() }

    ghost function AsPower(): Power
      requires Valid()
      reads chainWork.pn, chainStake.pn
    {
      Power(chainWork.Value(), chainStake.Value())
    }
  }

  /** The larger of two numbers, or one if both are zero. */
  method LargerOrOne(a: Number, b: Number) returns (d: Number)
    requires a.Valid() && b.Valid()
    ensures d.Valid() && d.Value() == Divisor(a.Value(), b.Value())
  {
    var c := a.CompareTo(b);
    if c > 0 { return a; }
    var zero := new Number(0);
    var e := b.CompareTo(zero);
    if e != 0 { return b; }
    d := new Number(1);
  }

  method ScaledShare(a: Number, d: Number) returns (r: Number)
    requires a.Valid() && d.Valid() && d.Value() > 0
    ensures r.Valid() && fresh(r.pn) && r.Value() == Share(a.Value(), d.Value())
  {
    r := new Number.Copy(a);
    r.ShiftLeft(16);
    Pow2To16();
    var ok := r.Div(d);
  }

  method ScoreOf(p: ChainPower, wd: Number, sd: Number) returns (r: Number)
    requires p.Valid() && wd.Valid() && sd.Valid() && wd.Value() > 0 && sd.Value() > 0
    ensures r.Valid() && r.Value() == Score(p.AsPower(), wd.Value(), sd.Value())
  {
    r := ScaledShare(p.chainWork, wd);
    var s := ScaledShare(p.chainStake, sd);
    r.Add(s);
  }

  /** The comparison behind all the operators: the sign of the difference of the two scores. */
  method Compare(p1: ChainPower, p2: ChainPower) returns (c: int)
    requires p1.Valid() && p2.Valid()
    ensures c < 0 <==> Less(p1.AsPower(), p2.AsPower())
    ensures c == 0 <==> Equal(p1.AsPower(), p2.AsPower())
    ensures c <= 0 <==> LessEq(p1.AsPower(), p2.AsPower())
  {
    var wd := LargerOrOne(p1.chainWork, p2.chainWork);
    var sd := LargerOrOne(p1.chainStake, p2.chainStake);
    var s1 := ScoreOf(p1, wd, sd);
    var s2 := ScoreOf(p2, wd, sd);
    c := s1.CompareTo(s2);
  }
}
