/**
 How many steps the skip list takes: from any block to any ancestor at most
 `k * k + 1`, for a chain of up to `2^k` blocks above genesis.
 */
module SkipSteps {
  import opened Limbs
  import opened BlockChain

  /** The number of bits set. */
  function Ones(n: nat): nat { if n == 0 then 0 else n % 2 + Ones(n / 2) }

  lemma {:induction false} OnesBound(r: nat, k: nat)
    requires r < Pow(2, k)
    ensures Ones(r) <= k
  {
    if r > 0 { OnesBound(r / 2, k - 1); }
  }

  /** Bit by bit, what clearing the lowest bit does. */
  lemma InvertBits(n: nat)
    requires n > 0
    ensures InvertLowestOne(n) == if n % 2 == 1 then n - 1 else 2 * InvertLowestOne(n / 2)
  {
    if n % 2 == 1 { AndSelf(n / 2); } else { assert (n - 1) / 2 == n / 2 - 1; }
  }

  lemma {:induction false} InvertOnes(n: nat)
    requires n > 0
    ensures Ones(InvertLowestOne(n)) == Ones(n) - 1
  {
    hide InvertLowestOne, Ones;
    InvertBits(n);
    OnesStep(n);
    if n % 2 == 1 {
      OnesOfOdd(n);
    } else {
      InvertOnes(n / 2);
      OnesHalf(InvertLowestOne(n), InvertLowestOne(n / 2));
    }
  }

  /** Clearing works on the low part alone. */
  lemma {:induction false} InvertLow(d: nat, q: nat, r: nat)
    requires 0 < r < Pow(2, q)
    ensures InvertLowestOne(Pow(2, q) * d + r) == Pow(2, q) * d + InvertLowestOne(r)
  {
    hide InvertLowestOne;
    var m := Pow(2, q) * d;
    HalfBlock(d, q);
    InvertBits(m + r);
    InvertBits(r);
    if r % 2 == 0 {
      assert (m + r) / 2 == Pow(2, q - 1) * d + r / 2;
      InvertLow(d, q - 1, r / 2);
    }
  }

  lemma HalfBlock(d: nat, q: nat)
    requires q > 0
    ensures Pow(2, q) * d == 2 * (Pow(2, q - 1) * d)
  {
    MulAssoc(2, Pow(2, q - 1), d);
  }

  lemma InvertLess(n: nat)
    ensures InvertLowestOne(n) <= n && (n > 0 ==> InvertLowestOne(n) < n)
  {
    if n > 0 { LowestOneCleared(n); }
  }

  /** Clearing the lowest bit of a multiple of a power of two takes at least that power away. */
  lemma {:induction false} InvertBlock(d: nat, q: nat)
    requires d > 0
    ensures InvertLowestOne(Pow(2, q) * d) <= Pow(2, q) * d - Pow(2, q)
  {
    hide InvertLowestOne;
    if q == 0 {
      InvertLess(d);
    } else {
      HalfBlock(d, q);
      Positive(Pow(2, q - 1), d);
      InvertBits(Pow(2, q) * d);
      InvertBlock(d, q - 1);
    }
  }

  lemma Positive(p: nat, d: nat)
    requires p > 0 && d > 0
    ensures p * d > 0
  {
  }

  /** The lowest bit set, and with it the skip pointer of an even height: from 2^j (2a + 1) to 2^j 2a. */
  lemma {:induction false} LowestCleared(j: nat, a: nat)
    ensures InvertLowestOne(Pow(2, j) * (2 * a + 1)) == Pow(2, j) * (2 * a)
    ensures j > 0 ==> SkipHeight(Pow(2, j) * (2 * a + 1)) == Pow(2, j) * (2 * a)
  {
    hide InvertLowestOne;
    var n := Pow(2, j) * (2 * a + 1);
    if j == 0 {
      InvertBits(2 * a + 1);
    } else {
      HalfBlock(2 * a + 1, j);
      HalfBlock(2 * a, j);
      Positive(Pow(2, j - 1), 2 * a + 1);
      LowestCleared(j - 1, a);
      InvertBits(n);
    }
  }

  /** An odd height skips back by its two lowest bits above the last: from 2^i (2^k (2a + 1) 2 + 1) + 1 to 2^(i+k+1) 2a + 1. */
  lemma {:induction false} OddSkipsTwo(i: nat, k: nat, a: nat)
    requires i > 0
    ensures SkipHeight(Pow(2, i) * (2 * (Pow(2, k) * (2 * a + 1)) + 1) + 1) == Pow(2, i + 1 + k) * (2 * a) + 1
    ensures SkipHeight(Pow(2, i) + 1) == 1
  {
    hide InvertLowestOne, SkipHeight, Pow;
    var b := Pow(2, k) * (2 * a + 1);
    LowestCleared(i, b);
    LowestCleared(i, 0);
    EvenBlock(2 * b + 1, i);
    EvenBlock(1, i);
    OddSkipIs(Pow(2, i) * (2 * b + 1));
    OddSkipIs(Pow(2, i) * 1);
    Regrouped(i, k, 2 * a + 1);
    LowestCleared(i + 1 + k, a);
    InvertLess(0);
  }

  lemma EvenBlock(d: nat, i: nat)
    requires i > 0 && d > 0
    ensures Pow(2, i) * d > 0 && (Pow(2, i) * d) % 2 == 0
  {
    HalfBlock(d, i);
    Positive(Pow(2, i - 1), d);
  }

  lemma OddSkipIs(n: nat)
    requires n > 0 && n % 2 == 0
    ensures SkipHeight(n + 1) == InvertLowestOne(InvertLowestOne(n)) + 1
  {
    hide InvertLowestOne;
  }

  lemma Regrouped(i: nat, k: nat, c: nat)
    ensures Pow(2, i) * (2 * (Pow(2, k) * c)) == Pow(2, i + 1 + k) * c
  {
    PowAdd(2, i, 1 + k);
    assert Pow(2, 1 + k) == 2 * Pow(2, k);
    MulAssoc(2, Pow(2, k), c);
    MulAssoc(Pow(2, i), 2 * Pow(2, k), c);
  }

  // ---------------------------------------------------------------- coming down to a boundary

  /** A height other than genesis from which the lowest `q` bits are clear. */
  ghost predicate Boundary(m: nat, q: nat) { m > 0 && exists d: nat :: m == Pow(2, q) * d }

  lemma BoundaryFacts(m: nat, q: nat, r: nat)
    requires Boundary(m, q) && q > 0
    ensures m % 2 == 0 && m >= 2
    ensures 0 < r < Pow(2, q) ==> InvertLowestOne(m + r) == m + InvertLowestOne(r)
  {
    hide InvertLowestOne, Pow;
    var d: nat :| m == Pow(2, q) * d;
    HalfBlock(d, q);
    if 0 < r < Pow(2, q) { InvertLow(d, q, r); }
  }

  lemma NotTheLast(r: nat, q: nat)
    requires 0 < r < Pow(2, q)
    ensures q > 0
  {
  }

  /** An odd block's lookup follows its skip pointer whenever that does not lead too far. */
  lemma OddTakesSkip(h: nat, t: nat)
    requires h % 2 == 1 && t < h
    ensures NextHeight(h, t) == if SkipHeight(h) >= t then SkipHeight(h) else h - 1
  {
    hide InvertLowestOne;
    if h > 2 { InvertLess(InvertLowestOne(h - 1)); }
  }

  /** Clearing two bits of the even part of `r` and setting the lowest. */
  function Back(e: nat): nat { InvertLowestOne(InvertLowestOne(e)) + 1 }

  lemma BackOnes(e: nat)
    requires e % 2 == 0 && Ones(e) >= 2
    ensures 0 < Back(e) <= e && Ones(Back(e)) == Ones(e) - 1
    ensures InvertLowestOne(e) > 0
  {
    hide InvertLowestOne;
    InvertOnes(e);
    InvertOnes(InvertLowestOne(e));
    InvertLess(e);
    InvertLess(InvertLowestOne(e));
    InvertEven(e);
    InvertEven(InvertLowestOne(e));
    var n := InvertLowestOne(InvertLowestOne(e));
    assert (n + 1) / 2 == n / 2;
  }

  lemma InvertEven(e: nat)
    requires e % 2 == 0
    ensures InvertLowestOne(e) % 2 == 0
  {
    hide InvertLowestOne;
    if e > 0 { InvertBits(e); } else { InvertLess(0); }
  }

  /** Where the skip pointer leads from an odd height above a boundary. */
  lemma OddSkip(m: nat, q: nat, e: nat)
    requires Boundary(m, q) && q > 0 && e % 2 == 0 && e + 1 < Pow(2, q)
    ensures m % 2 == 0
    ensures Ones(e) >= 2 ==> SkipHeight(m + e + 1) == m + Back(e)
    ensures Ones(e) < 2 ==> SkipHeight(m + e + 1) <= m
  {
    hide InvertLowestOne, Boundary, Ones;
    BoundaryFacts(m, q, e);
    if Ones(e) >= 2 {
      BackOnes(e);
      InvertLess(e);
      BoundaryFacts(m, q, InvertLowestOne(e));
    } else {
      FewBits(m, q, e);
    }
  }

  lemma FewBits(m: nat, q: nat, e: nat)
    requires Boundary(m, q) && q > 0 && e % 2 == 0 && e + 1 < Pow(2, q) && Ones(e) < 2
    ensures InvertLowestOne(InvertLowestOne(m + e)) + 1 <= m
  {
    hide InvertLowestOne, Boundary, Ones;
    BoundaryFacts(m, q, e);
    InvertLess(m);
    if e > 0 {
      InvertOnes(e);
      NoOnes(InvertLowestOne(e));
    } else {
      InvertLess(InvertLowestOne(m));
      InvertEven(m);
    }
  }

  lemma {:induction false} NoOnes(n: nat)
    requires Ones(n) == 0
    ensures n == 0
  {
    if n > 0 { NoOnes(n / 2); }
  }

  /** What a lookup at most takes once at or below the boundary. */
  ghost predicate Within(t: nat, m: nat, g: nat) { forall x: nat :: t <= x <= m ==> Jumps(x, t) <= g }

  /** Coming down to a boundary takes at most two steps for each bit set above it. */
  lemma {:induction false} ComeDown(m: nat, q: nat, r: nat, t: nat, g: nat)
    requires Boundary(m, q) && t < m && r < Pow(2, q) && Within(t, m, g)
    ensures Jumps(m + r, t) <= g + 2 * Ones(r)
    decreases r
  {
    hide InvertLowestOne, SkipHeight, NextHeight, Back, Boundary, Jumps;
    if r == 0 {
      assert t <= m <= m;
    } else if r % 2 == 1 {
      ComeDownOdd(m, q, r, t, g);
    } else {
      ComeDownEven(m, q, r, t, g);
    }
  }

  lemma ComeDownOdd(m: nat, q: nat, r: nat, t: nat, g: nat)
    requires Boundary(m, q) && t < m && 0 < r < Pow(2, q) && r % 2 == 1 && Within(t, m, g)
    ensures Jumps(m + r, t) <= g + 2 * Ones(r)
    decreases r, 0
  {
    hide InvertLowestOne, SkipHeight, NextHeight, Back, Boundary;
    var e := r - 1;
    OddSkip(m, q, e);
    OddTakesSkip(m + r, t);
    OnesOfOdd(r);
    if Ones(e) >= 2 {
      BackOnes(e);
      ComeDown(m, q, Back(e), t, g);
    } else if SkipHeight(m + r) < t {
      ComeDown(m, q, e, t, g);
    }
  }

  lemma OnesOfOdd(r: nat)
    requires r % 2 == 1
    ensures Ones(r) == Ones(r - 1) + 1
  {
    hide Ones;
    OnesStep(r);
    OnesStep(r - 1);
    assert (r - 1) / 2 == r / 2;
  }

  lemma OneStep(h: nat, t: nat)
    requires t < h
    ensures Jumps(h, t) == 1 + Jumps(NextHeight(h, t), t)
  {
  }

  lemma ComeDownEven(m: nat, q: nat, r: nat, t: nat, g: nat)
    requires Boundary(m, q) && t < m && 0 < r < Pow(2, q) && r % 2 == 0 && Within(t, m, g)
    ensures Jumps(m + r, t) <= g + 2 * Ones(r)
    decreases r, 0
  {
    hide InvertLowestOne, NextHeight, Back, Boundary, Ones, Jumps, Pow;
    NotTheLast(r, q);
    BoundaryFacts(m, q, r);
    InvertOnes(r);
    InvertLess(r);
    OneStep(m + r, t);
    if NextHeight(m + r, t) == SkipHeight(m + r) {
      EvenSkip(m, r);
      ComeDown(m, q, InvertLowestOne(r), t, g);
    } else {
      DivertedDown(m, q, r, t, g);
    }
  }

  lemma EvenSkip(m: nat, r: nat)
    requires m % 2 == 0 && m >= 2 && r % 2 == 0 && InvertLowestOne(m + r) == m + InvertLowestOne(r)
    ensures SkipHeight(m + r) == m + InvertLowestOne(r)
  {
    hide InvertLowestOne;
  }

  lemma DivertedDown(m: nat, q: nat, r: nat, t: nat, g: nat)
    requires Boundary(m, q) && q > 0 && t < m && 0 < r < Pow(2, q) && r % 2 == 0 && Within(t, m, g)
    requires NextHeight(m + r, t) != SkipHeight(m + r)
    ensures Jumps(m + r, t) <= g + 2 * Ones(r)
    decreases r, -1
  {
    hide InvertLowestOne, NextHeight, SkipHeight, Back, Boundary, Ones, Jumps, Pow;
    Diverted(m, q, r, t);
    BoundaryFacts(m, q, 0);
    OddTakesSkip(m + r - 1, t);
    OddSkip(m, q, r - 2);
    OneStep(m + r, t);
    OneStep(m + r - 1, t);
    InvertOnes(r);
    if Ones(r - 2) >= 2 {
      BackOnes(r - 2);
      ComeDown(m, q, Back(r - 2), t, g);
    } else {
      assert t <= SkipHeight(m + r - 1) <= m;
    }
  }

  /** An even height is only left for its predecessor if that has a pointer as good. */
  lemma Diverted(m: nat, q: nat, r: nat, t: nat)
    requires Boundary(m, q) && t < m && 0 < r < Pow(2, q) && r % 2 == 0 && NextHeight(m + r, t) != SkipHeight(m + r)
    ensures m + r > 2 && NextHeight(m + r, t) == m + r - 1 && t <= SkipHeight(m + r - 1) && Ones(r - 2) <= Ones(r)
  {
    hide InvertLowestOne, Back, Boundary, Ones;
    BoundaryFacts(m, q, r);
    OddSkip(m, q, r - 2);
    var half := r / 2;
    assert r == 2 * half;
    if half % 4 == 0 { LongSkip(r, half / 4); } else { LowBits(half); }
  }

  /** Eight or more down, the predecessor's pointer is not better. */
  lemma LongSkip(r: nat, a: nat)
    requires r > 0 && r == 8 * a
    ensures Ones(r - 2) >= 2 && Back(r - 2) == r - 7 && InvertLowestOne(r) <= r - 8
  {
    hide InvertLowestOne, Ones;
    InvertBlock(a, 3);
    assert Pow(2, 3) == 8;
    OnesHalf(r - 2, 4 * a - 1);
    OnesOfOdd(4 * a - 1);
    OnesHalf(4 * a - 2, 2 * a - 1);
    OnesOfOdd(2 * a - 1);
    InvertHalf(r - 2, 4 * a - 1);
    InvertHalf(r - 4, 4 * a - 2);
    InvertHalf(4 * a - 2, 2 * a - 1);
  }

  lemma OnesStep(n: nat)
    ensures Ones(n) == n % 2 + Ones(n / 2)
  {
  }

  lemma OnesHalf(n: nat, h: nat)
    requires n == 2 * h
    ensures Ones(n) == Ones(h)
  {
    hide Ones;
    OnesStep(n);
  }

  /** An even number, and what is cleared from it if half of it is odd. */
  lemma InvertHalf(n: nat, h: nat)
    requires n == 2 * h && n > 0
    ensures InvertLowestOne(n) == 2 * InvertLowestOne(h) && (h % 2 == 1 ==> InvertLowestOne(h) == h - 1)
  {
    hide InvertLowestOne;
    InvertBits(n);
    InvertBits(h);
  }

  lemma LowBits(h: nat)
    requires h % 4 != 0
    ensures Ones(2 * h - 2) <= Ones(2 * h)
  {
    hide Ones;
    var a, b := h / 4, h % 4;
    assert h == 4 * a + b;
    EvenApart(a, 2 * b);
  }

  lemma EvenApart(a: nat, b: nat)
    requires b == 2 || b == 4 || b == 6
    ensures Ones(8 * a + b - 2) <= Ones(8 * a + b)
  {
    hide Ones;
    if b == 2 {
      TwoApart(2 * a);
    } else if b == 4 {
      FourApart(a);
    } else {
      TwoApart(2 * a + 1);
    }
  }

  lemma TwoApart(a: nat)
    ensures Ones(4 * a) <= Ones(4 * a + 2)
  {
    hide Ones;
    OnesHalf(4 * a, 2 * a);
    OnesHalf(4 * a + 2, 2 * a + 1);
    OddOnes(a);
  }

  lemma OddOnes(a: nat)
    ensures Ones(2 * a + 1) == Ones(2 * a) + 1
  {
    hide Ones;
    OnesOfOdd(2 * a + 1);
  }

  lemma FourApart(a: nat)
    ensures Ones(8 * a + 2) <= Ones(8 * a + 4)
  {
    hide Ones;
    OnesHalf(8 * a + 2, 4 * a + 1);
    OddOnes(2 * a);
    OnesHalf(4 * a, 2 * a);
    OnesHalf(8 * a + 4, 4 * a + 2);
    OnesHalf(4 * a + 2, 2 * a + 1);
    OddOnes(a);
  }

  // ---------------------------------------------------------------- the bound

  /** Within an aligned block of size `2^k`, ends included, a lookup takes at most `k * k + 1` steps. */
  lemma {:induction false} BlockBound(d: nat, k: nat, h: nat, t: nat)
    requires Pow(2, k) * d <= t <= h <= Pow(2, k) * d + Pow(2, k)
    ensures Jumps(h, t) <= k * k + 1
    decreases k
  {
    hide InvertLowestOne, SkipHeight;
    if k == 0 {
      if h > t { assert NextHeight(h, t) == t; }
    } else {
      Halves(d, k);
      var half, g := Pow(2, k - 1), (k - 1) * (k - 1) + 1;
      var m := half * (2 * d + 1);
      Square(k);
      if t >= m {
        BlockBound(2 * d + 1, k - 1, h, t);
      } else {
        forall x: nat | t <= x <= m ensures Jumps(x, t) <= g { BlockBound(2 * d, k - 1, x, t); }
        assert Within(t, m, g);
        if h > m {
          if h < m + half { FromAbove(2 * d + 1, k - 1, h - m, t, g); } else { FromTheEnd(d, k, h, t, g); }
        }
      }
    }
  }

  lemma Halves(d: nat, k: nat)
    requires k > 0
    ensures var half := Pow(2, k - 1);
      && Pow(2, k) == 2 * half && half * (2 * d) == Pow(2, k) * d && half * (2 * d + 1) == Pow(2, k) * d + half
  {
    MulAssoc(Pow(2, k - 1), 2, d);
  }

  lemma Square(k: nat)
    requires k > 0
    ensures k * k == (k - 1) * (k - 1) + 2 * (k - 1) + 1
  {
  }

  lemma FromAbove(d: nat, q: nat, r: nat, t: nat, g: nat)
    requires t < Pow(2, q) * d && r < Pow(2, q) && Within(t, Pow(2, q) * d, g)
    ensures Jumps(Pow(2, q) * d + r, t) <= g + 2 * q
  {
    hide Ones, Jumps;
    ComeDown(Pow(2, q) * d, q, r, t, g);
    OnesBound(r, q);
  }

  /** From the upper end the pointer leads to the lower one or beyond. */
  lemma FromTheEnd(d: nat, k: nat, h: nat, t: nat, g: nat)
    requires k > 0 && h == Pow(2, k) * d + Pow(2, k) && Pow(2, k) * d <= t < Pow(2, k - 1) * (2 * d + 1)
    requires Within(t, Pow(2, k - 1) * (2 * d + 1), g)
    ensures Jumps(h, t) <= g + 2 * (k - 1) + 1
  {
    hide InvertLowestOne;
    Halves(d, k);
    var half := Pow(2, k - 1);
    assert h == Pow(2, k) * (d + 1);
    InvertBlock(d + 1, k);
    assert h % 2 == 0 by { HalfBlock(d + 1, k); }
    assert SkipHeight(h) <= t;
    FromAbove(2 * d + 1, k - 1, half - 1, t, g);
    if SkipHeight(h) == t { assert NextHeight(h, t) == t; } else { assert NextHeight(h, t) == h - 1; }
  }

  /**
   A lookup takes at most `k * k + 1` steps from any height up to `2^k` to any height below:
   the square of the logarithm, where following predecessors takes the distance itself.
   */
  lemma LookupBound(h: nat, t: nat, k: nat)
    requires t <= h <= Pow(2, k)
    ensures Jumps(h, t) <= k * k + 1
  {
    BlockBound(0, k, h, t);
  }
}
