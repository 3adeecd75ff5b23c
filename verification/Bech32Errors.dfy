/**
 Which scattered errors the Bech32 checksum detects. The generator has three consecutive
 powers of an element of the field of 1024 elements among its roots, and that element has
 1023 different powers; so up to three wrong values within 1023 places never go unnoticed.
 */
module Bech32Errors {
  import opened Bech32

  // ---------------------------------------------------------------- the field

  /** An element of the field, in the basis of the first ten powers of gamma. */
  type Field = bv10

  function Plus(a: Field, b: Field): Field { a ^ b }

  /** Multiplication by gamma, whose tenth power is the sum of powers 8, 5, 1 and 0. */
  function Gamma(u: Field): Field { if u & 0x200 != 0 then (u << 1) ^ 0x123 else u << 1 }

  lemma PlusAssoc(a: Field, b: Field, c: Field)
    ensures Plus(Plus(a, b), c) == Plus(a, Plus(b, c)) && Plus(a, b) == Plus(b, a)
  {
    SumAssoc(a, b, c);
  }

  lemma SumAssoc(a: Field, b: Field, c: Field)
    ensures (a ^ b) ^ c == a ^ (b ^ c) && a ^ b == b ^ a
  {
  }

  lemma GammaLinear(a: Field, b: Field)
    ensures Gamma(Plus(a, b)) == Plus(Gamma(a), Gamma(b))
  {
    ShiftLinear(a, b);
    HighBitLinear(a, b);
    SumShuffle(a << 1, b << 1, 0x123);
  }

  lemma ShiftLinear(a: Field, b: Field)
    ensures (a ^ b) << 1 == (a << 1) ^ (b << 1)
  {
  }

  lemma HighBitLinear(a: Field, b: Field)
    ensures (a ^ b) & 0x200 != 0 <==> (a & 0x200 != 0) != (b & 0x200 != 0)
  {
  }

  lemma SumShuffle(a: Field, b: Field, k: Field)
    ensures (a ^ b) ^ k == (a ^ k) ^ b && (a ^ b) ^ k == a ^ (b ^ k) && a ^ b == (a ^ k) ^ (b ^ k)
  {
  }

  lemma GammaInjective(a: Field, b: Field)
    requires Gamma(a) == Gamma(b)
    ensures a == b
  {
  }

  /** Multiplication by the nth power of gamma. */
  function Turn(u: Field, n: nat): Field {
    if n == 0 then u else Gamma(Turn(u, n - 1))
  }

  lemma {:induction false} TurnAdd(u: Field, m: nat, n: nat)
    ensures Turn(Turn(u, m), n) == Turn(u, m + n)
  {
    hide Gamma;
    if n > 0 { TurnAdd(u, m, n - 1); }
  }

  lemma {:induction false} TurnLinear(a: Field, b: Field, n: nat)
    ensures Turn(Plus(a, b), n) == Plus(Turn(a, n), Turn(b, n))
  {
    hide Gamma, Plus;
    if n > 0 {
      TurnLinear(a, b, n - 1);
      GammaLinear(Turn(a, n - 1), Turn(b, n - 1));
    }
  }

  lemma {:induction false} TurnInjective(a: Field, b: Field, n: nat)
    requires Turn(a, n) == Turn(b, n)
    ensures a == b
  {
    hide Gamma;
    if n > 0 {
      GammaInjective(Turn(a, n - 1), Turn(b, n - 1));
      TurnInjective(a, b, n - 1);
    }
  }

  lemma {:induction false} TurnZero(n: nat)
    ensures Turn(0, n) == 0
  {
    if n > 0 { TurnZero(n - 1); }
  }

  function Mask(k: nat): Field
    requires k < 10
  {
    match k
    case 0 => 1
    case 1 => 2
    case 2 => 4
    case 3 => 8
    case 4 => 16
    case 5 => 32
    case 6 => 64
    case 7 => 128
    case 8 => 256
    case 9 => 512
  }

  function If(flag: bool, w: Field): Field { if flag then w else 0 }

  /** The product of `w` and the lowest `n` terms of `u`. */
  function Product(w: Field, u: Field, n: nat): Field
    requires n <= 10
  {
    if n == 0 then 0 else Plus(Product(w, u, n - 1), If(u & Mask(n - 1) != 0, Turn(w, n - 1)))
  }

  lemma {:induction false} ProductTurned(w: Field, u: Field, n: nat, m: nat)
    requires n <= 10
    ensures Product(Turn(w, m), u, n) == Turn(Product(w, u, n), m)
  {
    hide Gamma, Plus, Mask;
    TurnZero(m);
    if n > 0 {
      ProductTurned(w, u, n - 1, m);
      TurnAdd(w, m, n - 1);
      TurnAdd(w, n - 1, m);
      TurnLinear(Product(w, u, n - 1), If(u & Mask(n - 1) != 0, Turn(w, n - 1)), m);
    }
  }

  /** The sum of those of three columns that are picked. */
  function Three(f0: bool, c0: Field, f1: bool, c1: Field, f2: bool, c2: Field): Field {
    (if f0 then c0 else 0) ^ (if f1 then c1 else 0) ^ (if f2 then c2 else 0)
  }

  /** The sum of the columns picked by the terms of `u`. */
  function Columns(u: Field, c0: Field, c1: Field, c2: Field, c3: Field, c4: Field, c5: Field, c6: Field, c7: Field, c8: Field, c9: Field): Field {
    Plus(Plus(Three(u & 1 != 0, c0, u & 2 != 0, c1, u & 4 != 0, c2), Three(u & 8 != 0, c3, u & 16 != 0, c4, u & 32 != 0, c5)),
      Plus(Three(u & 64 != 0, c6, u & 128 != 0, c7, u & 256 != 0, c8), If(u & 512 != 0, c9)))
  }

  /** The product written out. */
  function Times(w: Field, u: Field): Field {
    var w1 := Gamma(w);
    var w2 := Gamma(w1);
    var w3 := Gamma(w2);
    var w4 := Gamma(w3);
    var w5 := Gamma(w4);
    var w6 := Gamma(w5);
    var w7 := Gamma(w6);
    var w8 := Gamma(w7);
    Columns(u, w, w1, w2, w3, w4, w5, w6, w7, w8, Gamma(w8))
  }

  lemma ThreeAdds(f0: bool, c0: Field, f1: bool, c1: Field, f2: bool, c2: Field)
    ensures Three(f0, c0, f1, c1, f2, c2) == Plus(Plus(If(f0, c0), If(f1, c1)), If(f2, c2))
  {
    hide Three, Plus, If;
    IfIs(f0, c0);
    IfIs(f1, c1);
    IfIs(f2, c2);
    assert Three(f0, c0, f1, c1, f2, c2) == Three(true, If(f0, c0), true, If(f1, c1), true, If(f2, c2)) by {
      ThreePicked(f0, c0, f1, c1, f2, c2);
    }
    ThreeSum(If(f0, c0), If(f1, c1), If(f2, c2));
  }

  lemma ThreePicked(f0: bool, c0: Field, f1: bool, c1: Field, f2: bool, c2: Field)
    ensures Three(f0, c0, f1, c1, f2, c2) == Three(true, If(f0, c0), true, If(f1, c1), true, If(f2, c2))
  {
    hide If;
    IfIs(f0, c0);
    IfIs(f1, c1);
    IfIs(f2, c2);
  }

  lemma IfIs(flag: bool, w: Field)
    ensures If(flag, w) == if flag then w else 0
  {
  }

  lemma ThreeSum(a: Field, b: Field, c: Field)
    ensures Three(true, a, true, b, true, c) == Plus(Plus(a, b), c)
  {
  }

  lemma ColumnsAdd(u: Field, c: seq<Field>)
    requires |c| == 10
    ensures Columns(u, c[0], c[1], c[2], c[3], c[4], c[5], c[6], c[7], c[8], c[9]) ==
      Plus(Plus(Plus(Plus(Plus(Plus(Plus(Plus(Plus(If(u & 1 != 0, c[0]), If(u & 2 != 0, c[1])), If(u & 4 != 0, c[2])), If(u & 8 != 0, c[3])),
        If(u & 16 != 0, c[4])), If(u & 32 != 0, c[5])), If(u & 64 != 0, c[6])), If(u & 128 != 0, c[7])), If(u & 256 != 0, c[8])), If(u & 512 != 0, c[9]))
  {
    hide Three, Plus, If;
    ThreeAdds(u & 1 != 0, c[0], u & 2 != 0, c[1], u & 4 != 0, c[2]);
    ThreeAdds(u & 8 != 0, c[3], u & 16 != 0, c[4], u & 32 != 0, c[5]);
    ThreeAdds(u & 64 != 0, c[6], u & 128 != 0, c[7], u & 256 != 0, c[8]);
    var low := Plus(Plus(If(u & 1 != 0, c[0]), If(u & 2 != 0, c[1])), If(u & 4 != 0, c[2]));
    FourMore(low, If(u & 8 != 0, c[3]), If(u & 16 != 0, c[4]), If(u & 32 != 0, c[5]));
    var six := Plus(Plus(Plus(low, If(u & 8 != 0, c[3])), If(u & 16 != 0, c[4])), If(u & 32 != 0, c[5]));
    var three := Plus(Plus(If(u & 64 != 0, c[6]), If(u & 128 != 0, c[7])), If(u & 256 != 0, c[8]));
    FourMore(six, If(u & 64 != 0, c[6]), If(u & 128 != 0, c[7]), If(u & 256 != 0, c[8]));
    PlusAssoc(six, three, If(u & 512 != 0, c[9]));
  }

  lemma FourMore(a: Field, x: Field, y: Field, z: Field)
    ensures Plus(a, Plus(Plus(x, y), z)) == Plus(Plus(Plus(a, x), y), z)
  {
    hide Plus;
    PlusAssoc(a, Plus(x, y), z);
    PlusAssoc(a, x, y);
  }

  lemma ZeroPlus(a: Field)
    ensures Plus(0, a) == a
  {
  }

  lemma ProductStep(w: Field, u: Field, n: nat, mask: Field, t: Field)
    requires n < 10 && Mask(n) == mask && Turn(w, n) == t
    ensures Product(w, u, n + 1) == Plus(Product(w, u, n), If(u & mask != 0, t))
  {
    hide Gamma, If, Plus, Mask;
  }

  lemma TimesIsProduct(w: Field, u: Field)
    ensures Times(w, u) == Product(w, u, 10)
  {
    hide Gamma, If, Plus, Product, Columns;
    var t := seq(10, k requires 0 <= k < 10 => Turn(w, k));
    assert Product(w, u, 0) == 0 by { ProductNone(w, u); }
    ProductStep(w, u, 0, 1, t[0]);
    ProductStep(w, u, 1, 2, t[1]);
    ProductStep(w, u, 2, 4, t[2]);
    ProductStep(w, u, 3, 8, t[3]);
    ProductStep(w, u, 4, 16, t[4]);
    ProductStep(w, u, 5, 32, t[5]);
    ProductStep(w, u, 6, 64, t[6]);
    ProductStep(w, u, 7, 128, t[7]);
    ProductStep(w, u, 8, 256, t[8]);
    ProductStep(w, u, 9, 512, t[9]);
    ZeroPlus(If(u & 1 != 0, t[0]));
    ColumnsAdd(u, t);
    assert t[0] == w && t[1] == Gamma(t[0]) && t[2] == Gamma(t[1]) && t[3] == Gamma(t[2]) && t[4] == Gamma(t[3]);
    assert t[5] == Gamma(t[4]) && t[6] == Gamma(t[5]) && t[7] == Gamma(t[6]) && t[8] == Gamma(t[7]) && t[9] == Gamma(t[8]);
  }

  lemma ProductNone(w: Field, u: Field)
    ensures Product(w, u, 0) == 0
  {
  }

  lemma OneIsUnit(u: Field)
    ensures Times(1, u) == u
  {
  }

  /** Turning by n is multiplying by the nth power of gamma. */
  lemma TurnIsTimes(u: Field, n: nat)
    ensures Turn(u, n) == Times(Turn(1, n), u)
  {
    hide Gamma, Plus, Times, Product;
    OneIsUnit(u);
    TimesIsProduct(1, u);
    ProductTurned(1, u, 10, n);
    TimesIsProduct(Turn(1, n), u);
  }

  lemma PowerOfSum(m: nat, n: nat)
    ensures Turn(1, m + n) == Times(Turn(1, n), Turn(1, m))
  {
    hide Times, Gamma;
    TurnAdd(1, m, n);
    TurnIsTimes(Turn(1, m), n);
  }

  // ---------------------------------------------------------------- the order of gamma

  /** The powers of gamma that decide its order: 1023 is 3 * 11 * 31. */
  lemma Powers()
    ensures Turn(1, 33) == 0xb0 && Turn(1, 93) == 0x36a && Turn(1, 341) == 0x36 && Turn(1, 1023) == 1
  {
    hide Turn, Times;
    FirstPowers();
    Products0();
    Products1();
    Products2();
    Products3();
    Products4();
    PowerOfSum(8, 8);
    PowerOfSum(8, 5);
    PowerOfSum(16, 16);
    PowerOfSum(32, 1);
    PowerOfSum(32, 32);
    PowerOfSum(64, 16);
    PowerOfSum(80, 13);
    PowerOfSum(64, 64);
    PowerOfSum(128, 128);
    PowerOfSum(256, 64);
    PowerOfSum(320, 16);
    PowerOfSum(336, 5);
    PowerOfSum(341, 341);
    PowerOfSum(682, 341);
  }

  lemma FirstPowers()
    ensures Turn(1, 1) == 2 && Turn(1, 5) == 0x20 && Turn(1, 8) == 0x100
  {
  }

  lemma Products0()
    ensures Times(0x100, 0x100) == 0x119 && Times(0x20, 0x100) == 0x35e && Times(0x119, 0x119) == 0x58
  {
  }

  lemma Products1()
    ensures Times(0x2, 0x58) == 0xb0 && Times(0x58, 0x58) == 0xef && Times(0x119, 0xef) == 0x198
  {
  }

  lemma Products2()
    ensures Times(0x35e, 0x198) == 0x36a && Times(0xef, 0xef) == 0x346 && Times(0x346, 0x346) == 0x1e5
  {
  }

  lemma Products3()
    ensures Times(0xef, 0x1e5) == 0x27a && Times(0x119, 0x27a) == 0x2c2 && Times(0x20, 0x2c2) == 0x36
  {
  }

  lemma Products4()
    ensures Times(0x36, 0x36) == 0x37 && Times(0x36, 0x37) == 0x1
  {
  }

  lemma Products5()
    ensures Times(0x100, 0x119) == 0x3f0 && Times(0x2, 0x3f0) == 0x2c3 && Times(0x2, 0x2c3) == 0xa5
  {
  }

  lemma KernelOf341(u: Field)
    requires Times(0x36, u) == u
    ensures u == 0
  {
  }

  lemma KernelOf93(u: Field)
    requires Times(0x36a, u) == u
    ensures u == 0
  {
  }

  lemma KernelOf33(u: Field)
    requires Times(0xb0, u) == u
    ensures u == 0
  {
  }

  /** What two turns leave in place, a common divisor of theirs leaves in place. */
  lemma {:induction false} CommonTurn(u: Field, m: nat, n: nat) returns (d: nat, x: nat, y: nat)
    requires m > 0 && n > 0 && Turn(u, m) == u && Turn(u, n) == u
    ensures d > 0 && m == d * x && n == d * y && Turn(u, d) == u
    decreases m + n
  {
    if m == n {
      d, x, y := m, 1, 1;
    } else if m > n {
      TurnAdd(u, n, m - n);
      d, x, y := CommonTurn(u, m - n, n);
      x := x + y;
    } else {
      TurnAdd(u, m, n - m);
      d, x, y := CommonTurn(u, m, n - m);
      y := x + y;
    }
  }

  lemma {:induction false} TurnMultiple(u: Field, d: nat, k: nat)
    requires Turn(u, d) == u
    ensures Turn(u, d * k) == u
  {
    if k > 0 {
      TurnMultiple(u, d, k - 1);
      TurnAdd(u, d * (k - 1), d);
      assert d * k == d * (k - 1) + d;
    }
  }

  lemma SmallDivisor(d: nat, x: nat)
    requires d * x == 1023 && d <= 32
    ensures d == 1 || d == 3 || d == 11 || d == 31
  {
    if d <= 8 {
      assert d == 1 || d == 3 || d == 2 || d == 4 || d == 5 || d == 6 || d == 7 || d == 8;
    } else if d <= 16 {
    } else if d <= 24 {
    }
  }

  /** A proper divisor of 1023 divides one of 341, 93 and 33. */
  lemma DivisorOf1023(d: nat, x: nat) returns (k: nat)
    requires d * x == 1023 && x > 1
    ensures d * k == 341 || d * k == 93 || d * k == 33
  {
    if d <= 32 {
      SmallDivisor(d, x);
      k := if d == 3 then 31 else 341 / d;
    } else {
      SmallDivisor(x, d);
      k := 1;
    }
  }

  /** No element but zero comes back before 1023 turns. */
  lemma NoneComesBack(u: Field, n: nat)
    requires 0 < n < 1023 && Turn(u, n) == u
    ensures u == 0
  {
    hide Turn, Times;
    Powers();
    TurnIsTimes(u, 1023);
    OneIsUnit(u);
    var d, x, y := CommonTurn(u, 1023, n);
    assert x > 1;
    var k := DivisorOf1023(d, x);
    TurnMultiple(u, d, k);
    TurnIsTimes(u, d * k);
    if d * k == 341 { KernelOf341(u); } else if d * k == 93 { KernelOf93(u); } else { KernelOf33(u); }
  }

  lemma TurnsMeet(u: Field, p: nat, q: nat)
    requires q < p < q + 1023 && Turn(u, p) == Turn(u, q)
    ensures u == 0
  {
    hide Turn;
    TurnAdd(u, p - q, q);
    TurnInjective(Turn(u, p - q), u, q);
    NoneComesBack(u, p - q);
  }

  // ---------------------------------------------------------------- the state at a root

  /** A 5-bit value as an element of the field. */
  function Embed(v: bv8): Field {
    Plus(Plus(Plus(Plus(If(v & 1 != 0, 1), If(v & 2 != 0, 0xe)), If(v & 4 != 0, 0x54)), If(v & 8 != 0, 0x358)), If(v & 16 != 0, 0xbf))
  }

  lemma EmbedLinear(x: bv8, y: bv8)
    ensures Embed(x ^ y) == Plus(Embed(x), Embed(y))
  {
    hide Plus, If;
    EmbedBits(x, y);
    var p := [If(x & 1 != 0, 1), If(x & 2 != 0, 0xe), If(x & 4 != 0, 0x54), If(x & 8 != 0, 0x358), If(x & 16 != 0, 0xbf)];
    var q := [If(y & 1 != 0, 1), If(y & 2 != 0, 0xe), If(y & 4 != 0, 0x54), If(y & 8 != 0, 0x358), If(y & 16 != 0, 0xbf)];
    var p1, q1 := Plus(p[0], p[1]), Plus(q[0], q[1]);
    var p2, q2 := Plus(p1, p[2]), Plus(q1, q[2]);
    var p3, q3 := Plus(p2, p[3]), Plus(q2, q[3]);
    PlusSwap(p[0], q[0], p[1], q[1]);
    PlusSwap(p1, q1, p[2], q[2]);
    PlusSwap(p2, q2, p[3], q[3]);
    PlusSwap(p3, q3, p[4], q[4]);
  }

  lemma EmbedBits(x: bv8, y: bv8)
    ensures If((x ^ y) & 1 != 0, 1) == Plus(If(x & 1 != 0, 1), If(y & 1 != 0, 1))
    ensures If((x ^ y) & 2 != 0, 0xe) == Plus(If(x & 2 != 0, 0xe), If(y & 2 != 0, 0xe))
    ensures If((x ^ y) & 4 != 0, 0x54) == Plus(If(x & 4 != 0, 0x54), If(y & 4 != 0, 0x54))
    ensures If((x ^ y) & 8 != 0, 0x358) == Plus(If(x & 8 != 0, 0x358), If(y & 8 != 0, 0x358))
    ensures If((x ^ y) & 16 != 0, 0xbf) == Plus(If(x & 16 != 0, 0xbf), If(y & 16 != 0, 0xbf))
  {
  }

  lemma EmbedZero(v: bv8)
    requires Is5Bit(v)
    ensures Embed(v) == 0 <==> v == 0
  {
  }

  /** A polynomial with six coefficients at the power `s` of gamma. */
  function Horner(x0: Field, x1: Field, x2: Field, x3: Field, x4: Field, x5: Field, s: nat): Field {
    Plus(Turn(Plus(Turn(Plus(Turn(Plus(Turn(Plus(Turn(x0, s), x1), s), x2), s), x3), s), x4), s), x5)
  }

  /** The polynomial packed in a state at the power `s` of gamma. */
  function Eval(c: bv32, s: nat): Field {
    Horner(Embed(Group(c, 0)), Embed(Group(c, 1)), Embed(Group(c, 2)), Embed(Group(c, 3)), Embed(Group(c, 4)), Embed(Group(c, 5)), s)
  }

  lemma GroupLinear(a: bv32, b: bv32, i: nat)
    requires i < 6
    ensures Group(Xor(a, b), i) == Group(a, i) ^ Group(b, i)
  {
    hide Leading, Xor;
    LeadingLinear(a, b, i);
    GroupOfXor(Leading(a, i), Leading(b, i));
  }

  lemma GroupOfXor(x: bv32, y: bv32)
    ensures (Xor(x, y) & 31) as bv8 == ((x & 31) as bv8) ^ ((y & 31) as bv8)
  {
  }

  lemma LeadingLinear(a: bv32, b: bv32, i: nat)
    requires i < 6
    ensures Leading(Xor(a, b), i) == Xor(Leading(a, i), Leading(b, i))
  {
    hide Xor;
    Shift25Linear(a, b);
    Shift20Linear(a, b);
    Shift15Linear(a, b);
    Shift10Linear(a, b);
    Shift5Linear(a, b);
  }

  lemma XorIs(a: bv32, b: bv32)
    ensures Xor(a, b) == a ^ b
  {
  }

  lemma Shift25Linear(a: bv32, b: bv32)
    ensures Xor(a, b) >> 25 == Xor(a >> 25, b >> 25)
  {
    hide Xor;
    XorIs(a, b);
    XorIs(a >> 25, b >> 25);
    Shift25(a, b);
  }

  lemma Shift25(a: bv32, b: bv32)
    ensures (a ^ b) >> 25 == (a >> 25) ^ (b >> 25)
  {
  }

  lemma Shift20Linear(a: bv32, b: bv32)
    ensures Xor(a, b) >> 20 == Xor(a >> 20, b >> 20)
  {
    hide Xor;
    XorIs(a, b);
    XorIs(a >> 20, b >> 20);
    Shift20(a, b);
  }

  lemma Shift20(a: bv32, b: bv32)
    ensures (a ^ b) >> 20 == (a >> 20) ^ (b >> 20)
  {
  }

  lemma Shift15Linear(a: bv32, b: bv32)
    ensures Xor(a, b) >> 15 == Xor(a >> 15, b >> 15)
  {
    hide Xor;
    XorIs(a, b);
    XorIs(a >> 15, b >> 15);
    Shift15(a, b);
  }

  lemma Shift15(a: bv32, b: bv32)
    ensures (a ^ b) >> 15 == (a >> 15) ^ (b >> 15)
  {
  }

  lemma Shift10Linear(a: bv32, b: bv32)
    ensures Xor(a, b) >> 10 == Xor(a >> 10, b >> 10)
  {
    hide Xor;
    XorIs(a, b);
    XorIs(a >> 10, b >> 10);
    Shift10(a, b);
  }

  lemma Shift10(a: bv32, b: bv32)
    ensures (a ^ b) >> 10 == (a >> 10) ^ (b >> 10)
  {
  }

  lemma Shift5Linear(a: bv32, b: bv32)
    ensures Xor(a, b) >> 5 == Xor(a >> 5, b >> 5)
  {
    hide Xor;
    XorIs(a, b);
    XorIs(a >> 5, b >> 5);
    Shift5(a, b);
  }

  lemma Shift5(a: bv32, b: bv32)
    ensures (a ^ b) >> 5 == (a >> 5) ^ (b >> 5)
  {
  }

  lemma PlusSwap(a: Field, b: Field, c: Field, d: Field)
    ensures Plus(Plus(a, b), Plus(c, d)) == Plus(Plus(a, c), Plus(b, d))
  {
    hide Plus;
    PlusAssoc(a, b, Plus(c, d));
    PlusAssoc(b, c, d);
    PlusAssoc(c, b, d);
    PlusAssoc(a, c, Plus(b, d));
  }

  /** One more coefficient of a sum of polynomials. */
  lemma HornerStep(a: Field, x: Field, b: Field, y: Field, s: nat)
    ensures Plus(Turn(Plus(a, b), s), Plus(x, y)) == Plus(Plus(Turn(a, s), x), Plus(Turn(b, s), y))
  {
    hide Turn, Plus;
    TurnLinear(a, b, s);
    PlusSwap(Turn(a, s), Turn(b, s), x, y);
  }

  lemma EvalLinear(a: bv32, b: bv32, s: nat)
    ensures Eval(Xor(a, b), s) == Plus(Eval(a, s), Eval(b, s))
  {
    hide Turn, Plus, Embed, Group, Xor;
    var x := seq(6, i requires 0 <= i < 6 => Embed(Group(a, i)));
    var y := seq(6, i requires 0 <= i < 6 => Embed(Group(b, i)));
    forall i: nat | i < 6 ensures Embed(Group(Xor(a, b), i)) == Plus(x[i], y[i]) {
      GroupLinear(a, b, i);
      EmbedLinear(Group(a, i), Group(b, i));
    }
    HornerLinear(x, y, s);
  }

  lemma HornerLinear(x: seq<Field>, y: seq<Field>, s: nat)
    requires |x| == |y| == 6
    ensures Horner(Plus(x[0], y[0]), Plus(x[1], y[1]), Plus(x[2], y[2]), Plus(x[3], y[3]), Plus(x[4], y[4]), Plus(x[5], y[5]), s) ==
      Plus(Horner(x[0], x[1], x[2], x[3], x[4], x[5], s), Horner(y[0], y[1], y[2], y[3], y[4], y[5], s))
  {
    hide Turn, Plus;
    var a1, b1 := Plus(Turn(x[0], s), x[1]), Plus(Turn(y[0], s), y[1]);
    var a2, b2 := Plus(Turn(a1, s), x[2]), Plus(Turn(b1, s), y[2]);
    var a3, b3 := Plus(Turn(a2, s), x[3]), Plus(Turn(b2, s), y[3]);
    var a4, b4 := Plus(Turn(a3, s), x[4]), Plus(Turn(b3, s), y[4]);
    HornerStep(x[0], x[1], y[0], y[1], s);
    HornerStep(a1, x[2], b1, y[2], s);
    HornerStep(a2, x[3], b2, y[3], s);
    HornerStep(a3, x[4], b3, y[4], s);
    HornerStep(a4, x[5], b4, y[5], s);
  }

  /** The powers of gamma that are roots of the generator. */
  lemma RootsAre()
    ensures IsRoot(24) && IsRoot(25) && IsRoot(26)
  {
  }

  predicate IsRoot(s: nat) { s == 24 || s == 25 || s == 26 }

  function RootOf(s: nat): Field
    requires IsRoot(s)
  {
    if s == 24 then 0x3f0 else if s == 25 then 0x2c3 else 0xa5
  }

  lemma RootPowers(s: nat)
    requires IsRoot(s)
    ensures Turn(1, s) == RootOf(s)
  {
    hide Turn, Times;
    FirstPowers();
    Products0();
    Products5();
    PowerOfSum(8, 8);
    PowerOfSum(16, 8);
    PowerOfSum(24, 1);
    PowerOfSum(25, 1);
  }

  /** Multiplication by a root, as a table, and one more coefficient added. */
  function Next(s: nat, u: Field, e: Field): Field
    requires IsRoot(s)
  {
    if s == 24 then Columns(u, 0x3f0, 0x2c3, 0xa5, 0x14a, 0x294, 0xb, 0x16, 0x2c, 0x58, 0xb0) ^ e
    else if s == 25 then Columns(u, 0x2c3, 0xa5, 0x14a, 0x294, 0xb, 0x16, 0x2c, 0x58, 0xb0, 0x160) ^ e
    else Columns(u, 0xa5, 0x14a, 0x294, 0xb, 0x16, 0x2c, 0x58, 0xb0, 0x160, 0x2c0) ^ e
  }

  lemma NextTurns(s: nat, u: Field, e: Field)
    requires IsRoot(s)
    ensures Next(s, u, e) == Plus(Turn(u, s), e)
  {
    hide Turn, Columns;
    RootPowers(s);
    TurnIsTimes(u, s);
    RootColumns(s);
  }

  lemma RootColumns(s: nat)
    requires IsRoot(s)
    ensures s == 24 ==> Gamma(0x3f0) == 0x2c3 && Gamma(0x2c3) == 0xa5 && Gamma(0xa5) == 0x14a && Gamma(0x14a) == 0x294 && Gamma(0x294) == 0xb && Gamma(0xb) == 0x16 && Gamma(0x16) == 0x2c && Gamma(0x2c) == 0x58 && Gamma(0x58) == 0xb0
    ensures s == 25 ==> Gamma(0x2c3) == 0xa5 && Gamma(0xa5) == 0x14a && Gamma(0x14a) == 0x294 && Gamma(0x294) == 0xb && Gamma(0xb) == 0x16 && Gamma(0x16) == 0x2c && Gamma(0x2c) == 0x58 && Gamma(0x58) == 0xb0 && Gamma(0xb0) == 0x160
    ensures s == 26 ==> Gamma(0xa5) == 0x14a && Gamma(0x14a) == 0x294 && Gamma(0x294) == 0xb && Gamma(0xb) == 0x16 && Gamma(0x16) == 0x2c && Gamma(0x2c) == 0x58 && Gamma(0x58) == 0xb0 && Gamma(0xb0) == 0x160 && Gamma(0x160) == 0x2c0
  {
  }

  /** The step multiplies the polynomial of the state by the root. */
  predicate Multiplies(c: bv32, s: nat) { Eval(PolyStep(c, 0), s) == Turn(Eval(c, s), s) }

  lemma MultipliesSum(a: bv32, b: bv32, s: nat)
    requires Multiplies(a, s) && Multiplies(b, s)
    ensures Multiplies(Xor(a, b), s)
  {
    hide PolyStep, Eval, Turn, Plus, Xor;
    StepLinear(a, b, 0, 0);
    XorSelf(0);
    EvalLinear(a, b, s);
    EvalLinear(PolyStep(a, 0), PolyStep(b, 0), s);
    TurnLinear(Eval(a, s), Eval(b, s), s);
  }

  lemma MultipliesZero(s: nat)
    ensures Multiplies(0, s)
  {
    hide Turn;
    assert PolyStep(0, 0) == 0;
    assert Group(0, 0) == 0 && Group(0, 1) == 0 && Group(0, 2) == 0 && Group(0, 3) == 0 && Group(0, 4) == 0 && Group(0, 5) == 0;
    TurnZero(s);
  }

  /** The polynomial at a root, by the table. */
  function EvalAt(c: bv32, s: nat): Field
    requires IsRoot(s)
  {
    Next(s, Next(s, Next(s, Next(s, Next(s, Embed(Group(c, 0)), Embed(Group(c, 1))), Embed(Group(c, 2))), Embed(Group(c, 3))), Embed(Group(c, 4))), Embed(Group(c, 5)))
  }

  lemma EvalIsAt(c: bv32, s: nat)
    requires IsRoot(s)
    ensures Eval(c, s) == EvalAt(c, s) && Turn(Eval(c, s), s) == Next(s, Eval(c, s), 0)
  {
    hide Embed, Group, Turn, Plus, Next, IsRoot;
    forall u, e ensures Next(s, u, e) == Plus(Turn(u, s), e) { NextTurns(s, u, e); }
    ZeroPlus(Turn(Eval(c, s), s));
    PlusAssoc(0, Turn(Eval(c, s), s), 0);
  }

  predicate IsTopBit(c: bv32) { c == 0x200_0000 || c == 0x400_0000 || c == 0x800_0000 || c == 0x1000_0000 || c == 0x2000_0000 }

  lemma TopBitMultiplies(c: bv32, s: nat)
    requires IsRoot(s) && IsTopBit(c)
    ensures Multiplies(c, s)
  {
    hide PolyStep, Eval, EvalAt, Turn, Next, IsRoot, IsTopBit;
    EvalIsAt(c, s);
    EvalIsAt(PolyStep(c, 0), s);
    RootChecked(c, s);
  }

  lemma RootChecked(c: bv32, s: nat)
    requires IsRoot(s) && IsTopBit(c)
    ensures Fits(c, s)
  {
    hide Fits, IsRoot;
    Root0(s);
    Root1(s);
    Root2(s);
    Root3(s);
    Root4(s);
  }

  predicate Fits(c: bv32, s: nat)
    requires IsRoot(s)
  {
    EvalAt(PolyStep(c, 0), s) == Next(s, EvalAt(c, s), 0)
  }

  predicate Coefficients(c: bv32, e0: Field, e1: Field, e2: Field, e3: Field, e4: Field, e5: Field) {
    && Embed(Group(c, 0)) == e0 && Embed(Group(c, 1)) == e1 && Embed(Group(c, 2)) == e2
    && Embed(Group(c, 3)) == e3 && Embed(Group(c, 4)) == e4 && Embed(Group(c, 5)) == e5
  }

  /** Five coefficients added one by one, with the values on the way. */
  predicate Climbs(s: nat, h0: Field, e1: Field, h1: Field, e2: Field, h2: Field, e3: Field, h3: Field, e4: Field, h4: Field, e5: Field, h5: Field)
    requires IsRoot(s)
  {
    Next(s, h0, e1) == h1 && Next(s, h1, e2) == h2 && Next(s, h2, e3) == h3 && Next(s, h3, e4) == h4 && Next(s, h4, e5) == h5
  }

  lemma Climbed(c: bv32, s: nat, h0: Field, e1: Field, h1: Field, e2: Field, h2: Field, e3: Field, h3: Field, e4: Field, h4: Field, e5: Field, h5: Field)
    requires IsRoot(s) && Coefficients(c, h0, e1, e2, e3, e4, e5) && Climbs(s, h0, e1, h1, e2, h2, e3, h3, e4, h4, e5, h5)
    ensures EvalAt(c, s) == h5
  {
    hide Next, Group, Embed, IsRoot;
  }

  lemma Root0(s: nat)
    requires IsRoot(s)
    ensures Fits(0x200_0000, s)
  {
    hide Coefficients, Climbs, Next, EvalAt, PolyStep;
    Constants0();
    Given0();
    if s == 24 {
      Table24of0();
      Climbed(0x3b6a_57b2, 24, 0x3b2, 0xe5, 0x7d, 0xeb, 0x7d, 0xea, 0x7c, 0x3b2, 0xd4, 0xb1, 0x2ba);
      Climbed(0x200_0000, 24, 0x1, 0, 0x3f0, 0, 0x24d, 0, 0x2b9, 0, 0xb9, 0, 0x9);
    } else if s == 25 {
      Table25of0();
      Climbed(0x3b6a_57b2, 25, 0x3b2, 0xe5, 0x1d5, 0xeb, 0x3ad, 0xea, 0x69, 0x3b2, 0x3df, 0xb1, 0xa6);
      Climbed(0x200_0000, 25, 0x1, 0, 0x2c3, 0, 0x372, 0, 0x144, 0, 0x1d6, 0, 0x120);
    } else {
      Table26of0();
      Climbed(0x3b6a_57b2, 26, 0x3b2, 0xe5, 0x285, 0xeb, 0xaa, 0xea, 0x137, 0x3b2, 0x193, 0xb1, 0x98);
      Climbed(0x200_0000, 26, 0x1, 0, 0xa5, 0, 0x2ad, 0, 0x66, 0, 0x3aa, 0, 0x27d);
    }
  }

  lemma Constants0()
    ensures PolyStep(0x200_0000, 0) == 0x3b6a_57b2 && Coefficients(0x200_0000, 0x1, 0, 0, 0, 0, 0)
  {
  }

  lemma Given0()
    ensures Coefficients(0x3b6a_57b2, 0x3b2, 0xe5, 0xeb, 0xea, 0x3b2, 0xb1)
  {
  }

  lemma Table24of0()
    ensures Climbs(24, 0x3b2, 0xe5, 0x7d, 0xeb, 0x7d, 0xea, 0x7c, 0x3b2, 0xd4, 0xb1, 0x2ba)
    ensures Climbs(24, 0x1, 0, 0x3f0, 0, 0x24d, 0, 0x2b9, 0, 0xb9, 0, 0x9)
    ensures Next(24, 0x9, 0) == 0x2ba
  {
  }

  lemma Table25of0()
    ensures Climbs(25, 0x3b2, 0xe5, 0x1d5, 0xeb, 0x3ad, 0xea, 0x69, 0x3b2, 0x3df, 0xb1, 0xa6)
    ensures Climbs(25, 0x1, 0, 0x2c3, 0, 0x372, 0, 0x144, 0, 0x1d6, 0, 0x120)
    ensures Next(25, 0x120, 0) == 0xa6
  {
  }

  lemma Table26of0()
    ensures Climbs(26, 0x3b2, 0xe5, 0x285, 0xeb, 0xaa, 0xea, 0x137, 0x3b2, 0x193, 0xb1, 0x98)
    ensures Climbs(26, 0x1, 0, 0xa5, 0, 0x2ad, 0, 0x66, 0, 0x3aa, 0, 0x27d)
    ensures Next(26, 0x27d, 0) == 0x98
  {
  }

  lemma Root1(s: nat)
    requires IsRoot(s)
    ensures Fits(0x400_0000, s)
  {
    hide Coefficients, Climbs, Next, EvalAt, PolyStep;
    Constants1();
    Given1();
    if s == 24 {
      Table24of1();
      Climbed(0x2650_8e6d, 24, 0xb0, 0x55, 0x2e6, 0x1, 0x2e6, 0xf, 0x2e8, 0xb0, 0x17b, 0x30d, 0x1a5);
      Climbed(0x400_0000, 24, 0xe, 0, 0x32c, 0, 0x10c, 0, 0x1b7, 0, 0x37d, 0, 0x7e);
    } else if s == 25 {
      Table25of1();
      Climbed(0x2650_8e6d, 25, 0xb0, 0x55, 0x10, 0x1, 0xa, 0xf, 0x23e, 0xb0, 0x2b6, 0x30d, 0x3c7);
      Climbed(0x400_0000, 25, 0xe, 0, 0x37b, 0, 0x113, 0, 0x2dd, 0, 0x2, 0, 0xa5);
    } else {
      Table26of1();
      Climbed(0x2650_8e6d, 26, 0xb0, 0x55, 0xdf, 0x1, 0x38f, 0xf, 0x6f, 0xb0, 0x3b4, 0x30d, 0x2b3);
      Climbed(0x400_0000, 26, 0xe, 0, 0x3d5, 0, 0x16f, 0, 0x264, 0, 0x20, 0, 0x2c);
    }
  }

  lemma Constants1()
    ensures PolyStep(0x400_0000, 0) == 0x2650_8e6d && Coefficients(0x400_0000, 0xe, 0, 0, 0, 0, 0)
  {
  }

  lemma Given1()
    ensures Coefficients(0x2650_8e6d, 0xb0, 0x55, 0x1, 0xf, 0xb0, 0x30d)
  {
  }

  lemma Table24of1()
    ensures Climbs(24, 0xb0, 0x55, 0x2e6, 0x1, 0x2e6, 0xf, 0x2e8, 0xb0, 0x17b, 0x30d, 0x1a5)
    ensures Climbs(24, 0xe, 0, 0x32c, 0, 0x10c, 0, 0x1b7, 0, 0x37d, 0, 0x7e)
    ensures Next(24, 0x7e, 0) == 0x1a5
  {
  }

  lemma Table25of1()
    ensures Climbs(25, 0xb0, 0x55, 0x10, 0x1, 0xa, 0xf, 0x23e, 0xb0, 0x2b6, 0x30d, 0x3c7)
    ensures Climbs(25, 0xe, 0, 0x37b, 0, 0x113, 0, 0x2dd, 0, 0x2, 0, 0xa5)
    ensures Next(25, 0xa5, 0) == 0x3c7
  {
  }

  lemma Table26of1()
    ensures Climbs(26, 0xb0, 0x55, 0xdf, 0x1, 0x38f, 0xf, 0x6f, 0xb0, 0x3b4, 0x30d, 0x2b3)
    ensures Climbs(26, 0xe, 0, 0x3d5, 0, 0x16f, 0, 0x264, 0, 0x20, 0, 0x2c)
    ensures Next(26, 0x2c, 0) == 0x2b3
  {
  }

  lemma Root2(s: nat)
    requires IsRoot(s)
    ensures Fits(0x800_0000, s)
  {
    hide Coefficients, Climbs, Next, EvalAt, PolyStep;
    Constants2();
    Given2();
    if s == 24 {
      Table24of2();
      Climbed(0x1ea1_19fa, 24, 0x303, 0x356, 0x28d, 0xe, 0x28d, 0x5a, 0x2d9, 0x303, 0x3a7, 0x3e9, 0x2b0);
      Climbed(0x800_0000, 24, 0x54, 0, 0x227, 0, 0x12d, 0, 0x24c, 0, 0x149, 0, 0x2f4);
    } else if s == 25 {
      Table25of2();
      Climbed(0x1ea1_19fa, 25, 0x303, 0x356, 0xe0, 0xe, 0x6c, 0x5a, 0x3be, 0x303, 0x1ed, 0x3e9, 0x226);
      Climbed(0x800_0000, 25, 0x54, 0, 0x16d, 0, 0x197, 0, 0x3cf, 0, 0x1c, 0, 0x3d5);
    } else {
      Table26of2();
      Climbed(0x1ea1_19fa, 26, 0x303, 0x356, 0x119, 0xe, 0x1d6, 0x5a, 0x21a, 0x303, 0x94, 0x3e9, 0x1db);
      Climbed(0x800_0000, 26, 0x54, 0, 0x2da, 0, 0x37f, 0, 0xb2, 0, 0x1c0, 0, 0x188);
    }
  }

  lemma Constants2()
    ensures PolyStep(0x800_0000, 0) == 0x1ea1_19fa && Coefficients(0x800_0000, 0x54, 0, 0, 0, 0, 0)
  {
  }

  lemma Given2()
    ensures Coefficients(0x1ea1_19fa, 0x303, 0x356, 0xe, 0x5a, 0x303, 0x3e9)
  {
  }

  lemma Table24of2()
    ensures Climbs(24, 0x303, 0x356, 0x28d, 0xe, 0x28d, 0x5a, 0x2d9, 0x303, 0x3a7, 0x3e9, 0x2b0)
    ensures Climbs(24, 0x54, 0, 0x227, 0, 0x12d, 0, 0x24c, 0, 0x149, 0, 0x2f4)
    ensures Next(24, 0x2f4, 0) == 0x2b0
  {
  }

  lemma Table25of2()
    ensures Climbs(25, 0x303, 0x356, 0xe0, 0xe, 0x6c, 0x5a, 0x3be, 0x303, 0x1ed, 0x3e9, 0x226)
    ensures Climbs(25, 0x54, 0, 0x16d, 0, 0x197, 0, 0x3cf, 0, 0x1c, 0, 0x3d5)
    ensures Next(25, 0x3d5, 0) == 0x226
  {
  }

  lemma Table26of2()
    ensures Climbs(26, 0x303, 0x356, 0x119, 0xe, 0x1d6, 0x5a, 0x21a, 0x303, 0x94, 0x3e9, 0x1db)
    ensures Climbs(26, 0x54, 0, 0x2da, 0, 0x37f, 0, 0xb2, 0, 0x1c0, 0, 0x188)
    ensures Next(26, 0x188, 0) == 0x1db
  {
  }

  lemma Root3(s: nat)
    requires IsRoot(s)
    ensures Fits(0x1000_0000, s)
  {
    hide Coefficients, Climbs, Next, EvalAt, PolyStep;
    Constants3();
    Given3();
    if s == 24 {
      Table24of3();
      Climbed(0x3d42_33dd, 24, 0x3bd, 0xeb, 0xaf, 0x54, 0xaf, 0x30c, 0x3f7, 0x3bd, 0x66, 0x3b2, 0x1c9);
      Climbed(0x1000_0000, 24, 0x358, 0, 0x320, 0, 0xe3, 0, 0x102, 0, 0x29b, 0, 0x271);
    } else if s == 25 {
      Table25of3();
      Climbed(0x3d42_33dd, 25, 0x3bd, 0xeb, 0x63, 0x54, 0x208, 0x30c, 0xf8, 0x3bd, 0x140, 0x3b2, 0x32e);
      Climbed(0x1000_0000, 25, 0x358, 0, 0x363, 0, 0x38c, 0, 0x256, 0, 0xa8, 0, 0x2da);
    } else {
      Table26of3();
      Climbed(0x3d42_33dd, 26, 0x3bd, 0xeb, 0x1fb, 0x54, 0x2, 0x30c, 0x246, 0x3bd, 0x2fb, 0x3b2, 0x44);
      Climbed(0x1000_0000, 26, 0x358, 0, 0x3e5, 0, 0x155, 0, 0x31f, 0, 0xc6, 0, 0x336);
    }
  }

  lemma Constants3()
    ensures PolyStep(0x1000_0000, 0) == 0x3d42_33dd && Coefficients(0x1000_0000, 0x358, 0, 0, 0, 0, 0)
  {
  }

  lemma Given3()
    ensures Coefficients(0x3d42_33dd, 0x3bd, 0xeb, 0x54, 0x30c, 0x3bd, 0x3b2)
  {
  }

  lemma Table24of3()
    ensures Climbs(24, 0x3bd, 0xeb, 0xaf, 0x54, 0xaf, 0x30c, 0x3f7, 0x3bd, 0x66, 0x3b2, 0x1c9)
    ensures Climbs(24, 0x358, 0, 0x320, 0, 0xe3, 0, 0x102, 0, 0x29b, 0, 0x271)
    ensures Next(24, 0x271, 0) == 0x1c9
  {
  }

  lemma Table25of3()
    ensures Climbs(25, 0x3bd, 0xeb, 0x63, 0x54, 0x208, 0x30c, 0xf8, 0x3bd, 0x140, 0x3b2, 0x32e)
    ensures Climbs(25, 0x358, 0, 0x363, 0, 0x38c, 0, 0x256, 0, 0xa8, 0, 0x2da)
    ensures Next(25, 0x2da, 0) == 0x32e
  {
  }

  lemma Table26of3()
    ensures Climbs(26, 0x3bd, 0xeb, 0x1fb, 0x54, 0x2, 0x30c, 0x246, 0x3bd, 0x2fb, 0x3b2, 0x44)
    ensures Climbs(26, 0x358, 0, 0x3e5, 0, 0x155, 0, 0x31f, 0, 0xc6, 0, 0x336)
    ensures Next(26, 0x336, 0) == 0x44
  {
  }

  lemma Root4(s: nat)
    requires IsRoot(s)
    ensures Fits(0x2000_0000, s)
  {
    hide Coefficients, Climbs, Next, EvalAt, PolyStep;
    Constants4();
    Given4();
    if s == 24 {
      Table24of4();
      Climbed(0x2a14_62b3, 24, 0xea, 0x1, 0x3b9, 0x358, 0x3b9, 0x3e7, 0x306, 0xea, 0x264, 0xb0, 0xb8);
      Climbed(0x2000_0000, 24, 0xbf, 0, 0x26f, 0, 0x71, 0, 0x179, 0, 0x6b, 0, 0x64);
    } else if s == 25 {
      Table25of4();
      Climbed(0x2a14_62b3, 25, 0xea, 0x1, 0x252, 0x358, 0x2ba, 0x3e7, 0xf3, 0xea, 0x2e5, 0xb0, 0x23b);
      Climbed(0x2000_0000, 25, 0xbf, 0, 0x1fd, 0, 0x1c4, 0, 0x18e, 0, 0x393, 0, 0x3e5);
    } else {
      Table26of4();
      Climbed(0x2a14_62b3, 26, 0xea, 0x1, 0x184, 0x358, 0x1c, 0x3e7, 0x16e, 0xea, 0x22b, 0xb0, 0x3b8);
      Climbed(0x2000_0000, 26, 0xbf, 0, 0x3fa, 0, 0x233, 0, 0x315, 0, 0x187, 0, 0x2ab);
    }
  }

  lemma Constants4()
    ensures PolyStep(0x2000_0000, 0) == 0x2a14_62b3 && Coefficients(0x2000_0000, 0xbf, 0, 0, 0, 0, 0)
  {
  }

  lemma Given4()
    ensures Coefficients(0x2a14_62b3, 0xea, 0x1, 0x358, 0x3e7, 0xea, 0xb0)
  {
  }

  lemma Table24of4()
    ensures Climbs(24, 0xea, 0x1, 0x3b9, 0x358, 0x3b9, 0x3e7, 0x306, 0xea, 0x264, 0xb0, 0xb8)
    ensures Climbs(24, 0xbf, 0, 0x26f, 0, 0x71, 0, 0x179, 0, 0x6b, 0, 0x64)
    ensures Next(24, 0x64, 0) == 0xb8
  {
  }

  lemma Table25of4()
    ensures Climbs(25, 0xea, 0x1, 0x252, 0x358, 0x2ba, 0x3e7, 0xf3, 0xea, 0x2e5, 0xb0, 0x23b)
    ensures Climbs(25, 0xbf, 0, 0x1fd, 0, 0x1c4, 0, 0x18e, 0, 0x393, 0, 0x3e5)
    ensures Next(25, 0x3e5, 0) == 0x23b
  {
  }

  lemma Table26of4()
    ensures Climbs(26, 0xea, 0x1, 0x184, 0x358, 0x1c, 0x3e7, 0x16e, 0xea, 0x22b, 0xb0, 0x3b8)
    ensures Climbs(26, 0xbf, 0, 0x3fa, 0, 0x233, 0, 0x315, 0, 0x187, 0, 0x2ab)
    ensures Next(26, 0x2ab, 0) == 0x3b8
  {
  }

  lemma BitMultiplies(c: bv32, mask: bv32, s: nat)
    requires IsRoot(s) && IsTopBit(mask)
    ensures Multiplies(c & mask, s)
  {
    hide Multiplies, IsRoot;
    if c & mask == 0 { MultipliesZero(s); } else { OneBit(c, mask); TopBitMultiplies(mask, s); }
  }

  lemma OneBit(c: bv32, mask: bv32)
    requires IsTopBit(mask)
    ensures c & mask == 0 || c & mask == mask
  {
  }

  /** The coefficient shifted out. */
  const TOP: bv32 := 0x3e00_0000

  lemma TopMultiplies(c: bv32, s: nat)
    requires IsRoot(s)
    ensures Multiplies(c & TOP, s)
  {
    hide Multiplies, IsRoot, Xor;
    TopIsSum(c);
    BitMultiplies(c, 0x200_0000, s);
    BitMultiplies(c, 0x400_0000, s);
    BitMultiplies(c, 0x800_0000, s);
    BitMultiplies(c, 0x1000_0000, s);
    BitMultiplies(c, 0x2000_0000, s);
    var c1 := Xor(c & 0x200_0000, c & 0x400_0000);
    var c2 := Xor(c1, c & 0x800_0000);
    var c3 := Xor(c2, c & 0x1000_0000);
    MultipliesSum(c & 0x200_0000, c & 0x400_0000, s);
    MultipliesSum(c1, c & 0x800_0000, s);
    MultipliesSum(c2, c & 0x1000_0000, s);
    MultipliesSum(c3, c & 0x2000_0000, s);
  }

  lemma TopIsSum(c: bv32)
    ensures c & TOP == Xor(Xor(Xor(Xor(c & 0x200_0000, c & 0x400_0000), c & 0x800_0000), c & 0x1000_0000), c & 0x2000_0000)
  {
  }

  lemma LowStep(low: bv32, v: bv8, s: nat)
    requires low < 0x200_0000 && Is5Bit(v)
    ensures Eval(PolyStep(low, v), s) == Plus(Turn(Eval(low, s), s), Embed(v))
  {
    hide PolyStep, Embed, Turn, Plus, Group;
    LowGroups(low, v);
    EmbedZero(0);
    TurnZero(s);
    ZeroPlus(Embed(Group(low, 1)));
  }

  lemma LowGroups(low: bv32, v: bv8)
    requires low < 0x200_0000 && Is5Bit(v)
    ensures var c := PolyStep(low, v);
      && Group(c, 0) == Group(low, 1) && Group(c, 1) == Group(low, 2) && Group(c, 2) == Group(low, 3)
      && Group(c, 3) == Group(low, 4) && Group(c, 4) == Group(low, 5) && Group(c, 5) == v && Group(low, 0) == 0
  {
    hide PolyStep, Leading;
    var c := PolyStep(low, v);
    StepShifts(low, v);
    LowParts(low, v);
    LeadingStep(c, 1);
    LeadingStep(c, 2);
    LeadingStep(c, 3);
    LeadingStep(c, 4);
    LeadingStep(low, 2);
    LeadingStep(low, 3);
    LeadingStep(low, 4);
    LeadingStep(low, 5);
  }

  lemma LowParts(low: bv32, v: bv8)
    requires low < 0x200_0000 && Is5Bit(v)
    ensures var c := (low << 5) ^ (v as bv32);
      && c < BOUND && Leading(c, 4) == low && Leading(low, 5) == low && Leading(low, 0) == 0 && Leading(c, 5) & 31 == v as bv32
  {
  }

  /** A step of the remainder multiplies by the root and adds the value. */
  lemma EvalStep(c: bv32, v: bv8, s: nat)
    requires c < BOUND && Is5Bit(v) && IsRoot(s)
    ensures Eval(PolyStep(c, v), s) == Plus(Turn(Eval(c, s), s), Embed(v))
  {
    hide PolyStep, Eval, Turn, Plus, Embed, Xor;
    var top, low := c & TOP, c & 0x1ffffff;
    Halves(c, v);
    StepLinear(top, low, 0, v);
    EvalLinear(top, low, s);
    EvalLinear(PolyStep(top, 0), PolyStep(low, v), s);
    TopMultiplies(c, s);
    LowStep(low, v, s);
    TurnLinear(Eval(top, s), Eval(low, s), s);
    PlusAssoc(Turn(Eval(top, s), s), Turn(Eval(low, s), s), Embed(v));
  }

  lemma Halves(c: bv32, v: bv8)
    requires c < BOUND
    ensures c == Xor(c & TOP, c & 0x1ffffff) && c & 0x1ffffff < 0x200_0000 && 0 ^ v == v
  {
  }

  // ---------------------------------------------------------------- scattered errors

  lemma EvalOfZero(s: nat)
    ensures Eval(0, s) == 0
  {
    hide Turn;
    assert Group(0, 0) == 0 && Group(0, 1) == 0 && Group(0, 2) == 0 && Group(0, 3) == 0 && Group(0, 4) == 0 && Group(0, 5) == 0;
    TurnZero(s);
  }

  /** Values that are zero turn the polynomial at a root. */
  lemma {:induction false} EvalZeros(c: bv32, z: Octets, s: nat)
    requires c < BOUND && AllZero(z) && IsRoot(s)
    ensures Eval(Poly(c, z), s) == Turn(Eval(c, s), s * |z|)
    decreases |z|
  {
    hide PolyStep, Eval, IsRoot;
    if z != [] {
      var c1 := PolyStep(c, 0);
      StepBound(c, 0);
      EvalStep(c, 0, s);
      EmbedZero(0);
      PlusZero(Turn(Eval(c, s), s));
      EvalZeros(c1, z[1..], s);
      TurnAdd(Eval(c, s), s, s * (|z| - 1));
      Distributed(s, |z|);
    }
  }

  lemma PlusZero(a: Field)
    ensures Plus(a, 0) == a
  {
  }

  lemma Distributed(s: nat, n: nat)
    requires n > 0
    ensures s + s * (n - 1) == s * n
  {
  }

  /** From one place to just after another, with zeros between. */
  lemma Advance(d: Octets, i: nat, j: nat, s: nat)
    requires i <= j < |d| && All5Bit(d) && AllZero(d[i..j]) && IsRoot(s)
    ensures Eval(Poly(0, d[..j + 1]), s) == Plus(Turn(Eval(Poly(0, d[..i]), s), s * (j + 1 - i)), Embed(d[j]))
  {
    hide PolyStep, Eval, IsRoot, Turn, Plus, Embed;
    var c := Poly(0, d[..i]);
    PolyBound(0, d[..i]);
    PolyBound(c, d[i..j]);
    var c1 := Poly(c, d[i..j]);
    assert d[..j + 1] == d[..i] + (d[i..j] + [d[j]]);
    PolyConcat(0, d[..i], d[i..j] + [d[j]]);
    PolyConcat(c, d[i..j], [d[j]]);
    assert Poly(c1, [d[j]]) == PolyStep(c1, d[j]) by { PolyOne(c1, d[j]); }
    assert Is5Bit(d[j]);
    EvalStep(c1, d[j], s);
    EvalZeros(c, d[i..j], s);
    TurnAdd(Eval(c, s), s * (j - i), s);
    Distributed(s, j + 1 - i);
  }

  lemma PolyOne(c: bv32, v: bv8)
    ensures Poly(c, [v]) == PolyStep(c, v)
  {
    hide PolyStep;
    assert [v][1..] == [];
  }

  /** A word with remainder zero has it already after its last value that is not zero. */
  lemma ZeroBefore(d: Octets, k: nat)
    requires k < |d| && Poly(0, d) == 0 && AllZero(d[k + 1..])
    ensures Poly(0, d[..k + 1]) == 0
  {
    hide Poly;
    assert d == d[..k + 1] + d[k + 1..];
    PolyConcat(0, d[..k + 1], d[k + 1..]);
    PolyBound(0, d[..k + 1]);
    if Poly(0, d[..k + 1]) != 0 { DifferenceStays(Poly(0, d[..k + 1]), d[k + 1..]); }
  }

  predicate ZeroBut(d: Octets, at: set<nat>) { forall i :: 0 <= i < |d| && i !in at ==> d[i] == 0 }

  lemma OneValue(d: Octets, i: nat)
    requires i < |d| && All5Bit(d) && Poly(0, d) == 0 && ZeroBut(d, {i})
    ensures d[i] == 0
  {
    hide Poly, Eval, Turn, Plus, Embed;
    ZeroBefore(d, i);
    Advance(d, 0, i, 24);
    assert Poly(0, d[..0]) == 0 by { PolyNone(d); }
    EvalOfZero(24);
    TurnZero(24 * (i + 1));
    ZeroPlus(Embed(d[i]));
    assert Is5Bit(d[i]);
    EmbedZero(d[i]);
  }

  lemma PolyNone(d: Octets)
    ensures Poly(0, d[..0]) == 0
  {
  }

  /** The first value that is not zero, at a root. */
  lemma FirstValue(d: Octets, i: nat, s: nat)
    requires i < |d| && All5Bit(d) && AllZero(d[..i]) && IsRoot(s)
    ensures Eval(Poly(0, d[..i + 1]), s) == Embed(d[i])
  {
    hide Poly, Eval, Turn, Plus, Embed, IsRoot;
    Advance(d, 0, i, s);
    assert d[0..i] == d[..i];
    PolyNone(d);
    EvalOfZero(s);
    TurnZero(s * (i + 1));
    ZeroPlus(Embed(d[i]));
  }

  lemma TwoValues(d: Octets, i: nat, k: nat)
    requires i < k < |d| && k - i < 1023 && All5Bit(d) && Poly(0, d) == 0 && ZeroBut(d, {i, k})
    ensures d[i] == 0 && d[k] == 0
  {
    hide Poly, Eval, Turn, Plus, Embed;
    ZeroBefore(d, k);
    forall s: nat | IsRoot(s) ensures Plus(Turn(Embed(d[i]), s * (k - i)), Embed(d[k])) == 0 {
      FirstValue(d, i, s);
      Advance(d, i + 1, k, s);
      EvalOfZero(s);
    }
    RootsAre();
    TwoIndependent(Embed(d[i]), Embed(d[k]), k - i);
    assert Is5Bit(d[i]) && Is5Bit(d[k]);
    EmbedZero(d[i]);
    EmbedZero(d[k]);
  }

  lemma SumZero(a: Field, b: Field)
    ensures Plus(a, b) == 0 <==> a == b
  {
  }

  lemma TwoIndependent(a: Field, c: Field, p: nat)
    requires 0 < p < 1023
    requires Plus(Turn(a, 24 * p), c) == 0 && Plus(Turn(a, 25 * p), c) == 0
    ensures a == 0 && c == 0
  {
    hide Turn, Plus;
    var x := Turn(a, 24 * p);
    TurnAdd(a, 24 * p, p);
    SumZero(x, c);
    SumZero(Turn(x, p), c);
    NoneComesBack(x, p);
    TurnZero(24 * p);
    TurnInjective(a, 0, 24 * p);
  }

  lemma ThreeValues(d: Octets, i: nat, j: nat, k: nat)
    requires i < j < k < |d| && k - i < 1023 && All5Bit(d) && Poly(0, d) == 0 && ZeroBut(d, {i, j, k})
    ensures d[i] == 0 && d[j] == 0 && d[k] == 0
  {
    hide Poly, Eval, Turn, Plus, Embed;
    ZeroBefore(d, k);
    var p, q := k - i, k - j;
    forall s: nat | IsRoot(s)
      ensures Plus(Plus(Turn(Embed(d[i]), s * p), Turn(Embed(d[j]), s * q)), Embed(d[k])) == 0
    {
      FirstValue(d, i, s);
      Advance(d, i + 1, j, s);
      Advance(d, j + 1, k, s);
      EvalOfZero(s);
      TurnLinear(Turn(Embed(d[i]), s * (j - i)), Embed(d[j]), s * q);
      TurnAdd(Embed(d[i]), s * (j - i), s * q);
      assert s * (j - i) + s * q == s * p;
    }
    RootsAre();
    ThreeIndependent(Embed(d[i]), Embed(d[j]), Embed(d[k]), p, q);
    assert Is5Bit(d[i]) && Is5Bit(d[j]) && Is5Bit(d[k]);
    EmbedZero(d[i]);
    EmbedZero(d[j]);
    EmbedZero(d[k]);
  }

  lemma SameDifference(a: Field, b: Field, x: Field, y: Field, c: Field)
    requires Plus(Plus(a, b), c) == 0 && Plus(Plus(x, y), c) == 0
    ensures Plus(a, x) == Plus(b, y)
  {
    hide Plus;
    SumZero(Plus(a, b), c);
    SumZero(Plus(x, y), c);
    SumZero(Plus(a, b), Plus(x, y));
    PlusSwap(a, b, x, y);
    SumZero(Plus(a, x), Plus(b, y));
  }

  /** Three elements turned by different amounts sum to zero at three consecutive roots only if all are zero. */
  lemma ThreeIndependent(a: Field, b: Field, c: Field, p: nat, q: nat)
    requires 0 < q < p < 1023
    requires Plus(Plus(Turn(a, 24 * p), Turn(b, 24 * q)), c) == 0
    requires Plus(Plus(Turn(a, 25 * p), Turn(b, 25 * q)), c) == 0
    requires Plus(Plus(Turn(a, 26 * p), Turn(b, 26 * q)), c) == 0
    ensures a == 0 && b == 0 && c == 0
  {
    hide Turn, Plus;
    var x, y := Turn(a, 24 * p), Turn(b, 24 * q);
    var x1, y1 := Turn(x, p), Turn(y, q);
    var x2, y2 := Turn(x1, p), Turn(y1, q);
    TurnAdd(a, 24 * p, p);
    TurnAdd(b, 24 * q, q);
    TurnAdd(a, 25 * p, p);
    TurnAdd(b, 25 * q, q);
    SameDifference(x, y, x1, y1, c);
    SameDifference(x1, y1, x2, y2, c);
    var u := Plus(x, x1);
    TurnLinear(x, x1, p);
    TurnLinear(y, y1, q);
    TurnsMeet(u, p, q);
    SumZero(x, x1);
    SumZero(y, y1);
    NoneComesBack(x, p);
    NoneComesBack(y, q);
    TurnZero(24 * p);
    TurnZero(24 * q);
    TurnInjective(a, 0, 24 * p);
    TurnInjective(b, 0, 24 * q);
    PlusZero(0);
    SumZero(0, c);
  }

  /** The places where two sequences differ. */
  function Errors(v: Octets, w: Octets): set<nat>
    requires |v| == |w|
  {
    set i: nat | i < |v| && v[i] != w[i]
  }

  /** A word of few values that are not zero, close together, has remainder zero only if it has none. */
  lemma FewValues(d: Octets, at: set<nat>)
    requires All5Bit(d) && Poly(0, d) == 0 && |at| <= 3 && ZeroBut(d, at) && Close(d, at)
    ensures AllZero(d)
  {
    hide Poly, All5Bit, ZeroBut, AllZero, Close;
    if at == {} {
      NoValue(d);
    } else {
      var i :| i in at;
      if j :| j in at && j != i {
        if k :| k in at && k != i && k != j {
          assert {i, j, k} <= at && |{i, j, k}| == 3;
          ExactlyThese(at, {i, j, k});
          ThreeOf(d, i, j, k);
        } else {
          assert at == {i, j};
          TwoOf(d, i, j);
        }
      } else {
        assert at == {i};
        OneOf(d, i);
      }
    }
  }

  lemma ExactlyThese(a: set<nat>, b: set<nat>)
    requires b <= a && |a| <= |b|
    ensures a == b
  {
    assert a == b + (a - b);
  }

  /** Places of the word within 1023 of each other. */
  predicate Close(d: Octets, at: set<nat>) { forall i, j :: i in at && j in at ==> i < |d| && j < i + 1023 }

  lemma NoValue(d: Octets)
    requires ZeroBut(d, {})
    ensures AllZero(d)
  {
  }

  lemma OneOf(d: Octets, i: nat)
    requires All5Bit(d) && Poly(0, d) == 0 && ZeroBut(d, {i}) && Close(d, {i})
    ensures AllZero(d)
  {
    hide Poly, All5Bit;
    OneValue(d, i);
  }

  lemma TwoOf(d: Octets, i: nat, j: nat)
    requires i != j && All5Bit(d) && Poly(0, d) == 0 && ZeroBut(d, {i, j}) && Close(d, {i, j})
    ensures AllZero(d)
  {
    hide Poly, All5Bit;
    assert {i, j} == {j, i};
    TwoValues(d, if i < j then i else j, if i < j then j else i);
  }

  lemma ThreeOf(d: Octets, i: nat, j: nat, k: nat)
    requires i != j && j != k && i != k && All5Bit(d) && Poly(0, d) == 0 && ZeroBut(d, {i, j, k}) && Close(d, {i, j, k})
    ensures AllZero(d)
  {
    hide Poly, All5Bit;
    var lo, mid, hi := Sorted(i, j, k);
    ThreeValues(d, lo, mid, hi);
  }

  lemma Sorted(i: nat, j: nat, k: nat) returns (lo: nat, mid: nat, hi: nat)
    requires i != j && j != k && i != k
    ensures lo < mid < hi && {lo, mid, hi} == {i, j, k}
  {
    lo := if i < j && i < k then i else if j < k then j else k;
    hi := if i > j && i > k then i else if j > k then j else k;
    mid := if i != lo && i != hi then i else if j != lo && j != hi then j else k;
  }

  /**
   Up to three wrong values within 1023 places are always detected: of two different value
   sequences under the same prefix that differ only so, at most one has a valid checksum.
   */
  lemma ThreeErrorsDetected(hrp: Octets, v: Octets, w: Octets, from: nat)
    requires |v| == |w| && All5Bit(v) && All5Bit(w) && DifferWithin(v, w, from, from + 1023) && |Errors(v, w)| <= 3
    requires Verifies(hrp, v) && Verifies(hrp, w)
    ensures v == w
  {
    hide Poly, PolyStep, Xor;
    var c := Poly(1, Expanded(hrp));
    PolyConcat(1, Expanded(hrp), v);
    PolyConcat(1, Expanded(hrp), w);
    PolyLinear(c, c, v, w);
    XorZero(c);
    XorCancel(Poly(c, v), Poly(c, w));
    var d := XorBytes(v, w);
    forall i | 0 <= i < |d| ensures Is5Bit(d[i]) && (d[i] == 0 <==> v[i] == w[i]) {
      assert Is5Bit(v[i]) && Is5Bit(w[i]);
      Xor5Bit(v[i], w[i]);
    }
    FewValues(d, Errors(v, w));
  }

  lemma {:induction false} FewerShifted(a: set<nat>, b: set<nat>, k: nat)
    requires forall i :: i in a ==> i + k in b
    ensures |a| <= |b|
    decreases |a|
  {
    if i :| i in a {
      FewerShifted(a - {i}, b - {i + k}, k);
    }
  }

  /** Values that differ are spelled by different letters. */
  lemma ValuesDiffer(s: Octets, t: Octets, i: nat)
    requires |s| == |t| && i < |s| && InCharset(s) && InCharset(t) && Valued(s)[i] != Valued(t)[i]
    ensures Lowered(s)[i] != Lowered(t)[i]
  {
    hide Charset, CharsetRev, LowerCase, Is5Bit;
    CharsetSurjective(s[i]);
    CharsetSurjective(t[i]);
    CharsetInverse(CharsetRev(s[i]));
    CharsetInverse(CharsetRev(t[i]));
  }

  /**
   A text that `Decode` accepts is not accepted any more once up to three of its letters after
   the separator are others: of two accepted texts that far apart, both are the same but for case.
   */
  lemma MistypedRefused(s: Octets, t: Octets, pos: nat)
    requires Accepted(s, pos) && Accepted(t, pos) && |s| == |t| && Lowered(s[..pos]) == Lowered(t[..pos])
    requires |Errors(Lowered(s), Lowered(t))| <= 3
    ensures Lowered(s) == Lowered(t)
  {
    hide Verifies, Lowered, Valued, AllPrintable, HasUpper, HasLower, InCharset, All5Bit;
    var x, y := s[pos + 1..], t[pos + 1..];
    ValuedSpelled(x);
    ValuedSpelled(y);
    LettersDiffer(s, t, pos);
    assert DifferWithin(Valued(x), Valued(y), 0, 1023);
    ThreeErrorsDetected(Lowered(s[..pos]), Valued(x), Valued(y), 0);
    assert s == s[..pos] + [SEPARATOR] + x && t == t[..pos] + [SEPARATOR] + y;
    LoweredJoin(s[..pos], x);
    LoweredJoin(t[..pos], y);
  }

  lemma LettersDiffer(s: Octets, t: Octets, pos: nat)
    requires pos < |s| == |t| && InCharset(s[pos + 1..]) && InCharset(t[pos + 1..])
    ensures |Errors(Valued(s[pos + 1..]), Valued(t[pos + 1..]))| <= |Errors(Lowered(s), Lowered(t))|
  {
    hide CharsetRev, LowerCase, InCharset;
    var x, y := s[pos + 1..], t[pos + 1..];
    forall i | i in Errors(Valued(x), Valued(y)) ensures i + (pos + 1) in Errors(Lowered(s), Lowered(t)) {
      ValuesDiffer(x, y, i);
    }
    FewerShifted(Errors(Valued(x), Valued(y)), Errors(Lowered(s), Lowered(t)), pos + 1);
  }
}
