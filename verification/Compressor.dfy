/**
 Compact forms of amounts and scripts of transaction outputs.
 */
module Compressor {
  import opened Common
  import opened Limbs
  import opened Streams

  // ---------------------------------------------------------------- amounts

  function Pow10(e: nat): nat { Pow(10, e) }

  /** An amount without its trailing zeroes (nine at most), and how many they are. */
  function Stripped(n: nat, e: nat): (nat, nat)
    requires e <= 9
    decreases 9 - e
  {
    if n % 10 == 0 && e < 9 then Stripped(n / 10, e + 1) else (n, e)
  }

  /** The compact form of an amount, as a number of any size. */
  function CompactAmount(n: nat): nat {
    hide Stripped, Pow10;
    if n == 0 then 0 else
    StrippedValue(n, 0);
    var (m, e) := Stripped(n, 0);
    if e < 9 then 1 + (m / 10 * 9 + m % 10 - 1) * 10 + e else 1 + (m - 1) * 10 + 9
  }

  /** The amount a compact form stands for. */
  function AmountOf(x: nat): nat {
    if x == 0 then 0 else Significant(x) * Pow10((x - 1) % 10)
  }

  function Significant(x: nat): nat
    requires x > 0
  {
    var y := (x - 1) / 10;
    if (x - 1) % 10 < 9 then y / 9 * 10 + y % 9 + 1 else y + 1
  }

  /** Trailing zeroes do not matter to the digits above them. */
  lemma {:induction false} StrippedValue(n: nat, e: nat)
    requires e <= 9 && n > 0
    ensures var (m, f) := Stripped(n, e); e <= f <= 9 && n == m * Pow10(f - e) && m > 0 && (f < 9 ==> m % 10 != 0)
    decreases 9 - e
  {
    if n % 10 == 0 && e < 9 {
      StrippedValue(n / 10, e + 1);
      var (m, f) := Stripped(n / 10, e + 1);
      assert Pow10(f - e) == 10 * Pow10(f - e - 1);
      MulAssoc(m, Pow10(f - e - 1), 10);
    }
  }

  /** Zeroes put back are stripped again. */
  lemma {:induction false} StrippedBack(m: nat, k: nat, e: nat)
    requires e + k <= 9 && (e + k < 9 ==> m % 10 != 0)
    ensures Stripped(m * Pow10(k), e) == (m, e + k)
    decreases k
  {
    if k > 0 {
      assert Pow10(k) == 10 * Pow10(k - 1);
      MulAssoc(m, Pow10(k - 1), 10);
      assert m * Pow10(k) == m * Pow10(k - 1) * 10;
      StrippedBack(m, k - 1, e + 1);
    }
  }

  /** Expanding undoes compacting, for every amount. */
  lemma {:induction false} ExpandCompact(n: nat)
    ensures AmountOf(CompactAmount(n)) == n
  {
    hide Pow10, Stripped;
    if n > 0 {
      StrippedValue(n, 0);
      var (m, e) := Stripped(n, 0);
      CompactParts(n, m, e);
    }
  }

  lemma {:induction false} CompactParts(n: nat, m: nat, e: nat)
    requires n > 0 && m > 0 && e <= 9 && Stripped(n, 0) == (m, e) && (e < 9 ==> m % 10 != 0)
    ensures var x := CompactAmount(n); x > 0 && (x - 1) % 10 == e && Significant(x) == m
  {
    hide Stripped;
  }

  /** Compacting undoes expanding, for every number: the forms and the amounts correspond one to one. */
  lemma {:induction false} CompactExpand(x: nat)
    ensures CompactAmount(AmountOf(x)) == x
  {
    hide Pow10, Stripped;
    if x > 0 {
      var m, e := Significant(x), (x - 1) % 10;
      Pow10Positive(m, e);
      StrippedBack(m, e, 0);
    }
  }

  lemma Pow10Positive(m: nat, e: nat)
    requires m > 0
    ensures m * Pow10(e) > 0
  {
    MulAtLeast(m, Pow10(e));
  }

  /** Amounts up to this one have a compact form of 64 bits. */
  const COMPACT_LIMIT: nat := (LIMIT64 - 9) / 9

  lemma CompactFits(n: nat)
    requires n <= COMPACT_LIMIT
    ensures CompactAmount(n) < LIMIT64
  {
    hide Stripped;
    if n > 0 {
      StrippedValue(n, 0);
      var (m, e) := Stripped(n, 0);
      if e > 0 { TenTimes(m, e, n); } else { assert n == m by { assert Pow10(0) == 1; } }
    }
  }

  lemma TenTimes(m: nat, e: nat, n: nat)
    requires e > 0 && n == m * Pow10(e)
    ensures n >= 10 * m
  {
    assert Pow10(e) == 10 * Pow10(e - 1);
    MulAssoc(m, 10, Pow10(e - 1));
    MulAtLeast(Pow10(e - 1), 10 * m);
  }

  /** What `CompressAmount` returns: the compact form in 64 bits. */
  function Compressed(n: nat): (x: nat)
    ensures x < LIMIT64
  {
    Wrapped(CompactAmount(n), LIMIT64)
  }

  /** What `DecompressAmount` returns. */
  function Decompressed(x: nat): (n: nat)
    ensures n < LIMIT64
  {
    Wrapped(AmountOf(x), LIMIT64)
  }

  /**
   In 64 bits an amount comes back if and only if its compact form has 64 bits. A form that is
   cut never comes back, not even by accident.
   */
  lemma AmountRoundTrip(n: nat)
    requires n < LIMIT64
    ensures Decompressed(Compressed(n)) == n <==> CompactAmount(n) < LIMIT64
    ensures 9 * n + 9 <= 0x1_0000_0000_0000_0000 ==> CompactAmount(n) < LIMIT64
  {
    hide Wrapped, Stripped;
    ExpandCompact(n);
    if n <= COMPACT_LIMIT { CompactFits(n); }
    if CompactAmount(n) >= LIMIT64 { CutIsLost(n); }
  }

  /** The same the other way round: a number is the form of what it stands for if and only if that has 64 bits. */
  lemma FormRoundTrip(x: nat)
    requires x < LIMIT64
    ensures Compressed(Decompressed(x)) == x <==> AmountOf(x) < LIMIT64
  {
    hide Wrapped, CompactAmount, AmountOf;
    CompactExpand(x);
    var n := Decompressed(x);
    AmountRoundTrip(n);
    ExpandCompact(n);
  }

  /** An amount with a trailing zero has a compact form of 64 bits; otherwise the form is nine times it, less at most 8. */
  lemma LargeForm(n: nat)
    requires n < LIMIT64
    ensures n % 10 == 0 ==> CompactAmount(n) < LIMIT64
    ensures n % 10 != 0 ==> CompactAmount(n) == 9 * n + n % 10 - 9
  {
    hide Pow10, Stripped;
    if n > 0 {
      StrippedValue(n, 0);
      var (m, e) := Stripped(n, 0);
      if n % 10 != 0 {
        NothingStripped(n);
      } else {
        SomethingStripped(n);
        TenTimes(m, e, n);
      }
    }
  }

  lemma NothingStripped(n: nat)
    requires n % 10 != 0
    ensures Stripped(n, 0) == (n, 0)
  {
  }

  lemma SomethingStripped(n: nat)
    requires n > 0 && n % 10 == 0
    ensures Stripped(n, 0).1 > 0
  {
    StrippedValue(n / 10, 1);
  }

  /** A form is nine times its significant digits, up to the last one and the exponent. */
  lemma SignificantForm(x: nat)
    requires x > 0 && (x - 1) % 10 < 9
    ensures var s := Significant(x); 1 <= s % 10 <= 9 && x + 9 == 9 * s + s % 10 + (x - 1) % 10
  {
    var y := (x - 1) / 10;
    var a, b := y / 9, y % 9;
    assert Significant(x) == 10 * a + b + 1;
  }

  /** A number cut to 64 bits differs from it by a multiple of 2^64. */
  lemma WrappedParts(x: nat) returns (k: nat)
    ensures Wrapped(x, LIMIT64) + LIMIT64 * k == x
  {
    k := x / LIMIT64;
  }

  /**
   What it would take for an amount to come back although `m` times 2^64 was cut off its form:
   `s` are the significant digits that the cut form is read with, and `p` the power of ten.
   */
  ghost predicate Accident(n: int, m: int, s: int, e: int, p: int, t: int) {
    && 0 <= n < LIMIT64 && n % 10 != 0 && s % 10 != 0
    && m * LIMIT64 <= 9 * n + n % 10 - 9 < (m + 1) * LIMIT64
    && 9 * s + s % 10 + e == 9 * n + n % 10 - m * LIMIT64
    && s * p == n + LIMIT64 * t
  }

  lemma CutIsLost(n: nat)
    requires n < LIMIT64 && CompactAmount(n) >= LIMIT64
    ensures Decompressed(Compressed(n)) != n
  {
    hide Wrapped, CompactAmount, Pow10, Significant;
    LargeForm(n);
    var m := WrappedParts(CompactAmount(n));
    var c := Compressed(n);
    assert 1 <= m <= 8;
    CutExponent(n, m, c);
    SignificantForm(c);
    var e, s := (c - 1) % 10, Significant(c);
    var t := WrappedParts(AmountOf(c));
    SmallPowersOf10();
    NoneMatches(n, m, s, e, Pow10(e), t);
  }

  /** The exponent that the cut form is read with. */
  lemma CutExponent(n: nat, m: nat, c: nat)
    requires n % 10 != 0 && 1 <= m <= 8 && c + LIMIT64 * m == 9 * n + n % 10 - 9
    ensures c > 0 && (c - 1) % 10 == Exponent(m)
  {
  }

  function Exponent(m: nat): nat
    requires 1 <= m <= 8
  {
    if m == 1 || m == 6 then 4 else if m == 2 || m == 7 then 8 else if m == 3 || m == 8 then 2 else if m == 4 then 6 else 0
  }

  lemma SmallPowersOf10()
    ensures Pow10(0) == 1 && Pow10(2) == 100 && Pow10(4) == 1_0000 && Pow10(6) == 100_0000 && Pow10(8) == 1_0000_0000
  {
    assert Pow(10, 2) == 100;
    PowAdd(10, 2, 2);
    PowAdd(10, 4, 2);
    PowAdd(10, 4, 4);
  }

  /**
   The congruence modulo 2^64 leaves at most two amounts for each number of times 2^64 was
   cut off, and none of these is in the range in which that happens.
   */
  lemma NoneMatches(n: int, m: int, s: int, e: int, p: int, t: int)
    requires 1 <= m <= 8 && e == Exponent(m)
    requires p == if e == 0 then 1 else if e == 2 then 100 else if e == 4 then 1_0000 else if e == 6 then 100_0000 else 1_0000_0000
    ensures !Accident(n, m, s, e, p, t)
  {
    hide Accident;
    match m
    case 1 => Cut1(n, s, t);
    case 2 => Cut2(n, s, t);
    case 3 => Cut3(n, s, t);
    case 4 => Cut4(n, s, t);
    case 5 => Cut5(n, s, t);
    case 6 => Cut6(n, s, t);
    case 7 => Cut7(n, s, t);
    case 8 => Cut8(n, s, t);
  }

  lemma Cut1(n: int, s: int, t: int)
    ensures !Accident(n, 1, s, 4, 10000, t)
  {
    if Accident(n, 1, s, 4, 10000, t) {
      var d, k := s % 10 + 4 - n % 10, 1 * 10000 + 9 * t;
      Congruent1(n, n % 10, s, s % 10, t, d, k);
      Digits1(n, s, d);
      if d == 2 {
        OnlySolution(89991, 15842828238033401399, 77288, n, 20000, k, 15288550632769423584, 17176);
      } else {
        OnlySolution(89991, 15842828238033401399, 77288, n, 110000, k, 10300052185393623248, 94472);
      }
    }
  }

  lemma Congruent1(n: int, n': int, s: int, s': int, t: int, d: int, k: int)
    requires 9 * s + s' + 4 == 9 * n + n' - 1 * LIMIT64 && s * 10000 == n + LIMIT64 * t
    requires d == s' + 4 - n' && k == 1 * 10000 + 9 * t
    ensures 89991 * n == 10000 * d + LIMIT64 * k
  {
    assert 9 * s == 9 * n - d - 1 * LIMIT64;
  }

  lemma Digits1(n: int, s: int, d: int)
    requires 9 * s == 9 * n - d - 1 * LIMIT64 && -4 <= d <= 12
    ensures d == 2 || d == 11
  {
    var u := n - s - 2049638230412172401;
    assert d == 9 * u - 7;
  }

  lemma Cut2(n: int, s: int, t: int)
    ensures !Accident(n, 2, s, 8, 100000000, t)
  {
    if Accident(n, 2, s, 8, 100000000, t) {
      var d, k := s % 10 + 8 - n % 10, 2 * 100000000 + 9 * t;
      Congruent2(n, n % 10, s, s % 10, t, d, k);
      Digits2(n, s, d);
      if d == 4 {
        OnlySolution(899999991, 16430456183658535111, 801627125, n, 400000000, k, 14480868974329830400, 356278725);
      } else {
        OnlySolution(899999991, 16430456183658535111, 801627125, n, 1300000000, k, 14781022037580233472, 1157905858);
      }
    }
  }

  lemma Congruent2(n: int, n': int, s: int, s': int, t: int, d: int, k: int)
    requires 9 * s + s' + 8 == 9 * n + n' - 2 * LIMIT64 && s * 100000000 == n + LIMIT64 * t
    requires d == s' + 8 - n' && k == 2 * 100000000 + 9 * t
    ensures 899999991 * n == 100000000 * d + LIMIT64 * k
  {
    assert 9 * s == 9 * n - d - 2 * LIMIT64;
  }

  lemma Digits2(n: int, s: int, d: int)
    requires 9 * s == 9 * n - d - 2 * LIMIT64 && 0 <= d <= 16
    ensures d == 4 || d == 13
  {
    var u := n - s - 4099276460824344803;
    assert d == 9 * u - 5;
  }

  lemma Cut3(n: int, s: int, t: int)
    ensures !Accident(n, 3, s, 2, 100, t)
  {
    if Accident(n, 3, s, 2, 100, t) {
      var d, k := s % 10 + 2 - n % 10, 3 * 100 + 9 * t;
      Congruent3(n, n % 10, s, s % 10, t, d, k);
      Digits3(n, s, d);
      if d == -3 {
        OnlySolution(891, 13705661702352102323, 662, n, -300, k, 1925417731599313468, -223);
      } else {
        OnlySolution(891, 13705661702352102323, 662, n, 600, k, 14595908610510924680, 445);
      }
    }
  }

  lemma Congruent3(n: int, n': int, s: int, s': int, t: int, d: int, k: int)
    requires 9 * s + s' + 2 == 9 * n + n' - 3 * LIMIT64 && s * 100 == n + LIMIT64 * t
    requires d == s' + 2 - n' && k == 3 * 100 + 9 * t
    ensures 891 * n == 100 * d + LIMIT64 * k
  {
    assert 9 * s == 9 * n - d - 3 * LIMIT64;
  }

  lemma Digits3(n: int, s: int, d: int)
    requires 9 * s == 9 * n - d - 3 * LIMIT64 && -6 <= d <= 10
    ensures d == -3 || d == 6
  {
    var u := n - s - 6148914691236517205;
    assert d == 9 * u - 3;
  }

  lemma Cut4(n: int, s: int, t: int)
    ensures !Accident(n, 4, s, 6, 1000000, t)
  {
    if Accident(n, 4, s, 6, 1000000, t) {
      var d, k := s % 10 + 6 - n % 10, 4 * 1000000 + 9 * t;
      Congruent4(n, n % 10, s, s % 10, t, d, k);
      Digits4(n, s, d);
      if d == -1 {
        OnlySolution(8999991, 12483635422780629383, 6090647, n, -1000000, k, 14161661572577611840, -676740);
      } else {
        OnlySolution(8999991, 12483635422780629383, 6090647, n, 8000000, k, 15833915935345966592, 5413913);
      }
    }
  }

  lemma Congruent4(n: int, n': int, s: int, s': int, t: int, d: int, k: int)
    requires 9 * s + s' + 6 == 9 * n + n' - 4 * LIMIT64 && s * 1000000 == n + LIMIT64 * t
    requires d == s' + 6 - n' && k == 4 * 1000000 + 9 * t
    ensures 8999991 * n == 1000000 * d + LIMIT64 * k
  {
    assert 9 * s == 9 * n - d - 4 * LIMIT64;
  }

  lemma Digits4(n: int, s: int, d: int)
    requires 9 * s == 9 * n - d - 4 * LIMIT64 && -2 <= d <= 14
    ensures d == -1 || d == 8
  {
    var u := n - s - 8198552921648689607;
    assert d == 9 * u - 1;
  }

  lemma Cut5(n: int, s: int, t: int)
    ensures !Accident(n, 5, s, 0, 1, t)
  {
  }

  lemma Cut6(n: int, s: int, t: int)
    ensures !Accident(n, 6, s, 4, 10000, t)
  {
    if Accident(n, 6, s, 4, 10000, t) {
      var d, k := s % 10 + 4 - n % 10, 6 * 10000 + 9 * t;
      Congruent6(n, n % 10, s, s % 10, t, d, k);
      Digits6(n, s, d);
      if d == 3 {
        OnlySolution(89991, 15842828238033401399, 77288, n, 30000, k, 4486081875444583760, 25765);
      } else {
        OnlySolution(89991, 15842828238033401399, 77288, n, 120000, k, 17944327501778335040, 103060);
      }
    }
  }

  lemma Congruent6(n: int, n': int, s: int, s': int, t: int, d: int, k: int)
    requires 9 * s + s' + 4 == 9 * n + n' - 6 * LIMIT64 && s * 10000 == n + LIMIT64 * t
    requires d == s' + 4 - n' && k == 6 * 10000 + 9 * t
    ensures 89991 * n == 10000 * d + LIMIT64 * k
  {
    assert 9 * s == 9 * n - d - 6 * LIMIT64;
  }

  lemma Digits6(n: int, s: int, d: int)
    requires 9 * s == 9 * n - d - 6 * LIMIT64 && -4 <= d <= 12
    ensures d == 3 || d == 12
  {
    var u := n - s - 12297829382473034410;
    assert d == 9 * u - 6;
  }

  lemma Cut7(n: int, s: int, t: int)
    ensures !Accident(n, 7, s, 8, 100000000, t)
  {
    if Accident(n, 7, s, 8, 100000000, t) {
      var d, k := s % 10 + 8 - n % 10, 7 * 100000000 + 9 * t;
      Congruent7(n, n % 10, s, s % 10, t, d, k);
      Digits7(n, s, d);
      if d == 5 {
        OnlySolution(899999991, 16430456183658535111, 801627125, n, 500000000, k, 4266028162630124288, 445348407);
      } else {
        OnlySolution(899999991, 16430456183658535111, 801627125, n, 1400000000, k, 4566181225880527360, 1246975540);
      }
    }
  }

  lemma Congruent7(n: int, n': int, s: int, s': int, t: int, d: int, k: int)
    requires 9 * s + s' + 8 == 9 * n + n' - 7 * LIMIT64 && s * 100000000 == n + LIMIT64 * t
    requires d == s' + 8 - n' && k == 7 * 100000000 + 9 * t
    ensures 899999991 * n == 100000000 * d + LIMIT64 * k
  {
    assert 9 * s == 9 * n - d - 7 * LIMIT64;
  }

  lemma Digits7(n: int, s: int, d: int)
    requires 9 * s == 9 * n - d - 7 * LIMIT64 && 0 <= d <= 16
    ensures d == 5 || d == 14
  {
    var u := n - s - 14347467612885206812;
    assert d == 9 * u - 4;
  }

  lemma Cut8(n: int, s: int, t: int)
    ensures !Accident(n, 8, s, 2, 100, t)
  {
    if Accident(n, 8, s, 2, 100, t) {
      var d, k := s % 10 + 2 - n % 10, 8 * 100 + 9 * t;
      Congruent8(n, n % 10, s, s % 10, t, d, k);
      Digits8(n, s, d);
      if d == -2 {
        OnlySolution(891, 13705661702352102323, 662, n, -200, k, 7432526512302726184, -149);
      } else {
        OnlySolution(891, 13705661702352102323, 662, n, 700, k, 1656273317504785780, 520);
      }
    }
  }

  lemma Congruent8(n: int, n': int, s: int, s': int, t: int, d: int, k: int)
    requires 9 * s + s' + 2 == 9 * n + n' - 8 * LIMIT64 && s * 100 == n + LIMIT64 * t
    requires d == s' + 2 - n' && k == 8 * 100 + 9 * t
    ensures 891 * n == 100 * d + LIMIT64 * k
  {
    assert 9 * s == 9 * n - d - 8 * LIMIT64;
  }

  lemma Digits8(n: int, s: int, d: int)
    requires 9 * s == 9 * n - d - 8 * LIMIT64 && -6 <= d <= 10
    ensures d == -2 || d == 7
  {
    var u := n - s - 16397105843297379214;
    assert d == 9 * u - 2;
  }

  /** A congruence modulo 2^64 has one solution within range, found with the inverse of the factor. */
  lemma OnlySolution(a: int, inv: int, j: int, n: int, b: int, k: int, n0: int, w: int)
    requires a * inv == 1 + LIMIT64 * j && a * n == b + LIMIT64 * k
    requires inv * b == n0 + LIMIT64 * w && 0 <= n < LIMIT64 && 0 <= n0 < LIMIT64
    ensures n == n0
  {
    MulAssoc(inv, a, n);
    MulAssoc(LIMIT64, j, n);
    MulAssoc(LIMIT64, inv, k);
    Distribute(1, LIMIT64 * j, n);
    Distribute(b, LIMIT64 * k, inv);
    var z := w + inv * k - j * n;
    assert n == n0 + LIMIT64 * z;
  }

  /** One amount that is lost. */
  lemma LargeAmountLost()
    ensures var n := 0x7fff_ffff_ffff_ffff; CompactAmount(n) >= LIMIT64 && Decompressed(Compressed(n)) != n
  {
    hide Wrapped, CompactAmount;
    LargeForm(0x7fff_ffff_ffff_ffff);
    AmountRoundTrip(0x7fff_ffff_ffff_ffff);
  }

  method CompressAmount(nAmount: nat) returns (x: nat)
    requires nAmount < LIMIT64
    ensures x == Compressed(nAmount)
    ensures Decompressed(x) == nAmount <==> CompactAmount(nAmount) < LIMIT64
  {
    hide Wrapped, Pow10, Decompressed;
    AmountRoundTrip(nAmount);
    var n := nAmount;
    if n == 0 { return 0; }
    var e := 0;
    StrippedValue(n, 0);
    while n % 10 == 0 && e < 9
      invariant 0 <= e <= 9 && Stripped(n, e) == Stripped(nAmount, 0)
      decreases n % 10 == 0, 9 - e
    {
      n := n / 10;
      e := e + 1;
    }
    if e < 9 {
      var d := n % 10;
      assert 1 <= d <= 9;
      n := n / 10;
      return Wrapped(1 + (n * 9 + d - 1) * 10 + e, LIMIT64);
    } else {
      return Wrapped(1 + (n - 1) * 10 + 9, LIMIT64);
    }
  }

  method DecompressAmount(x: nat) returns (n: nat)
    requires x < LIMIT64
    ensures n == Decompressed(x)
    ensures Compressed(n) == x <==> AmountOf(x) < LIMIT64
  {
    hide Wrapped, CompactAmount, Pow10;
    FormRoundTrip(x);
    if x == 0 { return 0; }
    var y := x - 1;
    var e := y % 10;
    y := y / 10;
    if e < 9 {
      var d := y % 9 + 1;
      y := y / 9;
      n := y * 10 + d;
    } else {
      n := y + 1;
    }
    assert n == Significant(x) < LIMIT64;
    n := WithZeroes(n, e);
  }

  /** Zeroes put behind a number of 64 bits. */
  method WithZeroes(m: nat, zeroes: nat) returns (n: nat)
    requires m < LIMIT64
    ensures n == Wrapped(m * Pow10(zeroes), LIMIT64)
  {
    hide Wrapped, Pow10, WithPow10;
    n := m;
    var e := zeroes;
    WithPow10Next(m, 0);
    assert m == Wrapped(m, LIMIT64);
    while e > 0
      invariant 0 <= e <= zeroes && n == Wrapped(WithPow10(m, zeroes - e), LIMIT64)
    {
      WrappedTimes10(WithPow10(m, zeroes - e));
      WithPow10Next(m, zeroes - e);
      n := Wrapped(n * 10, LIMIT64);
      e := e - 1;
    }
    assert WithPow10(m, zeroes) == m * Pow10(zeroes) by { WithPow10Is(m, zeroes); }
  }

  function WithPow10(m: nat, k: nat): nat { m * Pow10(k) }

  lemma WithPow10Is(m: nat, k: nat)
    ensures WithPow10(m, k) == m * Pow10(k)
  {
  }

  lemma WithPow10Next(m: nat, k: nat)
    ensures WithPow10(m, k + 1) == WithPow10(m, k) * 10 && WithPow10(m, 0) == m
  {
    assert Pow10(0) == 1;
    assert Pow10(k + 1) == 10 * Pow10(k);
    MulAssoc(m, Pow10(k), 10);
  }

  lemma WrappedTimes10(a: nat)
    ensures Wrapped(Wrapped(a, LIMIT64) * 10, LIMIT64) == Wrapped(a * 10, LIMIT64)
  {
  }

  // ---------------------------------------------------------------- scripts

  const OP_RETURN: Byte := 0x6a
  const OP_DUP: Byte := 0x76
  const OP_EQUAL: Byte := 0x87
  const OP_EQUALVERIFY: Byte := 0x88
  const OP_HASH160: Byte := 0xa9
  const OP_CHECKSIG: Byte := 0xac

  const MAX_SCRIPT_SIZE: nat := 10000

  const SPECIAL_SCRIPTS: nat := 6

  /** Public keys: which 65 bytes are a point on the curve, and the point a compressed key stands for. */
  datatype Keys = Keys(isFullyValid: Bytes -> bool, decompress: Bytes -> Option<Bytes>) {
    /** Decompressing gives uncompressed keys, and gives back every valid one from its half and its parity. */
    ghost predicate Sound() {
      && (forall k :: decompress(k).Some? ==> |decompress(k).value| == 65)
      && (forall k: Bytes :: |k| == 65 && k[0] == 4 && isFullyValid(k) ==> decompress(Half(k)) == Some(k))
    }
  }

  function Half(k: Bytes): Bytes
    requires |k| == 65
  {
    [2 + k[64] % 2] + k[1..33]
  }

  predicate IsToKeyID(s: Bytes) {
    |s| == 25 && s[0] == OP_DUP && s[1] == OP_HASH160 && s[2] == 20 && s[23] == OP_EQUALVERIFY && s[24] == OP_CHECKSIG
  }

  predicate IsToScriptID(s: Bytes) {
    |s| == 23 && s[0] == OP_HASH160 && s[1] == 20 && s[22] == OP_EQUAL
  }

  /** Pays to a compressed public key. */
  predicate IsToShortKey(s: Bytes) {
    |s| == 35 && s[0] == 33 && s[34] == OP_CHECKSIG && (s[1] == 2 || s[1] == 3)
  }

  /** Pays to an uncompressed public key on the curve. */
  predicate IsToLongKey(keys: Keys, s: Bytes) {
    |s| == 67 && s[0] == 65 && s[66] == OP_CHECKSIG && s[1] == 4 && keys.isFullyValid(s[1..66])
  }

  /** What `Compress` gives: a tag and the hash or key, or None if the script is of no special form. */
  function Compress(keys: Keys, s: Bytes): Option<Bytes> {
    if IsToKeyID(s) then Some([0] + s[3..23])
    else if IsToScriptID(s) then Some([1] + s[2..22])
    else if IsToShortKey(s) then Some([s[1]] + s[2..34])
    else if IsToLongKey(keys, s) then Some([4 + s[65] % 2] + s[2..34])
    else None
  }

  function SpecialSize(tag: nat): nat {
    if tag == 0 || tag == 1 then 20 else if 2 <= tag <= 5 then 32 else 0
  }

  /** What `Decompress` makes of a script; `s` is what was in it before, left there if the key is no point. */
  function Decompress(keys: Keys, tag: nat, v: Bytes, s: Bytes): Bytes
    requires tag < SPECIAL_SCRIPTS && |v| == SpecialSize(tag)
  {
    if tag == 0 then [OP_DUP, OP_HASH160, 20] + v + [OP_EQUALVERIFY, OP_CHECKSIG]
    else if tag == 1 then [OP_HASH160, 20] + v + [OP_EQUAL]
    else if tag <= 3 then [33, tag] + v + [OP_CHECKSIG]
    else match keys.decompress([tag - 2] + v)
      case None => s
      case Some(k) => [65] + k + [OP_CHECKSIG]
  }

  /** The bytes of a script in a stream. */
  function WrittenScript(keys: Keys, s: Bytes): Bytes {
    match Compress(keys, s)
    case Some(c) => c
    case None => VarInt(Wrapped(|s| + SPECIAL_SCRIPTS, LIMIT32), false) + s
  }

  /** Reading a script into one that holds `s`. */
  function ReadScript(keys: Keys, b: Bytes, s: Bytes): Parsed<Bytes> {
    match ReadVarInt(0, b, LIMIT32)
    case None => None
    case Some((n, rest)) =>
      if n < SPECIAL_SCRIPTS then
        var k := SpecialSize(n);
        if |rest| < k then None else Some((Decompress(keys, n, rest[..k], s), rest[k..]))
      else
        var size := n - SPECIAL_SCRIPTS;
        if size > MAX_SCRIPT_SIZE then
          if size >= 0x8000_0000 || |rest| < size then None else Some((s + [OP_RETURN], rest[size..]))
        else if |rest| < size then None
        else Some((rest[..size], rest[size..]))
  }

  /** A tag is read back as itself. */
  lemma TagRead(tag: Byte, rest: Bytes)
    requires tag < 128
    ensures ReadVarInt(0, [tag] + rest, LIMIT32) == Some((tag as nat, rest))
  {
    VarIntRoundTrip(tag, rest, LIMIT32);
    assert VarInt(tag, false) == [tag];
  }

  /** Decompressing gives back every script of a special form. */
  lemma SpecialRoundTrip(keys: Keys, s: Bytes)
    requires keys.Sound() && Compress(keys, s).Some?
    ensures var c := Compress(keys, s).value;
            1 <= |c| && c[0] < SPECIAL_SCRIPTS && |c[1..]| == SpecialSize(c[0]) && Decompress(keys, c[0], c[1..], []) == s
  {
    var c := Compress(keys, s).value;
    if IsToKeyID(s) {
      assert s == [OP_DUP, OP_HASH160, 20] + s[3..23] + [OP_EQUALVERIFY, OP_CHECKSIG];
    } else if IsToScriptID(s) {
      assert s == [OP_HASH160, 20] + s[2..22] + [OP_EQUAL];
    } else if IsToShortKey(s) {
      assert s == [33, s[1]] + s[2..34] + [OP_CHECKSIG];
    } else {
      LongKeyBack(keys, s);
    }
  }

  lemma LongKeyBack(keys: Keys, s: Bytes)
    requires keys.Sound() && IsToLongKey(keys, s)
    ensures keys.decompress([2 + s[65] % 2] + s[2..34]) == Some(s[1..66])
    ensures s == [65] + s[1..66] + [OP_CHECKSIG]
  {
    var k := s[1..66];
    assert k[1..33] == s[2..34];
    assert k[64] == s[65];
    assert Half(k) == [2 + s[65] % 2] + s[2..34];
  }

  /** Reading has given this value, whatever it left. */
  predicate Gives<T(==)>(r: Parsed<T>, v: T) { r.Some? && r.value.0 == v }

  /**
   A script is read back, and exactly its bytes are consumed, if and only if it is within
   the size limit; a longer one never gives itself.
   */
  lemma ScriptRoundTrip(keys: Keys, s: Bytes, rest: Bytes)
    requires keys.Sound()
    ensures |s| <= MAX_SCRIPT_SIZE <==> ReadScript(keys, WrittenScript(keys, s) + rest, []) == Some((s, rest))
    ensures |s| > MAX_SCRIPT_SIZE ==> !Gives(ReadScript(keys, WrittenScript(keys, s) + rest, []), s)
  {
    hide Keys.Sound, ReadVarInt, VarInt, Wrapped;
    match Compress(keys, s)
    case Some(c) =>
      SpecialRoundTrip(keys, s);
      assert c + rest == [c[0]] + (c[1..] + rest);
      TagRead(c[0], c[1..] + rest);
      assert (c[1..] + rest)[..SpecialSize(c[0])] == c[1..];
      assert |s| <= 67 by { hide Decompress; }
    case None =>
      var n := Wrapped(|s| + SPECIAL_SCRIPTS, LIMIT32);
      assert VarInt(n, false) + s + rest == VarInt(n, false) + (s + rest);
      WrappedAtMost(|s| + SPECIAL_SCRIPTS);
      VarIntRoundTrip(n, s + rest, LIMIT32);
      OversizedScript(keys, s, rest, n);
  }

  lemma WrappedAtMost(n: nat)
    ensures Wrapped(n, LIMIT32) <= n && (n < LIMIT32 ==> Wrapped(n, LIMIT32) == n) && Wrapped(n, LIMIT32) < LIMIT32
  {
  }

  lemma OversizedScript(keys: Keys, s: Bytes, rest: Bytes, n: nat)
    requires n <= |s| + SPECIAL_SCRIPTS && (|s| + SPECIAL_SCRIPTS < LIMIT32 ==> n == |s| + SPECIAL_SCRIPTS) && n < LIMIT32
    requires keys.Sound()
    requires ReadVarInt(0, VarInt(n, false) + (s + rest), LIMIT32) == Some((n, s + rest))
    ensures |s| <= MAX_SCRIPT_SIZE <==> ReadScript(keys, VarInt(n, false) + (s + rest), []) == Some((s, rest))
    ensures |s| > MAX_SCRIPT_SIZE ==> !Gives(ReadScript(keys, VarInt(n, false) + (s + rest), []), s)
  {
    hide ReadVarInt, VarInt;
    var all := s + rest;
    if |s| <= MAX_SCRIPT_SIZE {
      assert all[..|s|] == s && all[|s|..] == rest;
    } else {
      if n < SPECIAL_SCRIPTS { assert forall v: Bytes | |v| == SpecialSize(n) :: |Decompress(keys, n, v, [])| <= 67; }
    }
  }

  // ---------------------------------------------------------------- outputs

  const LIMIT63: nat := 0x8000_0000_0000_0000

  /** The bytes of an output; its amount is a signed number of 64 bits. */
  function WrittenOut(keys: Keys, nValue: int, script: Bytes): Bytes
    requires 0 - LIMIT63 <= nValue < LIMIT63
  {
    VarInt(Compressed(nValue % LIMIT64), false) + WrittenScript(keys, script)
  }

  function ReadOut(keys: Keys, b: Bytes): Parsed<(int, Bytes)> {
    match ReadVarInt(0, b, LIMIT64)
    case None => None
    case Some((x, rest)) =>
      match ReadScript(keys, rest, [])
      case None => None
      case Some((script, rest')) =>
        var n := Decompressed(x);
        Some(((if n < LIMIT63 then n else n - LIMIT64, script), rest'))
  }

  /** An amount and a script that have compact forms. */
  predicate HasForm(nValue: int, script: Bytes)
    requires 0 - LIMIT63 <= nValue < LIMIT63
  {
    CompactAmount(nValue % LIMIT64) < LIMIT64 && |script| <= MAX_SCRIPT_SIZE
  }

  /**
   An output is read back, and exactly its bytes are consumed, if and only if its amount and
   its script have compact forms; without them it never gives itself.
   */
  lemma OutRoundTrip(keys: Keys, nValue: int, script: Bytes, rest: Bytes)
    requires keys.Sound() && 0 - LIMIT63 <= nValue < LIMIT63
    ensures ReadOut(keys, WrittenOut(keys, nValue, script) + rest) == Some(((nValue, script), rest)) <==> HasForm(nValue, script)
    ensures Gives(ReadOut(keys, WrittenOut(keys, nValue, script) + rest), (nValue, script)) ==> HasForm(nValue, script)
  {
    hide Keys.Sound, ReadVarInt, VarInt, ReadScript, WrittenScript, CompactAmount, Compressed, Decompressed;
    var n := nValue % LIMIT64;
    AmountRoundTrip(n);
    assert WrittenOut(keys, nValue, script) + rest == VarInt(Compressed(n), false) + (WrittenScript(keys, script) + rest);
    VarIntRoundTrip(Compressed(n), WrittenScript(keys, script) + rest, LIMIT64);
    ScriptRoundTrip(keys, script, rest);
  }

  /** Works on a script in place. */
  class ScriptCompressor {
    const keys: Keys
    var script: Bytes

    constructor (keys: Keys, script: Bytes)
      ensures this.keys == keys && this.script == script
    {
      this.keys := keys;
      this.script := script;
    }

    method CompressScript() returns (out: Option<Bytes>)
      ensures out == Compress(keys, script)
    {
      if IsToKeyID(script) {
        return Some([0] + script[3..23]);
      }
      if IsToScriptID(script) {
        return Some([1] + script[2..22]);
      }
      if IsToShortKey(script) || IsToLongKey(keys, script) {
        var pubkey := script[1..|script| - 1];
        if pubkey[0] == 2 || pubkey[0] == 3 {
          assert pubkey[1..33] == script[2..34];
          return Some([pubkey[0]] + pubkey[1..33]);
        } else if pubkey[0] == 4 {
          assert pubkey[1..33] == script[2..34];
          return Some([4 + pubkey[64] % 2] + pubkey[1..33]);
        }
      }
      return None;
    }

    method DecompressScript(nSize: nat, v: Bytes)
      requires nSize < SPECIAL_SCRIPTS && |v| == SpecialSize(nSize)
      modifies this`script
      ensures script == Decompress(keys, nSize, v, old(script))
    {
      if nSize == 0 {
        script := [OP_DUP, OP_HASH160, 20] + v + [OP_EQUALVERIFY, OP_CHECKSIG];
      } else if nSize == 1 {
        script := [OP_HASH160, 20] + v + [OP_EQUAL];
      } else if nSize == 2 || nSize == 3 {
        script := [33, nSize] + v + [OP_CHECKSIG];
      } else {
        var pubkey := keys.decompress([nSize - 2] + v);
        if pubkey.None? { return; }
        script := [65] + pubkey.value + [OP_CHECKSIG];
      }
    }

    method Serialize(s: Stream)
      requires keys.Sound()
      modifies s
      ensures s.data == old(s.data) + WrittenScript(keys, script)
      ensures |script| <= MAX_SCRIPT_SIZE <==> forall rest :: ReadScript(keys, WrittenScript(keys, script) + rest, []) == Some((script, rest))
    {
      hide Compress, ReadScript, Wrapped, VarInt, Keys.Sound;
      forall rest ensures |script| <= MAX_SCRIPT_SIZE <==> ReadScript(keys, WrittenScript(keys, script) + rest, []) == Some((script, rest)) {
        ScriptRoundTrip(keys, script, rest);
      }
      assert ReadScript(keys, WrittenScript(keys, script) + [], []) == Some((script, [])) <==> |script| <= MAX_SCRIPT_SIZE;
      var compr := CompressScript();
      if compr.Some? {
        s.Write(compr.value);
        return;
      }
      var nSize := Wrapped(|script| + SPECIAL_SCRIPTS, LIMIT32);
      WrappedAtMost(|script| + SPECIAL_SCRIPTS);
      WriteVarInt(s, nSize, 32);
      s.Write(script);
    }

    /** Returns false where the program throws. */
    method Unserialize(s: Stream) returns (ok: bool)
      modifies this`script, s
      ensures match ReadScript(keys, old(s.data), old(script))
              case None => !ok
              case Some((r, rest)) => ok && script == r && s.data == rest
    {
      hide ReadVarInt, Wrapped, Decompress;
      var n := TakeVarInt(s, LIMIT32);
      if n.None? { return false; }
      var nSize := n.value;
      if nSize < SPECIAL_SCRIPTS {
        var v := s.Read(SpecialSize(nSize));
        if v.None? { return false; }
        DecompressScript(nSize, v.value);
        return true;
      }
      nSize := nSize - SPECIAL_SCRIPTS;
      if nSize > MAX_SCRIPT_SIZE {
        script := script + [OP_RETURN];
        if nSize >= 0x8000_0000 { return false; }
        var v := s.Read(nSize);
        return v.Some?;
      } else {
        var v := s.Read(nSize);
        if v.None? { return false; }
        script := v.value;
        return true;
      }
    }
  }

  method WriteOut(keys: Keys, s: Stream, nValue: int, script: Bytes)
    requires keys.Sound() && 0 - LIMIT63 <= nValue < LIMIT63
    modifies s
    ensures s.data == old(s.data) + WrittenOut(keys, nValue, script)
  {
    hide VarInt, WrittenScript, ReadScript, Compressed, Decompressed, CompactAmount, Keys.Sound;
    var nVal := CompressAmount(nValue % LIMIT64);
    WriteVarInt(s, nVal, 64);
    var cscript := new ScriptCompressor(keys, script);
    cscript.Serialize(s);
  }

  /** None where the program throws. */
  method TakeOut(keys: Keys, s: Stream) returns (r: Option<(int, Bytes)>)
    modifies s
    ensures match ReadOut(keys, old(s.data))
            case None => r == None
            case Some((o, rest)) => r == Some(o) && s.data == rest
  {
    hide ReadVarInt, ReadScript, Compressed, Decompressed, AmountOf;
    var nVal := TakeVarInt(s, LIMIT64);
    if nVal.None? { return None; }
    ReadVarIntBound(0, old(s.data), LIMIT64);
    var n := DecompressAmount(nVal.value);
    var cscript := new ScriptCompressor(keys, []);
    var ok := cscript.Unserialize(s);
    if !ok { return None; }
    return Some((if n < LIMIT63 then n else n - LIMIT64, cscript.script));
  }
}
