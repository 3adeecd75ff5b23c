/**
 Base58: big-endian numbers rewritten from base 256 to base 58 and back, in place, with
 leading zeroes kept as leading ones. Characters are bytes, and text is a C string.
 */
module Base58 {
  import opened Common
  import opened Limbs

  // ---------------------------------------------------------------- characters

  const ONE: Byte := 0x31

  /** The character for a base-58 digit: 1 to 9, A to H, J to N, P to Z, a to k, m to z. */
  function Letter(d: nat): (c: Byte)
    requires d < 58
  {
    if d < 9 then 0x31 + d
    else if d < 17 then 0x41 + (d - 9)
    else if d < 22 then 0x4a + (d - 17)
    else if d < 33 then 0x50 + (d - 22)
    else if d < 44 then 0x61 + (d - 33)
    else 0x6d + (d - 44)
  }

  predicate IsLetter(c: Byte) {
    || 0x31 <= c <= 0x39 || 0x41 <= c <= 0x48 || 0x4a <= c <= 0x4e
    || 0x50 <= c <= 0x5a || 0x61 <= c <= 0x6b || 0x6d <= c <= 0x7a
  }

  /** Where a character stands in the alphabet. */
  function Digit(c: Byte): (d: nat)
    requires IsLetter(c)
    ensures d < 58 && Letter(d) == c
  {
    if c <= 0x39 then c - 0x31
    else if c <= 0x48 then c - 0x41 + 9
    else if c <= 0x4e then c - 0x4a + 17
    else if c <= 0x5a then c - 0x50 + 22
    else if c <= 0x6b then c - 0x61 + 33
    else c - 0x6d + 44
  }

  lemma LetterIsLetter(d: nat)
    requires d < 58
    ensures IsLetter(Letter(d)) && Digit(Letter(d)) == d && (Letter(d) == ONE <==> d == 0) && !IsSpace(Letter(d)) && Letter(d) != 0
  {
  }

  predicate IsSpace(c: Byte) { c == 0x20 || 9 <= c <= 13 }

  predicate AllSpaces(s: Bytes) { forall i :: 0 <= i < |s| ==> IsSpace(s[i]) }

  predicate AllLetters(s: Bytes) { forall i :: 0 <= i < |s| ==> IsLetter(s[i]) }

  // ---------------------------------------------------------------- numbers

  predicate Digits(s: seq<nat>, base: nat) { forall i :: 0 <= i < |s| ==> s[i] < base }

  /** The number a sequence of digits stands for, most significant first. */
  function Value(s: seq<nat>, base: nat): nat {
    if s == [] then 0 else Value(s[..|s| - 1], base) * base + s[|s| - 1]
  }

  /** The digits of a number, without leading zeroes. */
  function Written(n: nat, base: nat): seq<nat>
    requires base > 1
  {
    if n == 0 then [] else Shrinks(n, base); Written(n / base, base) + [n % base]
  }

  lemma {:induction false} Shrinks(n: nat, base: nat)
    requires n > 0 && base > 1
    ensures 0 <= n / base < n && 0 <= n % base < base && (n / base == 0 ==> n % base == n)
  {
    DivDefinition(n, base);
    if n / base >= n { MulAtLeast(n / base, base); TwiceAtLeast(n / base, base); }
  }

  lemma TwiceAtLeast(q: nat, base: nat)
    requires base > 1
    ensures q * base >= 2 * q
  {
  }

  function Zeroes(n: nat): seq<nat> { seq(n, i => 0) }

  lemma {:induction false} ValueConcat(s: seq<nat>, t: seq<nat>, base: nat)
    ensures Value(s + t, base) == Value(s, base) * Pow(base, |t|) + Value(t, base)
    decreases |t|
  {
    if t == [] {
      assert s + t == s;
    } else {
      var n := |t| - 1;
      var x := t[n];
      assert (s + t)[..|s + t| - 1] == s + t[..n] && (s + t)[|s + t| - 1] == x;
      ValueConcat(s, t[..n], base);
      Horner(Value(s, base), Pow(base, n), Value(t[..n], base), base);
    }
  }

  lemma Horner(a: nat, p: nat, v: nat, base: nat)
    ensures (a * p + v) * base == a * (base * p) + v * base
  {
    MulAssoc(a, p, base);
  }

  lemma {:induction false} ValueBound(s: seq<nat>, base: nat)
    requires Digits(s, base) && base > 0
    ensures Value(s, base) < Pow(base, |s|)
  {
    if s != [] {
      var n := |s| - 1;
      ValueBound(s[..n], base);
      AtMost(Value(s[..n], base) + 1, Pow(base, n), base);
    }
  }

  lemma AtMost(x: nat, y: nat, b: nat)
    requires x <= y
    ensures x * b <= b * y && x * b == (x - 1) * b + b
  {
  }

  lemma {:induction false} ValueZeroes(n: nat, base: nat)
    ensures Value(Zeroes(n), base) == 0
  {
    if n > 0 {
      assert Zeroes(n)[..n - 1] == Zeroes(n - 1);
      ValueZeroes(n - 1, base);
    }
  }

  /** Leading zeroes do not change the number. */
  lemma ValueSkip(s: seq<nat>, k: nat, base: nat)
    requires k <= |s| && s[..k] == Zeroes(k)
    ensures Value(s[k..], base) == Value(s, base)
  {
    assert s == s[..k] + s[k..];
    ValueConcat(s[..k], s[k..], base);
    ValueZeroes(k, base);
  }

  lemma {:induction false} WrittenValue(n: nat, base: nat)
    requires base > 1
    ensures Value(Written(n, base), base) == n && Digits(Written(n, base), base)
    ensures Written(n, base) != [] ==> Written(n, base)[0] != 0
    ensures n > 0 ==> Written(n, base) != []
  {
    if n > 0 {
      DivDefinition(n, base);
      Shrinks(n, base);
      WrittenValue(n / base, base);
      var w := Written(n / base, base);
      assert (w + [n % base])[..|w|] == w;
    }
  }

  /** A number has one sequence of digits without leading zeroes. */
  lemma {:induction false} ValueWritten(s: seq<nat>, base: nat)
    requires base > 1 && Digits(s, base) && (s != [] ==> s[0] != 0)
    ensures Written(Value(s, base), base) == s
  {
    if s != [] {
      var n := |s| - 1;
      ValueWritten(s[..n], base);
      DivUnique(Value(s, base), base, Value(s[..n], base), s[n]);
      if n > 0 {
        assert Value(s[..n], base) != 0;
        MulAtLeast(Value(s[..n], base), base);
      }
      assert s == s[..n] + [s[n]];
    }
  }

  // ---------------------------------------------------------------- buffer sizes

  function EncodeSize(n: nat): nat { n * 138 / 100 + 1 }

  function DecodeSize(n: nat): nat { n * 733 / 1000 + 1 }

  lemma PowStep(b: nat, n: nat)
    requires n > 0
    ensures Pow(b, n) == b * Pow(b, n - 1)
  {
  }

  lemma Powers256()
    ensures Pow(256, 0) == 1 && Pow(256, 1) == 0x100 && Pow(256, 2) == 0x1_0000 && Pow(256, 3) == 0x100_0000
    ensures Pow(256, 4) == 0x1_0000_0000 && Pow(256, 5) == 0x100_0000_0000 && Pow(256, 6) == 0x1_0000_0000_0000
    ensures Pow(256, 7) == 0x100_0000_0000_0000 && Pow(256, 8) == 0x1_0000_0000_0000_0000
    ensures Pow(256, 9) == 0x100_0000_0000_0000_0000 && Pow(256, 10) == 0x1_0000_0000_0000_0000_0000 && Pow(256, 11) == 0x100_0000_0000_0000_0000_0000
  {
    hide Pow;
    assert Pow(256, 0) == 1 by { PowZero(256); }
    PowStep(256, 1); PowStep(256, 2); PowStep(256, 3); PowStep(256, 4); PowStep(256, 5); PowStep(256, 6);
    PowStep(256, 7); PowStep(256, 8); PowStep(256, 9); PowStep(256, 10); PowStep(256, 11);
  }

  lemma PowZero(b: nat)
    ensures Pow(b, 0) == 1
  {
  }

  lemma Powers58()
    ensures Pow(58, 0) == 1 && Pow(58, 1) == 58 && Pow(58, 2) == 3364 && Pow(58, 3) == 195112 && Pow(58, 4) == 11316496 && Pow(58, 5) == 656356768
    ensures Pow(58, 6) == 38068692544 && Pow(58, 7) == 2207984167552 && Pow(58, 8) == 128063081718016 && Pow(58, 9) == 7427658739644928 && Pow(58, 10) == 430804206899405824
    ensures Pow(58, 11) == 24986644000165537792 && Pow(58, 12) == 1449225352009601191936 && Pow(58, 13) == 84055070416556869132288 && Pow(58, 14) == 4875194084160298409672704 && Pow(58, 15) == 282761256881297307761016832
  {
    hide Pow;
    assert Pow(58, 0) == 1 by { PowZero(58); }
    PowStep(58, 1); PowStep(58, 2); PowStep(58, 3); PowStep(58, 4); PowStep(58, 5); PowStep(58, 6); PowStep(58, 7); PowStep(58, 8);
    PowStep(58, 9); PowStep(58, 10); PowStep(58, 11); PowStep(58, 12); PowStep(58, 13); PowStep(58, 14); PowStep(58, 15);
  }

  lemma Compound(a: nat, b: nat, x: nat, y: nat)
    requires a <= x && b <= y
    ensures a * b <= x * y
  {
  }

  /** If one power of `a` fits in one of `b`, and another in another, then so do their products. */
  lemma {:induction false} FitsTogether(a: nat, b: nat, m: nat, n: nat, k: nat, l: nat)
    requires Pow(a, m) <= Pow(b, k) && Pow(a, n) <= Pow(b, l)
    ensures Pow(a, m + n) <= Pow(b, k + l)
  {
    hide Pow;
    PowAdd(a, m, n);
    PowAdd(b, k, l);
    Compound(Pow(a, m), Pow(a, n), Pow(b, k), Pow(b, l));
  }

  /** Every number of `n` bytes has room in the buffer for its base-58 digits. */
  lemma {:induction false} EncodeFits(n: nat)
    ensures Pow(256, n) <= Pow(58, n * 138 / 100 + 1)
  {
    hide Pow;
    Powers256();
    Powers58();
    if n >= 8 {
      EncodeFits(n - 8);
      FitsTogether(256, 58, n - 8, 8, EncodeSize(n - 8), 11);
      PowMonotone(58, EncodeSize(n - 8) + 11, EncodeSize(n));
    }
  }

  /** Every number of `n` base-58 digits has room in the buffer for its bytes. */
  lemma {:induction false} DecodeFits(n: nat)
    ensures Pow(58, n) <= Pow(256, n * 733 / 1000 + 1)
  {
    hide Pow;
    if n >= 71 {
      DecodeFits(n - 71);
      SeventyOne();
      FitsTogether(58, 256, n - 71, 71, DecodeSize(n - 71), 52);
      PowMonotone(256, DecodeSize(n - 71) + 52, DecodeSize(n));
    } else {
      var a, b := n / 15, n % 15;
      Fifteens(a);
      Under15(b);
      FitsTogether(58, 256, 15 * a, b, 11 * a, Bytes15(b));
      assert 15 * a + b == n;
      RoomUnder71(a, b);
      PowMonotone(256, 11 * a + Bytes15(b), DecodeSize(n));
    }
  }

  lemma RoomUnder71(a: nat, b: nat)
    requires a <= 4 && b < 15
    ensures 11 * a + Bytes15(b) <= DecodeSize(15 * a + b)
  {
    if b > 0 { FloorDrift(a, b); }
  }

  lemma FloorDrift(a: nat, b: nat)
    requires a <= 4 && 0 < b < 15
    ensures (15 * a + b) * 733 / 1000 >= 11 * a + b * 733 / 1000
  {
    var d := b * 733 / 1000;
    assert b * 733 - 1000 * d >= 63;
    assert (15 * a + b) * 733 == 10995 * a + b * 733;
  }

  function Bytes15(b: nat): nat { if b == 0 then 0 else b * 733 / 1000 + 1 }

  lemma Under15(b: nat)
    requires b < 15
    ensures Pow(58, b) <= Pow(256, Bytes15(b))
  {
    hide Pow;
    Powers256();
    Powers58();
  }

  lemma {:induction false} Fifteens(a: nat)
    ensures Pow(58, 15 * a) <= Pow(256, 11 * a)
  {
    hide Pow;
    Powers256();
    Powers58();
    if a > 0 {
      Fifteens(a - 1);
      FitsTogether(58, 256, 15 * (a - 1), 15, 11 * (a - 1), 11);
    }
  }

  lemma SeventyOne()
    ensures Pow(58, 71) <= Pow(256, 52)
  {
    hide Pow;
    Powers256();
    Powers58();
    PowAdd(58, 15, 15);
    PowAdd(58, 30, 30);
    PowAdd(58, 60, 11);
    PowAdd(256, 11, 11);
    PowAdd(256, 22, 22);
    PowAdd(256, 44, 8);
  }

  // ---------------------------------------------------------------- what the functions return

  function LeadingZeroes(s: seq<nat>): (k: nat)
    ensures k <= |s| && s[..k] == Zeroes(k) && (k < |s| ==> s[k] != 0)
  {
    if s == [] || s[0] != 0 then 0 else
    assert s == [0] + s[1..];
    1 + LeadingZeroes(s[1..])
  }

  function Letters(s: seq<nat>): Bytes
    requires Digits(s, 58)
  {
    seq(|s|, i requires 0 <= i < |s| => Letter(s[i]))
  }

  function Numerals(s: Bytes): (r: seq<nat>)
    requires AllLetters(s)
    ensures |r| == |s| && Digits(r, 58)
  {
    seq(|s|, i requires 0 <= i < |s| => Digit(s[i]))
  }

  /** Base conversion that keeps the number of leading zeroes and the value of the rest. */
  function Converted(s: seq<nat>, from: nat, to: nat): seq<nat>
    requires to > 1
  {
    Zeroes(LeadingZeroes(s)) + Written(Value(s, from), to)
  }

  lemma ConvertedDigits(s: seq<nat>, from: nat, to: nat)
    requires to > 1
    ensures Digits(Converted(s, from, to), to)
  {
    WrittenValue(Value(s, from), to);
  }

  lemma LeadingZeroesOf(k: nat, t: seq<nat>)
    requires t != [] ==> t[0] != 0
    ensures LeadingZeroes(Zeroes(k) + t) == k
  {
    var s := Zeroes(k) + t;
    var z := LeadingZeroes(s);
    assert forall i :: 0 <= i < z ==> s[..z][i] == s[i] && Zeroes(z)[i] == 0;
    assert forall i :: 0 <= i < k ==> s[i] == 0;
    assert k < |s| ==> s[k] == t[0];
  }

  /** Converting there and back changes nothing. */
  lemma ConvertBack(s: seq<nat>, from: nat, to: nat)
    requires from > 1 && to > 1 && Digits(s, from)
    ensures Converted(Converted(s, from, to), to, from) == s
  {
    hide Value, Written, LeadingZeroes, Pow, Zeroes;
    var k, w := LeadingZeroes(s), Written(Value(s, from), to);
    WrittenValue(Value(s, from), to);
    LeadingZeroesOf(k, w);
    ValueAfterZeroes(k, w, to);
    ValueSkip(s, k, from);
    ValueWritten(s[k..], from);
    assert s == s[..k] + s[k..];
  }

  lemma ValueAfterZeroes(k: nat, w: seq<nat>, base: nat)
    ensures Value(Zeroes(k) + w, base) == Value(w, base)
  {
    hide Value;
    var s := Zeroes(k) + w;
    assert s[k..] == w && s[..k] == Zeroes(k);
    ValueSkip(s, k, base);
  }

  /** What `EncodeBase58` returns. */
  function Encoded(b: Bytes): Bytes {
    ConvertedDigits(b, 256, 58);
    Letters(Converted(b, 256, 58))
  }

  function SkipSpaces(s: Bytes): Bytes {
    if s == [] || !IsSpace(s[0]) then s else SkipSpaces(s[1..])
  }

  function DropSpaces(s: Bytes): Bytes {
    if s == [] || !IsSpace(s[|s| - 1]) then s else DropSpaces(s[..|s| - 1])
  }

  function Trimmed(s: Bytes): Bytes { DropSpaces(SkipSpaces(s)) }

  /** What `DecodeBase58` returns for a C string. */
  function Decoded(s: Bytes): Option<Bytes> {
    var t := Trimmed(s);
    if AllLetters(t) then
      var v := Converted(Numerals(t), 58, 256);
      ConvertedDigits(Numerals(t), 58, 256);
      Some(v)
    else None
  }

  lemma LettersBack(s: seq<nat>)
    requires Digits(s, 58)
    ensures AllLetters(Letters(s)) && Numerals(Letters(s)) == s && Trimmed(Letters(s)) == Letters(s) && CString(Letters(s)) == Letters(s)
  {
    var t := Letters(s);
    forall i | 0 <= i < |t| ensures IsLetter(t[i]) && Digit(t[i]) == s[i] && !IsSpace(t[i]) && t[i] != 0 { LetterIsLetter(s[i]); }
    CStringWhole(t);
  }

  /** Decoding undoes encoding, for every byte string. */
  lemma DecodeEncode(b: Bytes)
    ensures Decoded(CString(Encoded(b))) == Some(b)
  {
    hide Letters, Numerals, Converted, Trimmed, CString, Value, Written;
    ConvertedDigits(b, 256, 58);
    LettersBack(Converted(b, 256, 58));
    assert Digits(b, 256);
    ConvertBack(b, 256, 58);
  }

  /** Encoding undoes decoding but for surrounding spaces: no two texts mean the same bytes. */
  lemma EncodeDecode(s: Bytes)
    requires Decoded(s).Some?
    ensures Encoded(Decoded(s).value) == Trimmed(s)
  {
    hide Converted, Trimmed, Value, Written;
    var t := Trimmed(s);
    ConvertBack(Numerals(t), 58, 256);
    ConvertedDigits(Numerals(t), 58, 256);
  }

  // ---------------------------------------------------------------- the algorithms

  /** Some of the lowest digits are done: with the carry they make up the product plus the digit. */
  ghost predicate Carried(old': seq<nat>, new': seq<nat>, base: nat, factor: nat, digit: nat, carry: nat) {
    && |old'| == |new'|
    && Value(new', base) + carry * Pow(base, |new'|) == factor * Value(old', base) + digit
  }

  function Total(carry: nat, factor: nat, x: nat): nat { carry + factor * x }

  function Low(n: nat, base: nat): nat
    requires base > 0
  {
    n % base
  }

  function High(n: nat, base: nat): nat
    requires base > 0
  {
    n / base
  }

  /** The carry chain moves one digit to the left. */
  lemma CarryStep(old': seq<nat>, new': seq<nat>, x: nat, base: nat, factor: nat, digit: nat, carry: nat)
    requires base > 1 && Carried(old', new', base, factor, digit, carry)
    ensures var total := Total(carry, factor, x);
            Carried([x] + old', [Low(total, base)] + new', base, factor, digit, High(total, base))
  {
    hide Value, Pow;
    var total, p := carry + factor * x, Pow(base, |new'|);
    ValueConcat([total % base], new', base);
    ValueConcat([x], old', base);
    ValueOne(total % base, base);
    ValueOne(x, base);
    PowStep(base, |new'| + 1);
    SplitTotal(total, base, p);
    Distribute(carry, factor * x, p);
    Distribute(x * p, Value(old', base), factor);
    MulAssoc(factor, x, p);
  }

  lemma ValueOne(x: nat, base: nat)
    ensures Value([x], base) == x
  {
    assert Value([x][..0], base) == 0;
  }

  lemma SplitTotal(n: nat, base: nat, p: nat)
    requires base > 0
    ensures (n % base) * p + (n / base) * (base * p) == n * p
  {
    DivDefinition(n, base);
    Distribute((n / base) * base, n % base, p);
    MulAssoc(n / base, base, p);
  }

  lemma {:induction false} CarryBound(carry: nat, factor: nat, x: nat, base: nat)
    requires carry < factor && x < base
    ensures base > 0 && Low(Total(carry, factor, x), base) < base && High(Total(carry, factor, x), base) < factor
  {
    AtMost(x + 1, base, factor);
    var total := carry + factor * x;
    DivDefinition(total, base);
    if total / base >= factor { Compound(factor, base, total / base, base); }
  }

  /** Multiply the number in the buffer by `factor` and add a digit, from the right; what does not fit is left in `carry`. */
  method MultiplyAdd(a: array<Byte>, base: nat, factor: nat, digit: nat) returns (carry: nat)
    requires 1 < base <= 256 && digit < factor && Digits(a[..], base)
    modifies a
    ensures Digits(a[..], base) && Carried(old(a[..]), a[..], base, factor, digit, carry)
  {
    hide Carried, Total, Low, High;
    ghost var was := a[..];
    carry := digit;
    var i := a.Length;
    assert Carried(was[i..], a[i..], base, factor, digit, carry) by { NoneCarried(base, factor, digit); assert a[i..] == [] && was[i..] == []; }
    while i > 0
      invariant 0 <= i <= a.Length && carry < factor
      invariant a[..i] == was[..i] && Digits(a[i..], base)
      invariant Carried(was[i..], a[i..], base, factor, digit, carry)
    {
      i := i - 1;
      ghost var rest := a[i + 1..];
      assert a[i] == a[..i + 1][i] == was[i];
      var total := Total(carry, factor, a[i]);
      CarryStep(was[i + 1..], rest, was[i], base, factor, digit, carry);
      CarryBound(carry, factor, a[i], base);
      assert was[i..] == [was[i]] + was[i + 1..];
      a[i] := Low(total, base);
      assert a[i..] == [Low(total, base)] + rest;
      carry := High(total, base);
    }
    assert a[0..] == a[..] && was[0..] == was;
  }

  lemma NoneCarried(base: nat, factor: nat, digit: nat)
    ensures Carried([], [], base, factor, digit, digit)
  {
  }

  /** With room for the result nothing is carried out of the buffer. */
  lemma {:induction false} NoCarry(s: seq<nat>, base: nat, carry: nat, total: nat)
    requires base > 0 && Value(s, base) + carry * Pow(base, |s|) == total < Pow(base, |s|)
    ensures carry == 0
  {
    if carry > 0 { MulAtLeast(carry, Pow(base, |s|)); }
  }

  /** Any buffer that holds the number holds its digits once the leading zeroes are skipped. */
  lemma {:induction false} BufferDigits(buf: seq<nat>, k: nat, base: nat)
    requires base > 1 && Digits(buf, base) && k <= |buf| && buf[..k] == Zeroes(k) && (k < |buf| ==> buf[k] != 0)
    ensures buf[k..] == Written(Value(buf, base), base)
  {
    ValueSkip(buf, k, base);
    ValueWritten(buf[k..], base);
  }

  lemma {:induction false} NextValue(s: seq<nat>, x: nat, base: nat)
    requires x < base && Digits(s, base)
    ensures Value(s + [x], base) == Value(s, base) * base + x < Pow(base, |s| + 1)
  {
    assert (s + [x])[..|s|] == s;
    ValueBound(s + [x], base);
  }

  /** Add the next digit to a buffer that has room for `room` of them. */
  method Accumulate(a: array<Byte>, base: nat, factor: nat, ghost done: seq<nat>, digit: nat, ghost room: nat)
    requires 1 < base <= 256 && digit < factor && Digits(a[..], base)
    requires Digits(done, factor) && |done| < room && Pow(factor, room) <= Pow(base, a.Length)
    requires Value(a[..], base) == Value(done, factor)
    modifies a
    ensures Digits(a[..], base) && Value(a[..], base) == Value(done + [digit], factor)
  {
    hide Value, Pow;
    var carry := MultiplyAdd(a, base, factor, digit);
    NextValue(done, digit, factor);
    PowMonotone(factor, |done| + 1, room);
    NoCarry(a[..], base, carry, Value(done + [digit], factor));
    assert carry == 0;
  }

  method SkipZeroes(a: array<Byte>) returns (k: nat)
    ensures k <= a.Length && a[..k] == Zeroes(k) && (k < a.Length ==> a[k] != 0)
  {
    k := 0;
    while k < a.Length && a[k] == 0
      invariant k <= a.Length && a[..k] == Zeroes(k)
    {
      k := k + 1;
    }
  }

  lemma LeadingOnes(all: seq<nat>, zeroes: nat)
    requires Digits(all, 58) && zeroes <= |all| && all[..zeroes] == Zeroes(zeroes)
    ensures Letters(all[..zeroes]) == seq(zeroes, i => ONE)
  {
    hide Letter;
    LetterIsLetter(0);
  }

  lemma NextLetter(all: seq<nat>, k: nat)
    requires Digits(all, 58) && k < |all|
    ensures Letters(all[..k + 1]) == Letters(all[..k]) + [Letter(all[k])]
  {
    hide Letter;
  }

  /** As many ones as there were zeroes, and the digits of the buffer from `start` on. */
  method Spelled(b58: array<Byte>, start: nat, zeroes: nat) returns (str: Bytes)
    requires start <= b58.Length && Digits(b58[..], 58)
    ensures Digits(Zeroes(zeroes) + b58[start..], 58) && str == Letters(Zeroes(zeroes) + b58[start..])
  {
    hide Letter, Letters;
    ghost var all := Zeroes(zeroes) + b58[start..];
    assert Digits(all, 58) && all[..zeroes] == Zeroes(zeroes);
    str := seq(zeroes, i => ONE);
    LeadingOnes(all, zeroes);
    for i := start to b58.Length
      invariant str == Letters(all[..zeroes + i - start])
    {
      NextLetter(all, zeroes + i - start);
      str := str + [Letter(b58[i])];
    }
    assert all[..|all|] == all;
  }

  method EncodeBase58(b: Bytes) returns (str: Bytes)
    ensures str == Encoded(b)
    ensures Decoded(CString(str)) == Some(b)
  {
    hide Value, Pow, Written, LeadingZeroes, Letter, Letters, Decoded, CString;
    DecodeEncode(b);
    var zeroes := 0;
    while zeroes < |b| && b[zeroes] == 0
      invariant zeroes <= |b| && b[..zeroes] == Zeroes(zeroes)
    {
      zeroes := zeroes + 1;
    }
    assert b == Zeroes(zeroes) + b[zeroes..];
    LeadingZeroesOf(zeroes, b[zeroes..]);
    ValueSkip(b, zeroes, 256);
    ghost var n := |b| - zeroes;
    var b58 := new Byte[EncodeSize(|b| - zeroes)](i => 0);
    EncodeFits(n);
    assert b58[..] == Zeroes(b58.Length);
    ValueZeroes(b58.Length, 58);
    ValueZeroes(0, 256);
    assert b[zeroes..zeroes] == Zeroes(0);
    for i := zeroes to |b|
      invariant Digits(b58[..], 58) && Value(b58[..], 58) == Value(b[zeroes..i], 256)
    {
      Accumulate(b58, 58, 256, b[zeroes..i], b[i], n);
      assert b[zeroes..i + 1] == b[zeroes..i] + [b[i]];
    }
    assert b[zeroes..|b|] == b[zeroes..];
    var it := SkipZeroes(b58);
    BufferDigits(b58[..], it, 58);
    ConvertedDigits(b, 256, 58);
    ghost var all := Converted(b, 256, 58);
    assert all == Zeroes(zeroes) + b58[it..];
    str := Spelled(b58, it, zeroes);
  }

  /** Where trimming cuts: the spaces before `i` and from `j` on, and no more. */
  predicate CutsAt(s: Bytes, i: nat, j: nat) {
    && i <= j <= |s| && AllSpaces(s[..i]) && AllSpaces(s[j..])
    && (i < |s| ==> !IsSpace(s[i])) && (i < j ==> !IsSpace(s[j - 1]))
  }

  lemma {:induction false} SkipCut(s: Bytes, i: nat)
    requires i <= |s| && AllSpaces(s[..i]) && (i < |s| ==> !IsSpace(s[i]))
    ensures SkipSpaces(s) == s[i..]
  {
    if i > 0 {
      assert IsSpace(s[..i][0]);
      assert s[1..][..i - 1] == s[..i][1..];
      SkipCut(s[1..], i - 1);
    }
  }

  lemma {:induction false} DropCut(s: Bytes, j: nat)
    requires j <= |s| && AllSpaces(s[j..]) && (0 < j ==> !IsSpace(s[j - 1]))
    ensures DropSpaces(s) == s[..j]
  {
    if j < |s| {
      var n := |s| - 1;
      assert IsSpace(s[j..][n - j]);
      assert forall k :: 0 <= k < n - j ==> s[..n][j..][k] == s[j..][k];
      DropCut(s[..n], j);
      assert s[..n][..j] == s[..j];
    } else {
      assert s[..j] == s;
    }
  }

  lemma TrimCut(s: Bytes, i: nat, j: nat)
    requires CutsAt(s, i, j)
    ensures Trimmed(s) == s[i..j]
  {
    hide IsSpace;
    SkipCut(s, i);
    var t := s[i..];
    assert t[j - i..] == s[j..];
    DropCut(t, j - i);
    assert t[..j - i] == s[i..j];
  }

  /** What is between two characters that are not spaces is never trimmed. */
  lemma {:induction false} KeptByDrop(s: Bytes, k: nat)
    requires k < |s| && !IsSpace(s[k])
    ensures k < |DropSpaces(s)| <= |s| && DropSpaces(s) == s[..|DropSpaces(s)|]
  {
    hide IsSpace;
    var n := |s| - 1;
    if IsSpace(s[n]) {
      KeptByDrop(s[..n], k);
    }
  }

  lemma Refused(s: Bytes, i: nat, j: nat, k: nat)
    requires i <= j <= k < |s| && AllSpaces(s[..i]) && !IsSpace(s[i]) && !IsSpace(s[k]) && !IsLetter(s[j])
    ensures Decoded(s) == None
  {
    hide IsSpace, IsLetter, Converted, Numerals;
    SkipCut(s, i);
    var t := s[i..];
    KeptByDrop(t, k - i);
    assert Trimmed(s)[j - i] == s[j];
  }

  /** The digits of a text that starts with ones: leading zeroes and the rest. */
  lemma NumeralsSplit(t: Bytes, z: nat)
    requires AllLetters(t) && z <= |t| && (forall i :: 0 <= i < z ==> t[i] == ONE) && (z < |t| ==> t[z] != ONE)
    ensures AllLetters(t[z..]) && LeadingZeroes(Numerals(t)) == z && Value(Numerals(t), 58) == Value(Numerals(t[z..]), 58)
  {
    hide Value, LeadingZeroes, Letter, Digit, IsLetter;
    assert AllLetters(t[z..]);
    var d := Numerals(t);
    forall i | 0 <= i < |t| ensures d[i] == 0 <==> t[i] == ONE { DigitOfOne(t[i]); }
    assert d == Zeroes(z) + Numerals(t[z..]);
    LeadingZeroesOf(z, Numerals(t[z..]));
    ValueAfterZeroes(z, Numerals(t[z..]), 58);
  }

  lemma DigitOfOne(c: Byte)
    requires IsLetter(c)
    ensures Digit(c) == 0 <==> c == ONE
  {
  }

  lemma LetterIsNoSpace(c: Byte)
    ensures !(IsLetter(c) && IsSpace(c)) && IsLetter(ONE)
  {
  }

  /** Ones, then letters that do not start with one, among spaces: what such a text decodes to. */
  lemma FinishDecode(s: Bytes, lead: nat, z: nat, end: nat)
    requires lead + z <= end && CutsAt(s, lead, end)
    requires (forall k :: lead <= k < lead + z ==> s[k] == ONE) && (lead + z < end ==> s[lead + z] != ONE)
    requires AllLetters(s[lead + z..end])
    ensures Decoded(s) == Some(Zeroes(z) + Written(Value(Numerals(s[lead + z..end]), 58), 256))
    ensures Encoded(Decoded(s).value) == Trimmed(s)
  {
    hide Value, Written, LeadingZeroes, IsSpace, IsLetter, Digit, Encoded, AllSpaces;
    TrimCut(s, lead, end);
    var t := s[lead..end];
    LetterIsNoSpace(ONE);
    assert AllLetters(t) by {
      forall k | 0 <= k < |t| ensures IsLetter(t[k]) { if k >= z { assert t[k] == s[lead + z..end][k - z]; } }
    }
    assert t[z..] == s[lead + z..end];
    NumeralsSplit(t, z);
    EncodeDecode(s);
  }

  method PastSpaces(s: Bytes, from: nat) returns (k: nat)
    requires from <= |s|
    ensures from <= k <= |s| && AllSpaces(s[from..k]) && (k < |s| ==> !IsSpace(s[k]))
  {
    hide IsSpace;
    k := from;
    while k < |s| && IsSpace(s[k])
      invariant from <= k <= |s| && AllSpaces(s[from..k])
    {
      assert s[from..k + 1] == s[from..k] + [s[k]];
      k := k + 1;
    }
  }

  lemma NextNumeral(s: Bytes, from: nat, i: nat)
    requires from <= i < |s| && AllLetters(s[from..i]) && IsLetter(s[i])
    ensures AllLetters(s[from..i + 1]) && Numerals(s[from..i + 1]) == Numerals(s[from..i]) + [Digit(s[i])]
  {
    hide IsLetter, Digit;
    assert s[from..i + 1] == s[from..i] + [s[i]];
  }

  /** The text is a C string without its terminator. */
  method DecodeBase58(psz: Bytes) returns (r: Option<Bytes>)
    ensures r == Decoded(psz)
    ensures r.Some? ==> Encoded(r.value) == Trimmed(psz)
  {
    hide Value, Pow, IsSpace, IsLetter, Digit, Decoded, Encoded, Trimmed, LeadingZeroes, Written, AllSpaces, Numerals;
    var lead := PastSpaces(psz, 0);
    assert psz[0..lead] == psz[..lead];
    var zeroes := 0;
    while lead + zeroes < |psz| && psz[lead + zeroes] == ONE
      invariant lead + zeroes <= |psz| && forall k :: lead <= k < lead + zeroes ==> psz[k] == ONE
    {
      zeroes := zeroes + 1;
    }
    var start := lead + zeroes;
    ghost var n := |psz| - start;
    var b256 := new Byte[DecodeSize(|psz| - start)](i => 0);
    DecodeFits(n);
    assert b256[..] == Zeroes(b256.Length);
    ValueZeroes(b256.Length, 256);
    ValueZeroes(0, 58);
    assert Numerals(psz[start..start]) == Zeroes(0);
    var i := start;
    while i < |psz| && !IsSpace(psz[i])
      invariant start <= i <= |psz| && AllLetters(psz[start..i]) && (i > start ==> !IsSpace(psz[i - 1]))
      invariant Digits(b256[..], 256) && Value(b256[..], 256) == Value(Numerals(psz[start..i]), 58)
    {
      if !IsLetter(psz[i]) {
        Refused(psz, lead, i, i);
        return None;
      }
      Accumulate(b256, 256, 58, Numerals(psz[start..i]), Digit(psz[i]), n);
      NextNumeral(psz, start, i);
      i := i + 1;
    }
    var j := PastSpaces(psz, i);
    if j < |psz| {
      assert !IsLetter(psz[i]) by { LetterIsNoSpace(psz[i]); }
      Refused(psz, lead, i, j);
      return None;
    }
    var it := SkipZeroes(b256);
    BufferDigits(b256[..], it, 256);
    var vch := seq(zeroes, k => 0) + b256[it..];
    r := Some(vch);
    assert psz[i..j] == psz[i..];
    assert i == start && start > lead ==> !IsSpace(psz[i - 1]) by { LetterIsNoSpace(ONE); }
    FinishDecode(psz, lead, zeroes, i);
  }

  method DecodeBase58String(str: Bytes) returns (r: Option<Bytes>)
    ensures r == Decoded(CString(str))
    ensures r.Some? ==> Encoded(r.value) == Trimmed(CString(str))
  {
    r := DecodeBase58(CString(str));
  }

  // ---------------------------------------------------------------- with a checksum

  type Digest = d: Bytes | |d| == 32 witness seq(32, i => 0)

  /** The data followed by the first four bytes of its hash. */
  function Sealed(hash: Bytes -> Digest, v: Bytes): Bytes { v + hash(v)[..4] }

  /** What `DecodeBase58Check` returns. */
  function CheckDecoded(hash: Bytes -> Digest, s: Bytes): Option<Bytes> {
    var d := Decoded(s);
    if d.None? || |d.value| < 4 then None
    else
      var n := |d.value| - 4;
      if d.value[n..] != hash(d.value[..n])[..4] then None else Some(d.value[..n])
  }

  /** Exactly the texts that spell sealed data are accepted, and they give that data. */
  lemma CheckAccepts(hash: Bytes -> Digest, s: Bytes, v: Bytes)
    ensures CheckDecoded(hash, s) == Some(v) <==> Trimmed(s) == Encoded(Sealed(hash, v))
  {
    hide Trimmed, Encoded, Decoded;
    if CheckDecoded(hash, s) == Some(v) {
      var d := Decoded(s).value;
      assert d == d[..|d| - 4] + d[|d| - 4..];
      EncodeDecode(s);
    }
    if Trimmed(s) == Encoded(Sealed(hash, v)) {
      SpelledDecodes(s, Sealed(hash, v));
    }
  }

  /** Surrounding spaces do not matter. */
  lemma SpelledDecodes(s: Bytes, b: Bytes)
    requires Trimmed(s) == Encoded(b)
    ensures Decoded(s) == Some(b)
  {
    hide Letters, Numerals, Converted, Trimmed, CString, Value, Written;
    DecodeEncode(b);
    ConvertedDigits(b, 256, 58);
    LettersBack(Converted(b, 256, 58));
  }

  method EncodeBase58Check(hash: Bytes -> Digest, vchIn: Bytes) returns (str: Bytes)
    ensures str == Encoded(Sealed(hash, vchIn))
    ensures CheckDecoded(hash, CString(str)) == Some(vchIn)
  {
    hide Trimmed, Encoded, Decoded, CString;
    str := EncodeBase58(vchIn + hash(vchIn)[..4]);
  }

  method DecodeBase58Check(hash: Bytes -> Digest, psz: Bytes) returns (r: Option<Bytes>)
    ensures r == CheckDecoded(hash, psz)
    ensures forall v :: r == Some(v) <==> Trimmed(psz) == Encoded(Sealed(hash, v))
  {
    hide Trimmed, Encoded, Decoded, Sealed;
    forall v ensures CheckDecoded(hash, psz) == Some(v) <==> Trimmed(psz) == Encoded(Sealed(hash, v)) { CheckAccepts(hash, psz, v); }
    var d := DecodeBase58(psz);
    if d.None? || |d.value| < 4 { return None; }
    var n := |d.value| - 4;
    if hash(d.value[..n])[..4] != d.value[n..] { return None; }
    return Some(d.value[..n]);
  }
}
