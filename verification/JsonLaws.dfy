/**
 What the escapes of a JSON string stand for, checked against an independent reading of
 UTF-8 (RFC 3629) and of hexadecimal digits, and some texts written out.
 */
module JsonLaws {
  import opened Common
  import opened Streams
  import opened Json

  // ---------------------------------------------------------------- UTF-8 and hexadecimal digits

  predicate Tail(b: Byte) { 0x80 <= b <= 0xBF }

  /** What a byte adds to the first one of its kind. */
  function Over(b: Byte, first: nat): nat
    requires first <= b
  {
    var n: nat := b;
    n - first
  }

  /** The character that a sequence of bytes is the UTF-8 form of, if it is one. */
  function Character(b: Bytes): Option<nat> {
    if |b| == 1 && b[0] <= 0x7F then Some(Over(b[0], 0))
    else if |b| == 2 && 0xC2 <= b[0] <= 0xDF && Tail(b[1]) then Some(Over(b[0], 0xC0) * 64 + Over(b[1], 0x80))
    else if |b| == 3 && 0xE0 <= b[0] <= 0xEF && Tail(b[1]) && Tail(b[2]) then
      var c := (Over(b[0], 0xE0) * 64 + Over(b[1], 0x80)) * 64 + Over(b[2], 0x80);
      if c < 0x800 || 0xD800 <= c <= 0xDFFF then None else Some(c)
    else if |b| == 4 && 0xF0 <= b[0] <= 0xF4 && Tail(b[1]) && Tail(b[2]) && Tail(b[3]) then
      var c := ((Over(b[0], 0xF0) * 64 + Over(b[1], 0x80)) * 64 + Over(b[2], 0x80)) * 64 + Over(b[3], 0x80);
      if c < 0x1_0000 || c > 0x10_FFFF then None else Some(c)
    else None
  }

  lemma Sixes(x: nat, y: nat)
    requires y < 64
    ensures (x * 64 + y) / 64 == x && (x * 64 + y) % 64 == y
  {
  }

  lemma Quotients(c: nat)
    ensures c / 0x1000 == c / 64 / 64 && c / 0x4_0000 == c / 64 / 64 / 64
    ensures c == 64 * (c / 64) + c % 64
  {
  }

  /** A character is written as exactly the bytes that are its UTF-8 form. */
  lemma {:induction false} Utf8Exactly(c: nat, b: Bytes)
    requires c <= 0x10_FFFF && !IsSurrogate(c)
    ensures Character(b) == Some(c) <==> b == Utf8(c)
  {
    hide Utf8, Character;
    Utf8Read(c);
    if Character(b) == Some(c) { Utf8Written(c, b); }
  }

  lemma Utf8Read(c: nat)
    requires c <= 0x10_FFFF && !IsSurrogate(c)
    ensures Character(Utf8(c)) == Some(c)
  {
    hide Utf8, Character;
    Quotients(c);
    Quotients(c / 64);
    Quotients(c / 64 / 64);
    var z, y, x, w := c % 64, c / 64 % 64, c / 64 / 64 % 64, c / 64 / 64 / 64;
    if c < 0x80 { UtfOne(c); }
    else if c < 0x800 { UtfTwo(c / 64, z); }
    else if c < 0x1_0000 { UtfThree(c / 64 / 64, y, z); }
    else { UtfFour(w, x, y, z); }
  }

  lemma Utf8Written(c: nat, b: Bytes)
    requires c <= 0x10_FFFF && Character(b) == Some(c)
    ensures b == Utf8(c)
  {
    hide Utf8;
    if |b| == 1 { UtfOne(b[0]); }
    else if |b| == 2 { UtfTwo(Over(b[0], 0xC0), Over(b[1], 0x80)); }
    else if |b| == 3 { UtfThree(Over(b[0], 0xE0), Over(b[1], 0x80), Over(b[2], 0x80)); }
    else { UtfFour(Over(b[0], 0xF0), Over(b[1], 0x80), Over(b[2], 0x80), Over(b[3], 0x80)); }
  }

  lemma UtfOne(x: nat)
    requires x < 128
    ensures Utf8(x) == [x] && Character([x]) == Some(x)
  {
  }

  lemma UtfTwo(x: nat, y: nat)
    requires 2 <= x < 32 && y < 64
    ensures Utf8(x * 64 + y) == [0xC0 + x, 0x80 + y] && Character([0xC0 + x, 0x80 + y]) == Some(x * 64 + y)
  {
    Sixes(x, y);
  }

  lemma UtfThree(x: nat, y: nat, z: nat)
    requires x < 16 && y < 64 && z < 64 && (x * 64 + y) * 64 + z >= 0x800
    ensures var c := (x * 64 + y) * 64 + z; var b := [0xE0 + x, 0x80 + y, 0x80 + z]; Utf8(c) == b && (!IsSurrogate(c) ==> Character(b) == Some(c))
  {
    Sixes(x, y);
    Sixes(x * 64 + y, z);
    Quotients((x * 64 + y) * 64 + z);
  }

  lemma UtfFour(w: nat, x: nat, y: nat, z: nat)
    requires w < 8 && x < 64 && y < 64 && z < 64 && 0x1_0000 <= ((w * 64 + x) * 64 + y) * 64 + z <= 0x10_FFFF
    ensures var c := ((w * 64 + x) * 64 + y) * 64 + z; var b := [0xF0 + w, 0x80 + x, 0x80 + y, 0x80 + z]; Utf8(c) == b && Character(b) == Some(c)
  {
    Sixes(w, x);
    Sixes(w * 64 + x, y);
    Sixes((w * 64 + x) * 64 + y, z);
    Quotients(((w * 64 + x) * 64 + y) * 64 + z);
  }

  /** Half of a surrogate pair. */
  predicate IsSurrogate(c: nat) { 0xD800 <= c <= 0xDFFF }

  const LOWER: Bytes := [0x30, 0x31, 0x32, 0x33, 0x34, 0x35, 0x36, 0x37, 0x38, 0x39, 0x61, 0x62, 0x63, 0x64, 0x65, 0x66]
  const UPPER: Bytes := [0x30, 0x31, 0x32, 0x33, 0x34, 0x35, 0x36, 0x37, 0x38, 0x39, 0x41, 0x42, 0x43, 0x44, 0x45, 0x46]

  /** Four digits, each in either case, that spell a number. */
  predicate Spells(h: Bytes, c: nat) {
    && |h| == 4 && c < 0x1_0000
    && IsDigit(h[0], c / 0x1000) && IsDigit(h[1], c / 0x100 % 16) && IsDigit(h[2], c / 0x10 % 16) && IsDigit(h[3], c % 16)
  }

  predicate IsDigit(b: Byte, d: nat) { d < 16 && (b == LOWER[d] || b == UPPER[d]) }

  lemma DigitRead(b: Byte, d: nat)
    requires IsDigit(b, d)
    ensures HexValue(b) == Some(d) && b != 0x22 && b != 0x5c
  {
  }

  lemma NoDigit(b: Byte)
    ensures HexValue(b).Some? ==> IsDigit(b, HexValue(b).value)
  {
  }

  lemma {:induction false} DigitsRead(h: Bytes, c: nat)
    requires Spells(h, c)
    ensures Hex4(h) == c
  {
    hide HexValue, IsDigit;
    DigitRead(h[0], c / 0x1000);
    DigitRead(h[1], c / 0x100 % 16);
    DigitRead(h[2], c / 0x10 % 16);
    DigitRead(h[3], c % 16);
    FourDigits(c);
  }

  lemma FourDigits(c: nat)
    ensures c == c / 0x1000 * 0x1000 + c / 0x100 % 16 * 0x100 + c / 0x10 % 16 * 0x10 + c % 16
  {
    var c1 := c / 16;
    var c2 := c1 / 16;
    assert c == 16 * c1 + c % 16 && c1 == 16 * c2 + c1 % 16 && c2 == 16 * (c2 / 16) + c2 % 16;
    assert c / 0x10 == c1 && c / 0x100 == c2 && c / 0x1000 == c2 / 16;
  }

  // ---------------------------------------------------------------- the pieces of a string

  /** What the inside of a string is made of. */
  datatype Piece =
    | Plain(c: Byte)
    | Short(letter: Byte)
    | Code(h: Bytes)
    | Pair(hi: Bytes, lo: Bytes)

  /** The letters with a meaning after a backslash, and that meaning. */
  const LETTERS: Bytes := [0x62, 0x66, 0x6e, 0x72, 0x74, 0x22, 0x5c, 0x2f]
  const MEANINGS: Bytes := [8, 12, 10, 13, 9, 0x22, 0x5c, 0x2f]

  function Spelled(p: Piece): Bytes {
    match p
    case Plain(c) => [c]
    case Short(x) => [0x5c, x]
    case Code(h) => [0x5c, 0x75] + h
    case Pair(hi, lo) => [0x5c, 0x75] + hi + [0x5c, 0x75] + lo
  }

  /** The bytes a piece stands for: itself, the character of its letter, or UTF-8. */
  ghost predicate Means(p: Piece, b: Bytes) {
    match p
    case Plain(c) => c != 0x22 && c != 0x5c && b == [c]
    case Short(x) => exists k :: 0 <= k < 8 && LETTERS[k] == x && b == [MEANINGS[k]]
    case Code(h) => exists c: nat :: Spells(h, c) && !IsSurrogate(c) && Character(b) == Some(c)
    case Pair(hi, lo) => exists c: nat, d: nat ::
      Spells(hi, c) && Spells(lo, d) && 0xD800 <= c <= 0xDBFF && 0xDC00 <= d <= 0xDFFF
      && Character(b) == Some(0x1_0000 + (c - 0xD800) * 0x400 + (d - 0xDC00))
  }

  function Inside(ps: seq<Piece>): Bytes { if ps == [] then [] else Spelled(ps[0]) + Inside(ps[1..]) }

  /** The pieces stand for the parts, one for one. */
  ghost predicate AllMean(ps: seq<Piece>, bs: seq<Bytes>) {
    |ps| == |bs| && forall i :: 0 <= i < |ps| ==> Means(ps[i], bs[i])
  }

  function Joined(bs: seq<Bytes>): Bytes { if bs == [] then [] else bs[0] + Joined(bs[1..]) }

  // ---------------------------------------------------------------- reading the pieces

  lemma Dropped(a: Bytes, r: Bytes)
    ensures (a + r)[|a|..] == r
  {
  }

  lemma {:induction false} PlainRead(c: Byte, r: Bytes)
    requires c != 0x22 && c != 0x5c
    ensures Unescape([c] + r) == Prepend([c], Unescape(r)) && Close([c] + r) == Further(Close(r), 1)
  {
    Dropped([c], r);
  }

  lemma {:induction false} ShortRead(x: Byte, y: Byte, r: Bytes)
    requires Unletter(x) == Some(y)
    ensures Unescape([0x5c, x] + r) == Prepend([y], Unescape(r)) && Close([0x5c, x] + r) == Further(Close(r), 2)
  {
    hide Close, Unletter;
    Dropped([0x5c, x], r);
    CloseStep([0x5c, x] + r);
  }

  lemma LettersRead(k: nat)
    requires k < 8
    ensures Unletter(LETTERS[k]) == Some(MEANINGS[k])
  {
  }

  /** Any other letter after a backslash, but for the one of a code, spoils the string. */
  lemma LettersOnly(x: Byte, r: Bytes)
    requires x !in LETTERS && x != 0x75
    ensures Unescape([0x5c, x] + r) == None
  {
    assert LETTERS[0] == 0x62 && LETTERS[1] == 0x66 && LETTERS[2] == 0x6e && LETTERS[3] == 0x72 && LETTERS[4] == 0x74;
    assert LETTERS[5] == 0x22 && LETTERS[6] == 0x5c && LETTERS[7] == 0x2f;
  }

  lemma LiteralStep(s: Bytes)
    requires |s| >= 2 && s[0] == 0x5c && s[1] == 0x75
    ensures Utf16Literal(s).None? ==> Unescape(s) == None
    ensures Utf16Literal(s).Some? ==> Unescape(s) == Prepend(Utf8(Utf16Literal(s).value.1), Unescape(s[Utf16Literal(s).value.0..]))
  {
    hide Utf16Literal, Utf8;
  }

  lemma {:induction false} DigitsClose(e: Bytes, r: Bytes)
    requires forall i :: 0 <= i < |e| ==> e[i] != 0x22 && e[i] != 0x5c
    ensures Close(e + r) == Further(Close(r), |e|)
  {
    hide Close;
    if e == [] {
      assert e + r == r;
    } else {
      assert e + r == [e[0]] + (e[1..] + r);
      Dropped([e[0]], e[1..] + r);
      CloseStep(e + r);
      DigitsClose(e[1..], r);
    }
  }

  lemma {:induction false} CodeClose(h: Bytes, c: nat, r: Bytes)
    requires Spells(h, c)
    ensures Close([0x5c, 0x75] + h + r) == Further(Close(r), 6)
  {
    hide Close, IsDigit, HexValue;
    DigitRead(h[0], c / 0x1000);
    DigitRead(h[1], c / 0x100 % 16);
    DigitRead(h[2], c / 0x10 % 16);
    DigitRead(h[3], c % 16);
    assert [0x5c, 0x75] + h + r == [0x5c, 0x75] + (h + r);
    Dropped([0x5c, 0x75], h + r);
    CloseStep([0x5c, 0x75] + (h + r));
    DigitsClose(h, r);
  }

  lemma CodeLiteral(h: Bytes, c: nat, r: Bytes)
    requires Spells(h, c)
    ensures var s := [0x5c, 0x75] + h + r; |s| >= 6 && s[0] == 0x5c && s[1] == 0x75 && Hex4(s[2..]) == c && s[6..] == r
  {
    hide Hex4, IsDigit;
    var s := [0x5c, 0x75] + h + r;
    assert s[2..][..4] == h;
    HexOfFour(s[2..]);
    DigitsRead(h, c);
  }

  lemma HexOfFour(s: Bytes)
    requires |s| >= 4
    ensures Hex4(s) == Hex4(s[..4])
  {
  }

  /** A code for a character outside the surrogates, in digits of either case. */
  lemma {:induction false} CodeRead(h: Bytes, c: nat, b: Bytes, r: Bytes)
    requires Spells(h, c) && !IsSurrogate(c) && Character(b) == Some(c)
    ensures Unescape([0x5c, 0x75] + h + r) == Prepend(b, Unescape(r))
  {
    hide Unescape, Hex4, Utf8, Character, Spells;
    var s := [0x5c, 0x75] + h + r;
    assert c < 0x1_0000 by { SpelledSmall(h, c); }
    CodeLiteral(h, c, r);
    LiteralStep(s);
    Utf8Exactly(c, b);
  }

  lemma SpelledSmall(h: Bytes, c: nat)
    requires Spells(h, c)
    ensures c < 0x1_0000 && |h| == 4
  {
  }

  /** A surrogate pair stands for one character beyond the first plane. */
  lemma {:induction false} PairRead(hi: Bytes, c: nat, lo: Bytes, d: nat, b: Bytes, r: Bytes)
    requires Spells(hi, c) && Spells(lo, d) && 0xD800 <= c <= 0xDBFF && 0xDC00 <= d <= 0xDFFF
    requires Character(b) == Some(0x1_0000 + (c - 0xD800) * 0x400 + (d - 0xDC00))
    ensures Unescape([0x5c, 0x75] + hi + [0x5c, 0x75] + lo + r) == Prepend(b, Unescape(r))
  {
    hide Unescape, Hex4, Utf8, Character, Spells;
    SpelledSmall(hi, c);
    SpelledSmall(lo, d);
    var rest := [0x5c, 0x75] + lo + r;
    var s := [0x5c, 0x75] + hi + rest;
    assert s == [0x5c, 0x75] + hi + [0x5c, 0x75] + lo + r;
    CodeLiteral(hi, c, rest);
    CodeLiteral(lo, d, r);
    assert s[6] == rest[0] && s[7] == rest[1] && s[8..] == s[6..][2..] && s[12..] == s[6..][6..];
    LiteralStep(s);
    Offsets(c, d);
    var whole := 0x1_0000 + (c - 0xD800) * 0x400 + (d - 0xDC00);
    Utf8Exactly(whole, b);
  }

  lemma Offsets(c: nat, d: nat)
    requires 0xD800 <= c <= 0xDBFF && 0xDC00 <= d <= 0xDFFF
    ensures c % 0x400 == c - 0xD800 && d % 0x400 == d - 0xDC00
  {
  }

  /** Half a pair spoils the string: a low half first, or a high half without a low one behind it. */
  lemma {:induction false} LoneSurrogate(h: Bytes, c: nat, r: Bytes)
    requires Spells(h, c) && IsSurrogate(c)
    requires c <= 0xDBFF ==> forall lo: Bytes, d: nat :: Spells(lo, d) && 0xDC00 <= d <= 0xDFFF ==> !StartsWith(r, [0x5c, 0x75] + lo)
    ensures Unescape([0x5c, 0x75] + h + r) == None
  {
    hide Unescape, Hex4, Spells, StartsWith;
    var s := [0x5c, 0x75] + h + r;
    CodeLiteral(h, c, r);
    LiteralStep(s);
    if c <= 0xDBFF && |s| >= 12 && s[6] == 0x5c && s[7] == 0x75 {
      assert s[8..] == r[2..] by { assert s[8..] == s[6..][2..]; }
      var lo, d := r[2..6], Hex4(r[2..]);
      assert r[2..][..4] == lo;
      if 0xDC00 <= d <= 0xDFFF {
        HexSpelled(r[2..]);
        assert StartsWith(r, [0x5c, 0x75] + lo) by { Starts(r, lo); }
      }
    }
  }

  lemma Starts(r: Bytes, lo: Bytes)
    requires |r| >= 6 && r[0] == 0x5c && r[1] == 0x75 && lo == r[2..6]
    ensures StartsWith(r, [0x5c, 0x75] + lo)
  {
    assert r[..6] == [0x5c, 0x75] + lo;
  }

  /** Four bytes that read as a number other than zero spell it. */
  lemma HexSpelled(s: Bytes)
    requires |s| >= 4 && Hex4(s) > 0
    ensures Spells(s[..4], Hex4(s))
  {
    hide HexValue, IsDigit;
    NoDigit(s[0]);
    NoDigit(s[1]);
    NoDigit(s[2]);
    NoDigit(s[3]);
    var w, x, y, z := HexValue(s[0]).value, HexValue(s[1]).value, HexValue(s[2]).value, HexValue(s[3]).value;
    assert w < 16 && x < 16 && y < 16 && z < 16 by { DigitsSmall(s); }
    Nibbles(w, x, y, z);
  }

  lemma DigitsSmall(s: Bytes)
    ensures forall i :: 0 <= i < |s| && HexValue(s[i]).Some? ==> HexValue(s[i]).value < 16
  {
  }

  lemma Sixteens(x: nat, y: nat)
    requires y < 16
    ensures (x * 16 + y) / 16 == x && (x * 16 + y) % 16 == y
  {
  }

  lemma Nibbles(w: nat, x: nat, y: nat, z: nat)
    requires w < 16 && x < 16 && y < 16 && z < 16
    ensures var c := w * 0x1000 + x * 0x100 + y * 0x10 + z;
      c / 0x1000 == w && c / 0x100 % 16 == x && c / 0x10 % 16 == y && c % 16 == z && c < 0x1_0000
  {
    Sixteens(w, x);
    Sixteens(w * 16 + x, y);
    Sixteens((w * 16 + x) * 16 + y, z);
    Hundreds(((w * 16 + x) * 16 + y) * 16 + z);
  }

  lemma Hundreds(c: nat)
    ensures c / 0x100 == c / 16 / 16 && c / 0x1000 == c / 16 / 16 / 16
  {
  }

  /** A code with a digit that is none is not refused: it reads as a zero byte, where the string ends. */
  lemma {:induction false} BadDigits(h: Bytes, r: Bytes)
    requires |h| == 4 && forall c: nat :: !Spells(h, c)
    ensures Unescape([0x5c, 0x75] + h + r) == Prepend([0], Unescape(r))
  {
    hide Unescape, Hex4, Spells;
    var s := [0x5c, 0x75] + h + r;
    assert s[2..][..4] == h && s[6..] == r;
    HexOfFour(s[2..]);
    assert Hex4(h) == 0 by { if Hex4(h) > 0 { assert h[..4] == h; HexSpelled(h); } }
    LiteralStep(s);
  }

  // ---------------------------------------------------------------- the whole string

  lemma {:induction false} PieceRead(p: Piece, b: Bytes, r: Bytes)
    requires Means(p, b)
    ensures Unescape(Spelled(p) + r) == Prepend(b, Unescape(r)) && Close(Spelled(p) + r) == Further(Close(r), |Spelled(p)|)
  {
    hide Unescape, Close, Spells, Character, Unletter;
    match p
    case Plain(c) => PlainRead(c, r);
    case Short(x) =>
      var k :| 0 <= k < 8 && LETTERS[k] == x && b == [MEANINGS[k]];
      LettersRead(k);
      ShortRead(x, MEANINGS[k], r);
    case Code(h) =>
      var c: nat :| Spells(h, c) && !IsSurrogate(c) && Character(b) == Some(c);
      CodeRead(h, c, b, r);
      CodeClose(h, c, r);
      SpelledSmall(h, c);
    case Pair(hi, lo) =>
      var c: nat, d: nat :| Spells(hi, c) && Spells(lo, d) && 0xD800 <= c <= 0xDBFF && 0xDC00 <= d <= 0xDFFF
        && Character(b) == Some(0x1_0000 + (c - 0xD800) * 0x400 + (d - 0xDC00));
      PairRead(hi, c, lo, d, b, r);
      SpelledSmall(hi, c);
      SpelledSmall(lo, d);
      var rest := [0x5c, 0x75] + lo + r;
      assert Spelled(p) + r == [0x5c, 0x75] + hi + rest;
      CodeClose(hi, c, rest);
      CodeClose(lo, d, r);
  }

  lemma {:induction false} PiecesRead(ps: seq<Piece>, bs: seq<Bytes>)
    requires AllMean(ps, bs)
    ensures Unescape(Inside(ps)) == Some(Joined(bs))
  {
    hide Unescape, Means;
    if ps == [] {
      assert Unescape([]) == Some([]) by { Nothing(); }
    } else {
      PiecesRead(ps[1..], bs[1..]);
      PieceRead(ps[0], bs[0], Inside(ps[1..]));
    }
  }

  lemma Nothing()
    ensures Unescape([]) == Some([])
  {
  }

  lemma Grouped(a: Bytes, b: Bytes, c: Bytes)
    ensures (a + b) + c == a + (b + c)
  {
  }

  lemma {:induction false} PiecesClose(ps: seq<Piece>, bs: seq<Bytes>, rest: Bytes)
    requires AllMean(ps, bs)
    ensures Close(Inside(ps) + ([0x22] + rest)) == Some(|Inside(ps)|)
  {
    hide Close, Means, Spelled;
    var tail := [0x22] + rest;
    if ps == [] {
      assert Inside(ps) + tail == tail;
      CloseStep(tail);
    } else {
      var first, more := Spelled(ps[0]), Inside(ps[1..]);
      PiecesClose(ps[1..], bs[1..], rest);
      PieceRead(ps[0], bs[0], more + tail);
      Grouped(first, more, tail);
    }
  }

  /**
   A quoted string made of plain bytes, short escapes, codes in digits of either case and
   surrogate pairs is read as what its pieces stand for, one after the other, up to the first
   zero among it.
   */
  lemma StringRead(ps: seq<Piece>, bs: seq<Bytes>, rest: Bytes)
    requires AllMean(ps, bs)
    ensures ParseString([0x22] + (Inside(ps) + ([0x22] + rest))) == Some((CString(Joined(bs)), rest))
  {
    hide Close, Unescape, Inside, AllMean, CString, Joined;
    var s := [0x22] + (Inside(ps) + ([0x22] + rest));
    assert s[1..] == Inside(ps) + ([0x22] + rest);
    PiecesClose(ps, bs, rest);
    PiecesRead(ps, bs);
    assert s[1..][..|Inside(ps)|] == Inside(ps);
    assert s[|Inside(ps)| + 2..] == rest;
  }

  // ---------------------------------------------------------------- around a text

  /**
   Whitespace before a printed tree does not matter; what comes after it matters only if the
   text has to end there, and then there may be whitespace alone.
   */
  lemma TrailingText(v: Value, fmt: bool, lead: Bytes, tail: Bytes)
    requires (forall b :: b in lead ==> 0 < b <= 32) && 0 !in tail
    ensures 0 !in lead + Print(v, fmt, 0) + tail
    ensures Parse(lead + Print(v, fmt, 0) + tail, false) == if Depth(v) <= 1000 then Some(v) else None
    ensures Parse(lead + Print(v, fmt, 0) + tail, true) == if Depth(v) <= 1000 && (forall b :: b in tail ==> b <= 32) then Some(v) else None
  {
    hide Print, ParseValue, Depth, Skip;
    PrintHasNoZero(v, fmt, 0);
    ValueTrip(v, fmt, 0, 0, tail + [0]);
    PrintStarts(v, fmt, 0);
    var s := Print(v, fmt, 0) + (tail + [0]);
    assert White(lead) by { assert forall i :: 0 <= i < |lead| ==> lead[i] in lead; }
    assert s[0] == Print(v, fmt, 0)[0];
    SkipWhite(lead, s);
    assert (lead + Print(v, fmt, 0) + tail) + [0] == lead + s;
    SkipToEnd(tail);
  }

  /** Skipping whitespace leads to the terminator if and only if there is nothing else. */
  lemma {:induction false} SkipToEnd(tail: Bytes)
    requires 0 !in tail
    ensures Skip(tail + [0]) != [] && (Skip(tail + [0])[0] == 0 <==> forall b :: b in tail ==> b <= 32)
  {
    if tail != [] {
      var rest := tail[1..];
      assert (tail + [0])[1..] == rest + [0] && tail == [tail[0]] + rest;
      forall b ensures b in tail <==> b == tail[0] || b in rest { assert b in [tail[0]] + rest <==> b in [tail[0]] || b in rest; }
      if tail[0] <= 32 { SkipToEnd(rest); } else { assert tail[0] in tail && (tail + [0])[0] == tail[0] && Skip(tail + [0]) == tail + [0]; }
    }
  }
}
