/**
 The compact forms of scripts and amounts, byte by byte.
 */
module ScriptForms {
  import opened Common
  import opened Limbs
  import opened Streams
  import opened Compressor

  // ---------------------------------------------------------------- scripts

  /** OP_DUP OP_HASH160 20 <hash> OP_EQUALVERIFY OP_CHECKSIG */
  function ToKeyHash(h: Bytes): Bytes { [0x76, 0xa9, 0x14] + h + [0x88, 0xac] }

  /** OP_HASH160 20 <hash> OP_EQUAL */
  function ToScriptHash(h: Bytes): Bytes { [0xa9, 0x14] + h + [0x87] }

  /** 33 <tag> <coordinate> OP_CHECKSIG */
  function ToShortKey(tag: Byte, x: Bytes): Bytes { [0x21, tag] + x + [0xac] }

  /** 65 <key> OP_CHECKSIG */
  function ToLongKey(k: Bytes): Bytes { [0x41] + k + [0xac] }

  lemma TagThen(tag: Byte, v: Bytes, rest: Bytes)
    requires tag < 6
    ensures ReadVarInt(0, [tag] + v + rest, LIMIT32) == Some((tag as nat, v + rest))
    ensures (v + rest)[..|v|] == v && (v + rest)[|v|..] == rest
  {
    hide ReadVarInt;
    assert [tag] + v + rest == [tag] + (v + rest);
    TagRead(tag, v + rest);
  }

  /** What each of the six tags is read as. Where a key is no point on the curve, the script read into stays as it was. */
  lemma TagsRead(keys: Keys, h: Bytes, x: Bytes, rest: Bytes, was: Bytes)
    requires |h| == 20 && |x| == 32
    ensures ReadScript(keys, [0] + h + rest, was) == Some((ToKeyHash(h), rest))
    ensures ReadScript(keys, [1] + h + rest, was) == Some((ToScriptHash(h), rest))
    ensures ReadScript(keys, [2] + x + rest, was) == Some((ToShortKey(2, x), rest))
    ensures ReadScript(keys, [3] + x + rest, was) == Some((ToShortKey(3, x), rest))
    ensures ReadScript(keys, [4] + x + rest, was) == Some((if keys.decompress([2] + x).Some? then ToLongKey(keys.decompress([2] + x).value) else was, rest))
    ensures ReadScript(keys, [5] + x + rest, was) == Some((if keys.decompress([3] + x).Some? then ToLongKey(keys.decompress([3] + x).value) else was, rest))
  {
    hide ReadVarInt;
    TagThen(0, h, rest);
    TagThen(1, h, rest);
    TagThen(2, x, rest);
    TagThen(3, x, rest);
    TagThen(4, x, rest);
    TagThen(5, x, rest);
  }

  /** Anything else is read by its length and six, up to 10000 bytes; a longer script becomes one byte added to what was there. */
  lemma LengthsRead(keys: Keys, s: Bytes, rest: Bytes, was: Bytes)
    requires |s| < 0x8000_0000
    ensures ReadScript(keys, VarInt(|s| + 6, false) + s + rest, was) == Some((if |s| <= 10000 then s else was + [0x6a], rest))
  {
    hide ReadVarInt, VarInt, Decompress, Wrapped, SpecialSize;
    assert VarInt(|s| + 6, false) + s + rest == VarInt(|s| + 6, false) + (s + rest);
    VarIntRoundTrip(|s| + 6, s + rest, LIMIT32);
    assert (s + rest)[..|s|] == s && (s + rest)[|s|..] == rest;
  }

  /** The forms that are written with a tag: 21 bytes for hashes and 33 for keys. */
  lemma TagsWritten(keys: Keys, h: Bytes, x: Bytes, k: Bytes)
    requires |h| == 20 && |x| == 32 && |k| == 65 && k[0] == 4 && keys.isFullyValid(k)
    ensures WrittenScript(keys, ToKeyHash(h)) == [0] + h
    ensures WrittenScript(keys, ToScriptHash(h)) == [1] + h
    ensures WrittenScript(keys, ToShortKey(2, x)) == [2] + x
    ensures WrittenScript(keys, ToShortKey(3, x)) == [3] + x
    ensures WrittenScript(keys, ToLongKey(k)) == [4 + k[64] % 2] + k[1..33]
  {
    hide VarInt;
    assert ToKeyHash(h)[3..23] == h;
    assert ToScriptHash(h)[2..22] == h;
    assert ToShortKey(2, x)[2..34] == x && ToShortKey(3, x)[2..34] == x;
    LongWritten(keys, k);
  }

  lemma LongWritten(keys: Keys, k: Bytes)
    requires |k| == 65 && k[0] == 4 && keys.isFullyValid(k)
    ensures WrittenScript(keys, ToLongKey(k)) == [4 + k[64] % 2] + k[1..33]
  {
    hide VarInt;
    var s := ToLongKey(k);
    assert s[1..66] == k && s[2..34] == k[1..33] && s[65] == k[64];
  }

  /** A script of none of these forms. */
  ghost predicate Ordinary(keys: Keys, s: Bytes) {
    && (forall h: Bytes :: |h| == 20 ==> s != ToKeyHash(h) && s != ToScriptHash(h))
    && (forall x: Bytes :: |x| == 32 ==> s != ToShortKey(2, x) && s != ToShortKey(3, x))
    && (forall k: Bytes :: |k| == 65 && k[0] == 4 && keys.isFullyValid(k) ==> s != ToLongKey(k))
  }

  /** An ordinary script is written behind its length and six. */
  lemma LengthsWritten(keys: Keys, s: Bytes)
    requires |s| < 0xffff_fffa && Ordinary(keys, s)
    ensures WrittenScript(keys, s) == VarInt(|s| + 6, false) + s
  {
    hide VarInt, Wrapped, IsToKeyID, IsToScriptID, IsToShortKey, IsToLongKey, Ordinary;
    NotKeyHash(keys, s);
    NotScriptHash(keys, s);
    NotShortKey(keys, s);
    NotLongKey(keys, s);
  }

  lemma NotKeyHash(keys: Keys, s: Bytes)
    requires Ordinary(keys, s)
    ensures !IsToKeyID(s)
  {
    hide ToScriptHash, ToShortKey, ToLongKey, ToKeyHash, IsToKeyID;
    if IsToKeyID(s) { KeyHashShape(s); }
  }

  lemma NotScriptHash(keys: Keys, s: Bytes)
    requires Ordinary(keys, s)
    ensures !IsToScriptID(s)
  {
    hide ToKeyHash, ToShortKey, ToLongKey, ToScriptHash, IsToScriptID;
    if IsToScriptID(s) { ScriptHashShape(s); }
  }

  lemma NotShortKey(keys: Keys, s: Bytes)
    requires Ordinary(keys, s)
    ensures !IsToShortKey(s)
  {
    hide ToKeyHash, ToScriptHash, ToLongKey, ToShortKey, IsToShortKey;
    if IsToShortKey(s) { ShortKeyShape(s); }
  }

  lemma NotLongKey(keys: Keys, s: Bytes)
    requires Ordinary(keys, s)
    ensures !IsToLongKey(keys, s)
  {
    hide ToKeyHash, ToScriptHash, ToShortKey, ToLongKey, IsToLongKey;
    if IsToLongKey(keys, s) { LongKeyShape(keys, s); }
  }

  lemma KeyHashShape(s: Bytes)
    requires IsToKeyID(s)
    ensures |s| == 25 && |s[3..23]| == 20 && s == ToKeyHash(s[3..23])
  {
  }

  lemma ScriptHashShape(s: Bytes)
    requires IsToScriptID(s)
    ensures |s| == 23 && |s[2..22]| == 20 && s == ToScriptHash(s[2..22])
  {
  }

  lemma ShortKeyShape(s: Bytes)
    requires IsToShortKey(s)
    ensures |s| == 35 && |s[2..34]| == 32 && (s == ToShortKey(2, s[2..34]) || s == ToShortKey(3, s[2..34]))
  {
  }

  lemma LongKeyShape(keys: Keys, s: Bytes)
    requires IsToLongKey(keys, s)
    ensures |s| == 67 && |s[1..66]| == 65 && s[1..66][0] == 4 && keys.isFullyValid(s[1..66]) && s == ToLongKey(s[1..66])
  {
  }

  // ---------------------------------------------------------------- amounts

  /** With up to eight zeroes at the end: the last digit before them, the digits before that, and the count of zeroes. */
  lemma ShortForm(n: nat, d: nat, e: nat)
    requires 1 <= d <= 9 && e < 9
    ensures CompactAmount((10 * n + d) * Pow(10, e)) == 1 + 10 * (9 * n + d - 1) + e
  {
    hide Stripped, Pow;
    var m := 10 * n + d;
    LastDigit(n, d);
    StrippedBack(m, e, 0);
    assert m * Pow(10, e) > 0 by { TenPositive(e); MulAtLeast(m, Pow(10, e)); }
  }

  lemma LastDigit(n: nat, d: nat)
    requires 1 <= d <= 9
    ensures (10 * n + d) % 10 == d && (10 * n + d) / 10 == n
  {
  }

  lemma {:induction false} TenPositive(e: nat)
    ensures Pow(10, e) > 0
  {
    if e > 0 { TenPositive(e - 1); }
  }

  /** With nine zeroes or more: what is before nine of them. */
  lemma LongForm(n: nat)
    requires n > 0
    ensures CompactAmount(n * 1_000_000_000) == 1 + 10 * (n - 1) + 9
  {
    hide Stripped;
    assert Pow(10, 9) == 1_000_000_000;
    StrippedBack(n, 9, 0);
  }

  lemma NoAmount()
    ensures CompactAmount(0) == 0 && AmountOf(0) == 0
  {
  }
}
