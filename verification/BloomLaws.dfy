/**
 The bits of a Bloom filter, counted out, and that its hash functions are different ones.
 */
module BloomLaws {
  import opened Common
  import opened Limbs
  import opened Bloom

  /** Bit `n` of a sequence of bytes, the lowest of each byte first. */
  predicate Bit(v: seq<bv8>, n: nat)
    requires n / 8 < |v|
  {
    v[n / 8] as int / Pow(2, n % 8) % 2 == 1
  }

  lemma MarkedIsBit(v: seq<bv8>, n: nat)
    requires n / 8 < |v|
    ensures Marked(v, n) <==> Bit(v, n)
  {
    hide HasBit;
    ByteBit(v[n / 8], n % 8);
  }

  lemma {:induction false} ByteBit(b: bv8, k: nat)
    requires k < 8
    ensures HasBit(b, k) <==> b as int / Pow(2, k) % 2 == 1
  {
    hide HasBit;
    Powers();
    match k
    case 0 => Bit0(b);
    case 1 => Bit1(b);
    case 2 => Bit2(b);
    case 3 => Bit3(b);
    case 4 => Bit4(b);
    case 5 => Bit5(b);
    case 6 => Bit6(b);
    case 7 => Bit7(b);
  }

  lemma Powers()
    ensures Pow(2, 0) == 1 && Pow(2, 1) == 2 && Pow(2, 2) == 4 && Pow(2, 3) == 8 && Pow(2, 4) == 16
    ensures Pow(2, 5) == 32 && Pow(2, 6) == 64 && Pow(2, 7) == 128
  {
    assert Pow(2, 3) == 8;
  }

  lemma Bit0(b: bv8)
    ensures HasBit(b, 0) <==> b as int / 1 % 2 == 1
  {
  }

  lemma Bit1(b: bv8)
    ensures HasBit(b, 1) <==> b as int / 2 % 2 == 1
  {
  }

  lemma Bit2(b: bv8)
    ensures HasBit(b, 2) <==> b as int / 4 % 2 == 1
  {
  }

  lemma Bit3(b: bv8)
    ensures HasBit(b, 3) <==> b as int / 8 % 2 == 1
  {
  }

  lemma Bit4(b: bv8)
    ensures HasBit(b, 4) <==> b as int / 16 % 2 == 1
  {
  }

  lemma Bit5(b: bv8)
    ensures HasBit(b, 5) <==> b as int / 32 % 2 == 1
  {
  }

  lemma Bit6(b: bv8)
    ensures HasBit(b, 6) <==> b as int / 64 % 2 == 1
  {
  }

  lemma Bit7(b: bv8)
    ensures HasBit(b, 7) <==> b as int / 128 % 2 == 1
  {
  }

  /** The bit a hash function picks: the hash seeded with the function's number times 4221880213 and the tweak, in 32 bits. */
  function Place(f: Filter, i: nat, key: Bytes): nat
    requires |f.v| > 0
  {
    f.hashing.murmur((i * 4221880213 + f.nTweak) % 4294967296, key) % (8 * |f.v|)
  }

  lemma PlaceIsIndex(f: Filter, i: nat, key: Bytes)
    requires |f.v| > 0
    ensures f.Index(i, key) == Place(f, i, key) && Place(f, i, key) / 8 < |f.v|
  {
    assert |f.v| * 8 == 8 * |f.v|;
    f.IndexInRange(i, key);
  }

  /** Inserting a key sets the bits its hash functions pick, and no others. */
  lemma InsertedBits(f: Filter, key: Bytes, n: nat)
    requires f.Valid() && !f.isFull && n / 8 < |f.v|
    ensures |f.Inserted(key).v| == |f.v|
    ensures Bit(f.Inserted(key).v, n) <==> Bit(f.v, n) || exists i :: 0 <= i < f.nHashFuncs && Place(f, i, key) == n
  {
    hide Marked, Filter.MarkAll, Bit, Filter.Index, Place;
    MarkedIsBit(f.v, n);
    MarkedIsBit(f.Inserted(key).v, n);
    f.MarkAllExact(f.nHashFuncs, key, n);
    forall i: nat ensures f.Index(i, key) == Place(f, i, key) { PlaceIsIndex(f, i, key); }
  }

  /** A key is contained if all the bits its hash functions pick are set. */
  lemma ContainedBits(f: Filter, key: Bytes)
    requires f.Valid() && !f.isFull && !f.isEmpty && |f.v| > 0
    ensures f.Contains(key) <==> forall i :: 0 <= i < f.nHashFuncs ==> Place(f, i, key) / 8 < |f.v| && Bit(f.v, Place(f, i, key))
  {
    hide Marked, Bit, Filter.Index, Place;
    forall i: nat ensures f.Index(i, key) == Place(f, i, key) && Place(f, i, key) / 8 < |f.v| { PlaceIsIndex(f, i, key); }
    forall i | 0 <= i < f.nHashFuncs ensures Marked(f.v, f.Index(i, key)) <==> Bit(f.v, Place(f, i, key)) { MarkedIsBit(f.v, Place(f, i, key)); }
  }

  /** A full filter contains everything and does not change; an empty one contains nothing. */
  lemma FullAndEmpty(f: Filter, key: Bytes)
    requires f.Valid()
    ensures f.isFull ==> f.Contains(key) && f.Inserted(key) == f
    ensures !f.isFull ==> !f.Inserted(key).isEmpty && (f.isEmpty ==> !f.Contains(key))
  {
  }

  /** No two hash functions have the same seed, as the multiplier has an inverse. */
  lemma SeedsDiffer(i: nat, j: nat, tweak: nat)
    requires i < j < 0x1_0000_0000
    ensures Seed(i, tweak) != Seed(j, tweak)
  {
    var a, b := i * 0xFBA4C795 + tweak, j * 0xFBA4C795 + tweak;
    var q := b / LIMIT32 - a / LIMIT32;
    assert a == a / LIMIT32 * LIMIT32 + Seed(i, tweak) && b == b / LIMIT32 * LIMIT32 + Seed(j, tweak);
    if Seed(i, tweak) == Seed(j, tweak) { var t := OnlyMultiples(j - i, q); }
  }

  lemma OnlyMultiples(d: nat, q: int) returns (t: int)
    requires d * 0xFBA4C795 == q * 0x1_0000_0000
    ensures d == t * 0x1_0000_0000
  {
    t := q * INVERSE - d * K;
  }

  /** 0xfba4c795 times this is one more than `K` times 2^32. */
  const INVERSE: nat := 0x75604bbd

  const K: nat := 0x7360f775
}
