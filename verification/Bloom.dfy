/**
 Bloom filters, and the pair of them that remembers the last keys inserted.
 */
module Bloom {
  import opened Common

  /** The hash functions: which bit a key sets for each of them, out of a number of bits. */
  datatype Hashing = Hashing(murmur: (nat, Bytes) -> nat)

  /** The seed of the `i`th hash function. */
  function Seed(i: nat, tweak: nat): nat { (i * 0xFBA4C795 + tweak) % LIMIT32 }

  // ---------------------------------------------------------------- bits of a byte

  function BitMask(k: nat): bv8
    requires k < 8
  {
    match k
    case 0 => 1
    case 1 => 2
    case 2 => 4
    case 3 => 8
    case 4 => 16
    case 5 => 32
    case 6 => 64
    case 7 => 128
  }

  predicate HasBit(b: bv8, k: nat)
    requires k < 8
  {
    Meets(b, BitMask(k))
  }

  predicate Meets(b: bv8, m: bv8) { b & m != 0 }

  function Joined(b: bv8, m: bv8): bv8 { b | m }

  function WithBit(b: bv8, k: nat): bv8
    requires k < 8
  {
    Joined(b, BitMask(k))
  }

  lemma BitExact(b: bv8, k: nat, j: nat)
    requires k < 8 && j < 8
    ensures HasBit(WithBit(b, k), j) <==> HasBit(b, j) || j == k
    ensures !HasBit(0, j)
  {
    hide BitMask, Meets, Joined;
    OrExact(b, BitMask(k), BitMask(j));
    OneBit(k, j);
  }

  lemma OrExact(b: bv8, x: bv8, y: bv8)
    ensures Meets(Joined(b, x), y) <==> Meets(b, y) || Meets(x, y)
    ensures !Meets(0, y)
  {
  }

  lemma OneBit(k: nat, j: nat)
    requires k < 8 && j < 8
    ensures Meets(BitMask(k), BitMask(j)) <==> k == j
  {
  }

  /** Bit `n` of a row of bytes. */
  predicate Marked(v: seq<bv8>, n: nat) { n / 8 < |v| && HasBit(v[n / 8], n % 8) }

  function Mark(v: seq<bv8>, n: nat): seq<bv8>
    requires n / 8 < |v|
  {
    v[n / 8 := WithBit(v[n / 8], n % 8)]
  }

  lemma MarkExact(v: seq<bv8>, n: nat, m: nat)
    requires n / 8 < |v|
    ensures Marked(Mark(v, n), m) <==> Marked(v, m) || m == n
  {
    hide HasBit, WithBit;
    BitExact(v[n / 8], n % 8, m % 8);
  }

  lemma NoneMarked(size: nat, m: nat)
    ensures !Marked(seq(size, i => 0), m)
  {
    hide HasBit;
    BitExact(0, 0, m % 8);
  }

  /** A filter as a value. */
  datatype Filter = Filter(hashing: Hashing, v: seq<bv8>, isFull: bool, isEmpty: bool, nHashFuncs: nat, nTweak: nat) {
    /** A filter without bits has no hash functions either. */
    predicate Valid() { |v| == 0 ==> nHashFuncs == 0 }

    function Index(i: nat, key: Bytes): nat {
      if |v| == 0 then 0 else hashing.murmur(Seed(i, nTweak), key) % (|v| * 8)
    }

    lemma IndexInRange(i: nat, key: Bytes)
      requires |v| > 0
      ensures Index(i, key) < |v| * 8
    {
    }

    /** The first `n` hash functions find their bits set. */
    predicate Found(n: nat, key: Bytes) { forall i :: 0 <= i < n ==> Marked(v, Index(i, key)) }

    /** What `contains` answers. */
    predicate Contains(key: Bytes) { isFull || (!isEmpty && Found(nHashFuncs, key)) }

    /** The bits after the first `n` hash functions have set theirs for a key. */
    function MarkAll(n: nat, key: Bytes): (w: seq<bv8>)
      requires |v| == 0 ==> n == 0
      ensures |w| == |v|
    {
      if n == 0 then v else
      IndexInRange(n - 1, key);
      Mark(MarkAll(n - 1, key), Index(n - 1, key))
    }

    /** What `insert` leaves. */
    function Inserted(key: Bytes): (f: Filter)
      requires Valid()
      ensures f.Valid()
    {
      if isFull then this else this.(v := MarkAll(nHashFuncs, key), isEmpty := false)
    }

    /** What `clear` leaves. */
    function Cleared(): Filter { this.(v := seq(|v|, i => 0), isFull := false, isEmpty := true) }

    /** Bit `n` is one of some key's. */
    ghost predicate Hit(keys: seq<Bytes>, n: nat) {
      exists j :: 0 <= j < |keys| && HitBy(keys[j], nHashFuncs, n)
    }

    /** All bits of a key are also bits of the given keys. */
    ghost predicate Covered(keys: seq<Bytes>, key: Bytes) { forall i :: 0 <= i < nHashFuncs ==> Hit(keys, Index(i, key)) }

    ghost predicate HitBy(key: Bytes, k: nat, n: nat) { exists i :: 0 <= i < k && Index(i, key) == n }

    /** The filter's bits are those of the given keys and no others. */
    ghost predicate Holds(keys: seq<Bytes>) {
      && Valid() && !isFull && (isEmpty <==> keys == [])
      && forall n :: Marked(v, n) <==> Hit(keys, n)
    }

    lemma {:induction false} MarkAllExact(k: nat, key: Bytes, n: nat)
      requires |v| == 0 ==> k == 0
      ensures Marked(MarkAll(k, key), n) <==> Marked(v, n) || HitBy(key, k, n)
    {
      hide Marked, Mark, Index;
      if k > 0 {
        IndexInRange(k - 1, key);
        MarkAllExact(k - 1, key, n);
        MarkExact(MarkAll(k - 1, key), Index(k - 1, key), n);
      }
    }

    /** Inserting a key adds its bits and no others. */
    lemma InsertedHolds(keys: seq<Bytes>, key: Bytes)
      requires Holds(keys)
      ensures Inserted(key).Holds(keys + [key])
    {
      hide Marked, MarkAll, HitBy;
      var g, more := Inserted(key), keys + [key];
      assert g == this.(v := MarkAll(nHashFuncs, key), isEmpty := false);
      forall n ensures Marked(g.v, n) <==> g.Hit(more, n) {
        MarkAllExact(nHashFuncs, key, n);
        forall k: Bytes ensures g.HitBy(k, nHashFuncs, n) <==> HitBy(k, nHashFuncs, n) { SameHits(g, k, n); }
        assert more[|keys|] == key;
        if Hit(keys, n) {
          var j :| 0 <= j < |keys| && HitBy(keys[j], nHashFuncs, n);
          assert more[j] == keys[j];
        }
        if g.Hit(more, n) {
          var j :| 0 <= j < |more| && g.HitBy(more[j], nHashFuncs, n);
          assert j < |keys| ==> more[j] == keys[j];
        }
      }
    }

    lemma SameHits(g: Filter, key: Bytes, n: nat)
      requires g == this.(v := g.v, isEmpty := g.isEmpty) && |g.v| == |v|
      ensures g.HitBy(key, nHashFuncs, n) <==> HitBy(key, nHashFuncs, n)
    {
      assert forall i: nat :: g.Index(i, key) == Index(i, key);
    }

    lemma ClearedHolds()
      requires Valid()
      ensures Cleared().Holds([])
    {
      hide Marked;
      forall n ensures !Marked(Cleared().v, n) { NoneMarked(|v|, n); }
    }

    /** Which keys a filter claims to contain: those all of whose bits belong to keys it holds. */
    lemma ContainsExact(keys: seq<Bytes>, key: Bytes)
      requires Holds(keys)
      ensures Contains(key) <==> keys != [] && Covered(keys, key)
      ensures key in keys ==> Contains(key)
    {
      hide Marked, Index;
      if key in keys {
        var j :| 0 <= j < |keys| && keys[j] == key;
        forall i | 0 <= i < nHashFuncs ensures Hit(keys, Index(i, key)) { assert HitBy(keys[j], nHashFuncs, Index(i, key)); }
      }
    }
  }

  class BloomFilter {
    const hashing: Hashing
    const vData: array<bv8>
    var isFull: bool
    var isEmpty: bool
    const nHashFuncs: nat
    var nTweak: nat

    /** The size and the number of hash functions come from the rates asked for. */
    constructor (hashing: Hashing, size: nat, nHashFuncs: nat, nTweak: nat)
      requires size == 0 ==> nHashFuncs == 0
      ensures Valid() && fresh(this.vData) && Value().Holds([])
    {
      this.hashing := hashing;
      this.vData := new bv8[size](i => 0);
      this.isFull := false;
      this.isEmpty := true;
      this.nHashFuncs := nHashFuncs;
      this.nTweak := nTweak;
      new;
      Value().ClearedHolds();
      assert vData[..] == Value().Cleared().v;
    }

    predicate Valid()
      reads this
    {
      vData.Length == 0 ==> nHashFuncs == 0
    }

    function Value(): (f: Filter)
      requires Valid()
      reads this, vData
      ensures f.Valid()
    {
      Filter(hashing, vData[..], isFull, isEmpty, nHashFuncs, nTweak)
    }

    method Insert(key: Bytes)
      requires Valid()
      modifies this`isEmpty, vData
      ensures Valid() && Value() == old(Value()).Inserted(key)
    {
      hide Marked, Seed, Mark;
      if isFull { return; }
      ghost var was := Value();
      for i := 0 to nHashFuncs
        invariant Valid() && Value() == was.(v := was.MarkAll(i, key))
      {
        var nIndex := hashing.murmur(Seed(i, nTweak), key) % (vData.Length * 8);
        was.IndexInRange(i, key);
        assert nIndex == was.Index(i, key);
        SetBit(nIndex);
      }
      isEmpty := false;
    }

    method SetBit(nIndex: nat)
      requires nIndex < vData.Length * 8
      modifies vData
      ensures vData[..] == Mark(old(vData[..]), nIndex)
    {
      hide Marked, WithBit;
      vData[nIndex / 8] := WithBit(vData[nIndex / 8], nIndex % 8);
    }

    method ContainsKey(key: Bytes) returns (r: bool)
      requires Valid()
      ensures r == Value().Contains(key)
    {
      hide HasBit, Seed;
      if isFull { return true; }
      if isEmpty { return false; }
      for i := 0 to nHashFuncs
        invariant Value().Found(i, key)
      {
        var nIndex := hashing.murmur(Seed(i, nTweak), key) % (vData.Length * 8);
        if !HasBit(vData[nIndex / 8], nIndex % 8) {
          assert nIndex == Value().Index(i, key) && !Marked(vData[..], nIndex);
          return false;
        }
      }
      return true;
    }

    method Clear()
      requires Valid()
      modifies this`isFull, this`isEmpty, vData
      ensures Valid() && Value() == old(Value()).Cleared()
    {
      for i := 0 to vData.Length
        invariant vData[..i] == seq(i, k => 0)
      {
        vData[i] := 0;
      }
      assert vData[..vData.Length] == vData[..];
      isFull := false;
      isEmpty := true;
    }

    method Reset(nNewTweak: nat)
      requires Valid()
      modifies this, vData
      ensures Valid() && Value() == old(Value()).Cleared().(nTweak := nNewTweak)
    {
      Clear();
      nTweak := nNewTweak;
    }
  }

  // ---------------------------------------------------------------- the rolling filter

  /** The last `n` of a sequence, or all if there are fewer. */
  function Last(s: seq<Bytes>, n: nat): seq<Bytes> { if n >= |s| then s else s[|s| - n..] }

  /** How many of the last keys each of the two filters holds; a filter is cleared only when the next key arrives. */
  function FirstSpan(nInsertions: nat, half: nat): nat { if nInsertions == 0 then 2 * half else nInsertions }

  function SecondSpan(nInsertions: nat, half: nat): nat {
    if nInsertions <= half then half + nInsertions else nInsertions - half
  }

  class RollingBloomFilter {
    const nBloomSize: nat
    var nInsertions: nat
    const b1: BloomFilter
    const b2: BloomFilter
    /** The keys inserted since the last reset. */
    ghost var inserted: seq<Bytes>

    ghost predicate Shape()
      reads this, b1, b2
    {
      && b1 != b2 && b1.vData != b2.vData && b1.Valid() && b2.Valid()
      && nBloomSize % 2 == 0 && 0 < nBloomSize < LIMIT32
    }

    /** Each filter holds exactly the last keys of its span. */
    ghost predicate Valid()
      reads this, b1, b2, b1.vData, b2.vData
    {
      && Shape() && nInsertions < nBloomSize
      && b1.Value().Holds(Last(inserted, FirstSpan(nInsertions, Capacity())))
      && b2.Value().Holds(Last(inserted, SecondSpan(nInsertions, Capacity())))
    }

    /** How many keys are remembered. */
    function Capacity(): nat { nBloomSize / 2 }

    /** As many keys are remembered as were asked for, if twice their number does not overflow; it must not overflow to zero. */
    constructor (hashing: Hashing, nElements: nat, size: nat, nHashFuncs: nat, tweak: nat)
      requires nElements < LIMIT32 && nElements * 2 % LIMIT32 != 0 && (size == 0 ==> nHashFuncs == 0)
      ensures Valid() && fresh(b1) && fresh(b2) && fresh(b1.vData) && fresh(b2.vData)
      ensures inserted == [] && (Capacity() == nElements <==> nElements < LIMIT32 / 2)
    {
      nBloomSize := nElements * 2 % LIMIT32;
      nInsertions := 0;
      b1 := new BloomFilter(hashing, size, nHashFuncs, 0);
      b2 := new BloomFilter(hashing, size, nHashFuncs, 0);
      inserted := [];
      new;
      Reset(tweak);
    }

    method Reset(nNewTweak: nat)
      requires Shape()
      modifies this, b1, b2, b1.vData, b2.vData
      ensures Valid() && inserted == [] && nInsertions == 0
    {
      hide Filter.Holds, Filter.Cleared;
      ghost var f1, f2 := b1.Value(), b2.Value();
      b1.Reset(nNewTweak);
      ghost var g1 := b1.Value();
      b2.Reset(nNewTweak);
      assert b1.Value() == g1;
      nInsertions := 0;
      inserted := [];
      ResetHolds(f1, nNewTweak);
      ResetHolds(f2, nNewTweak);
    }

    /** Inserting keeps the promise for the key inserted and those before it. */
    method Insert(key: Bytes)
      requires Valid()
      modifies this`nInsertions, this`inserted, b1, b2, b1.vData, b2.vData
      ensures Valid() && inserted == old(inserted) + [key]
    {
      hide Filter.Holds, Filter.Inserted, Filter.Cleared, Last, Filter.Valid;
      ghost var s, n, half := inserted, nInsertions, nBloomSize / 2;
      ghost var first, second := if n == 0 then 0 else n, if n == half then 0 else SecondSpan(n, half);
      LastNone(s);
      b1.Value().ClearedHolds();
      b2.Value().ClearedHolds();
      if nInsertions == 0 {
        b1.Clear();
      } else if nInsertions == nBloomSize / 2 {
        b2.Clear();
      }
      ghost var f1, f2 := b1.Value(), b2.Value();
      assert f1.Holds(Last(s, first)) && f2.Holds(Last(s, second));
      b1.Insert(key);
      assert b2.Value() == f2;
      b2.Insert(key);
      f1.InsertedHolds(Last(s, first), key);
      f2.InsertedHolds(Last(s, second), key);
      LastSnoc(s, first, key);
      LastSnoc(s, second, key);
      nInsertions := (nInsertions + 1) % LIMIT32;
      if nInsertions == nBloomSize {
        nInsertions := 0;
      }
      inserted := inserted + [key];
      assert first + 1 == FirstSpan(nInsertions, half) && second + 1 == SecondSpan(nInsertions, half);
    }

    /** The keys that the filter asked now holds: at least the last ones up to the capacity. */
    ghost function Held(): (keys: seq<Bytes>)
      requires Valid()
      reads this, b1, b2, b1.vData, b2.vData
    {
      Last(inserted, if nInsertions < Capacity() then SecondSpan(nInsertions, Capacity()) else nInsertions)
    }

    /** The filter that is asked now. */
    ghost function Asked(): Filter
      requires Valid()
      reads this, b1, b2, b1.vData, b2.vData
    {
      if nInsertions < Capacity() then b2.Value() else b1.Value()
    }

    /**
     The last keys up to the capacity are always contained; any other answer of true has all
     its bits set by the keys now held, of which there are fewer than twice the capacity.
     */
    method ContainsKey(key: Bytes) returns (r: bool)
      requires Valid()
      ensures key in Last(inserted, Capacity()) ==> r
      ensures r <==> Held() != [] && Asked().Covered(Held(), key)
      ensures |Held()| < 2 * Capacity()
    {
      hide Filter.Holds, Filter.Contains, Filter.Covered, Last;
      LastWithin(inserted, if nInsertions < Capacity() then SecondSpan(nInsertions, Capacity()) else nInsertions, Capacity(), key);
      if nInsertions < nBloomSize / 2 {
        b2.Value().ContainsExact(Held(), key);
        r := b2.ContainsKey(key);
      } else {
        b1.Value().ContainsExact(Held(), key);
        r := b1.ContainsKey(key);
      }
    }
  }

  lemma ResetHolds(f: Filter, tweak: nat)
    requires f.Valid()
    ensures f.Cleared().(nTweak := tweak).Holds([])
  {
    f.(nTweak := tweak).ClearedHolds();
  }

  lemma LastWithin(s: seq<Bytes>, n: nat, m: nat, key: Bytes)
    requires m <= n
    ensures key in Last(s, m) ==> key in Last(s, n)
    ensures |Last(s, n)| <= n
  {
    if key in Last(s, m) {
      var i :| 0 <= i < |Last(s, m)| && Last(s, m)[i] == key;
      assert Last(s, n)[i + |Last(s, n)| - |Last(s, m)|] == key;
    }
  }

  lemma LastNone(s: seq<Bytes>)
    ensures Last(s, 0) == []
  {
  }

  lemma LastSnoc(s: seq<Bytes>, n: nat, key: Bytes)
    ensures Last(s + [key], n + 1) == Last(s, n) + [key]
  {
  }
}
