/**
 The file of the address manager, written out: its header, what of an entry it keeps, and
 where the entries of a file with other buckets go.
 */
module AddrStoreLaws {
  import opened Common
  import opened AddrTables
  import opened AddrInvariant
  import opened AddrStore

  /** Version 1, keys of 32 bytes, the key, the two counts, and 1024 buckets with bit 30 turned. */
  lemma Header(t: Tables, key: Key, order: seq<int>)
    ensures |Written(t, key, order)| >= 6
    ensures Written(t, key, order)[..6] == [Num(1), Num(32), KeyToken(key), Num(t.nNew), Num(t.nTried), Num(1073742848)]
  {
    hide Entries, Buckets, Picked;
  }

  /** A file keeps address, services, times of being seen and of success, attempts and source; the last try is forgotten. */
  lemma KeptOfEntry(u: Tables, t: Tables, all: seq<int>, i: int)
    requires EntryRestored(u, t, all, i)
    ensures var a, b := t.mapInfo[all[i]], u.mapInfo[i];
      && b.service == a.service && b.nServices == a.nServices && b.nTime == a.nTime && b.source == a.source
      && b.nLastSuccess == a.nLastSuccess && b.nAttempts == a.nAttempts && b.fInTried == a.fInTried
      && b.nLastTry == 0 && b.nRandomPos == i
  {
  }

  // ---------------------------------------------------------------- files with other buckets

  /** The slot that the source written for an entry points at. */
  function Primary(pl: Placement, r: Record): Slot { pl.NewSlot(r.service, pl.NewBucket(r.service, r.source)) }

  /** No entry before this one has the same primary slot. */
  predicate IsFirst(pl: Placement, rs: seq<Record>, i: nat)
    requires i < |rs|
  {
    forall j :: 0 <= j < i ==> Primary(pl, rs[j]) != Primary(pl, rs[i])
  }

  /** The entries read so far, those that came first at their primary slots. */
  ghost predicate Spread(u: Tables, pl: Placement, rs: seq<Record>) {
    && (forall i :: 0 <= i < |rs| ==> SpreadAt(u, pl, rs, i))
    && (forall s :: s in u.newSlots ==> 0 <= u.newSlots[s] < |rs| && s == Primary(pl, rs[u.newSlots[s]]) && IsFirst(pl, rs, u.newSlots[s]))
  }

  ghost predicate SpreadAt(u: Tables, pl: Placement, rs: seq<Record>, i: nat)
    requires i < |rs|
  {
    && i in u.mapInfo && u.mapInfo[i].service == rs[i].service && !u.mapInfo[i].fInTried
    && u.mapInfo[i].nRefCount == (if IsFirst(pl, rs, i) then 1 else 0)
    && Primary(pl, rs[i]) in u.newSlots && (IsFirst(pl, rs, i) ==> u.newSlots[Primary(pl, rs[i])] == i)
  }

  /** The records of the new entries at the head of a stream. */
  function Records(s: seq<Token>, count: nat): (rs: seq<Record>)
    requires count <= |s| && forall i :: 0 <= i < count ==> s[i].Entry?
    ensures |rs| == count
  {
    seq(count, i requires 0 <= i < count => s[i].record)
  }

  lemma {:induction false} PushSpread(u: Tables, pl: Placement, rs: seq<Record>, r: Record)
    requires Spread(u, pl, rs) && |rs| !in u.mapInfo
    ensures Spread(PushNew(u, |rs|, r, pl, false), pl, rs + [r])
  {
    hide Placement.NewSlot, Placement.NewBucket;
    var n, v, qs := |rs|, PushNew(u, |rs|, r, pl, false), rs + [r];
    forall i | 0 <= i < n ensures IsFirst(pl, qs, i) <==> IsFirst(pl, rs, i) { SameFirst(pl, rs, r, i); }
    var s := Primary(pl, r);
    if s in u.newSlots {
      var m := u.newSlots[s];
      assert qs[m] == rs[m] && qs[n] == r;
      assert !IsFirst(pl, qs, n);
    } else {
      forall j | 0 <= j < n ensures Primary(pl, qs[j]) != Primary(pl, qs[n]) { assert SpreadAt(u, pl, rs, j); }
      assert IsFirst(pl, qs, n);
    }
    forall i | 0 <= i < |qs| ensures SpreadAt(v, pl, qs, i) { if i < n { assert SpreadAt(u, pl, rs, i); } }
  }

  lemma SameFirst(pl: Placement, rs: seq<Record>, r: Record, i: nat)
    requires i < |rs|
    ensures IsFirst(pl, rs + [r], i) <==> IsFirst(pl, rs, i)
  {
    hide Primary;
    assert forall j :: 0 <= j <= i ==> (rs + [r])[j] == rs[j];
  }

  // ---------------------------------------------------------------- reading such a file

  /** What is known of the tables while such a file is read: ids in order, and entries spread. */
  ghost predicate Midway(u: Tables, pl: Placement, rs: seq<Record>, ids: int) {
    RandomOk(u) && IdsBelow(u, ids) && |rs| <= ids && Spread(u, pl, rs)
  }

  lemma {:induction false} NewsSpread(u: Tables, s: seq<Token>, rs: seq<Record>, count: nat, pl: Placement)
    requires Midway(u, pl, rs, |rs|) && |rs| <= count
    ensures var r := ReadNews(u, s, |rs|, count, pl, false);
      r.Some? ==>
        && count - |rs| <= |s| && (forall i :: 0 <= i < count - |rs| ==> s[i].Entry?)
        && Midway(r.value.0, pl, rs + Records(s, count - |rs|), count)
        && r.value.1 == s[count - |rs|..]
        && r.value.0.nNew == u.nNew && r.value.0.nTried == u.nTried
    decreases |s|
  {
    hide Spread, RandomOk, IdsBelow, PushNew;
    if |rs| == count {
      assert rs + Records(s, 0) == rs;
      assert s[0..] == s;
    } else if s != [] && s[0].Entry? {
      var r := s[0].record;
      NotYet(u, |rs|);
      PushSpread(u, pl, rs, r);
      PushNewRandom(u, |rs|, r, pl, false);
      CountsKept(u, |rs|, r, pl);
      var v, rest := PushNew(u, |rs|, r, pl, false), s[1..];
      NewsSpread(v, rest, rs + [r], count, pl);
      var more := ReadNews(v, rest, |rs| + 1, count, pl, false);
      if more.Some? {
        var k := count - |rs|;
        forall i | 0 <= i < k ensures s[i].Entry? { if i > 0 { assert s[i] == rest[i - 1]; } }
        assert (rs + [r]) + Records(rest, k - 1) == rs + Records(s, k);
        assert rest[k - 1..] == s[k..];
      }
    }
  }

  lemma NotYet(u: Tables, n: nat)
    requires IdsBelow(u, n)
    ensures n !in u.mapInfo
  {
  }

  lemma CountsKept(u: Tables, n: nat, r: Record, pl: Placement)
    ensures var v := PushNew(u, n, r, pl, false); v.nNew == u.nNew && v.nTried == u.nTried
  {
  }

  lemma {:induction false} TriedsKeep(u: Tables, s: seq<Token>, n: int, count: int, pl: Placement, rs: seq<Record>)
    requires Midway(u, pl, rs, u.nIdCount)
    ensures var r := ReadTrieds(u, s, n, count, pl); r.Some? ==> Midway(r.value.0, pl, rs, r.value.0.nIdCount)
    decreases |s|
  {
    hide Spread, RandomOk, IdsBelow, PushTried;
    if n < count && s != [] && s[0].Entry? {
      var v := PushTried(u, s[0].record, pl);
      PushTriedRandom(u, s[0].record, pl);
      NotYet(u, u.nIdCount);
      TriedSpread(u, s[0].record, pl, rs);
      TriedsKeep(v, s[1..], n + 1, count, pl, rs);
    }
  }

  lemma TriedSpread(u: Tables, r: Record, pl: Placement, rs: seq<Record>)
    requires Spread(u, pl, rs) && u.nIdCount >= |rs| && u.nIdCount !in u.mapInfo
    ensures Spread(PushTried(u, r, pl), pl, rs)
  {
    hide Primary, IsFirst, Placement.TriedSlot;
    var v := PushTried(u, r, pl);
    forall i | 0 <= i < |rs| ensures SpreadAt(v, pl, rs, i) { assert SpreadAt(u, pl, rs, i); }
  }

  /** Without usable buckets the indices are read and passed over. */
  lemma {:induction false} BucketPassed(u: Tables, s: seq<Token>, b: nat, n: int, size: int, pl: Placement)
    ensures var r := ReadBucket(u, s, b, n, size, pl, false); r.Some? ==> r.value.0 == u
    decreases |s|
  {
    if n < size && s != [] && s[0].Num? {
      assert PutIndex(u, b, s[0].n, pl, false) == u;
      BucketPassed(u, s[1..], b, n + 1, size, pl);
    }
  }

  lemma {:induction false} BucketsPassed(u: Tables, s: seq<Token>, b: nat, count: int, pl: Placement)
    ensures var r := ReadBuckets(u, s, b, count, pl, false); r.Some? ==> r.value.0 == u
    decreases |s|
  {
    hide ReadBucket;
    if b < count && s != [] && s[0].Num? {
      BucketPassed(u, s[1..], b, 0, s[0].n, pl);
      ReadBucketShrinks(u, s[1..], b, 0, s[0].n, pl, false);
      var r := ReadBucket(u, s[1..], b, 0, s[0].n, pl, false);
      if r.Some? { BucketsPassed(u, r.value.1, b + 1, count, pl); }
    }
  }

  /** Whether an entry is thrown out at the end. */
  predicate Homeless(u: Tables, n: int) { n in u.mapInfo && !u.mapInfo[n].fInTried && u.mapInfo[n].nRefCount == 0 }

  /** Pruning throws out exactly the entries with no slot. */
  lemma {:induction false} PrunedExactly(u: Tables, n: int, top: int)
    requires RandomOk(u)
    ensures var v := Pruned(u, n, top);
      && v.newSlots == u.newSlots && v.triedSlots == u.triedSlots
      && (forall i :: i in v.mapInfo <==> i in u.mapInfo && !(n <= i < top && Homeless(u, i)))
      && (forall i :: i in v.mapInfo ==> SameEntry(v.mapInfo[i], u.mapInfo[i]))
    decreases top - n
  {
    hide RandomOk, AddrTables.Delete, CanDelete;
    if n < top {
      if Homeless(u, n) {
        DeleteRandom(u, n);
        DeletedOne(u, n);
        PrunedExactly(Delete(u, n), n + 1, top);
      } else {
        PrunedExactly(u, n + 1, top);
      }
    }
  }

  lemma DeletedOne(u: Tables, n: int)
    requires RandomOk(u) && n in u.mapInfo && CanDelete(u, n)
    ensures var v := Delete(u, n);
      && v.newSlots == u.newSlots && v.triedSlots == u.triedSlots
      && (forall i :: i in v.mapInfo <==> i in u.mapInfo && i != n)
      && (forall i :: i in v.mapInfo ==> SameEntry(v.mapInfo[i], u.mapInfo[i]))
  {
  }

  /** Whether the buckets written in a file are those of today. */
  predicate Usable(s: seq<Token>)
    requires |s| >= 6 && s[0].Num? && s[5].Num?
  {
    s[0].n == 1 && FlipBit30(s[5].n) == 1024
  }

  /**
   A file of another version or with another number of buckets. Its new entries, numbered in the
   order they are written, go to the slots their sources point at: the first at each slot is
   kept there, with no other slot, and the others are thrown out.
   */
  lemma {:induction false} OlderFile(net: Network, s: seq<Token>)
    requires Load(net, s).Some?
    ensures |s| >= 6 && s[0].Num? && s[2].KeyToken? && s[3].Num? && s[5].Num? && 0 <= s[3].n <= |s| - 6
    ensures forall i :: 0 <= i < s[3].n ==> s[6..][i].Entry?
    ensures !Usable(s) ==>
      var u, pl, rs := Load(net, s).value.0, Placement(net, s[2].key), Records(s[6..], s[3].n);
      && (forall i :: 0 <= i < s[3].n ==> (i in u.mapInfo <==> IsFirst(pl, rs, i)))
      && (forall i :: 0 <= i < s[3].n && i in u.mapInfo ==> !u.mapInfo[i].fInTried && u.mapInfo[i].nRefCount == 1 && u.mapInfo[i].service == rs[i].service)
      && (forall i :: 0 <= i < s[3].n && i in u.mapInfo ==> Primary(pl, rs[i]) in u.newSlots && u.newSlots[Primary(pl, rs[i])] == i)
      && (forall k :: k in u.newSlots ==> 0 <= u.newSlots[k] < s[3].n && k == Primary(pl, rs[u.newSlots[k]]))
  {
    hide ReadNews, ReadTrieds, ReadBuckets, Pruned, Spread, RandomOk, IdsBelow, FlipBit30, Primary, IsFirst, Records;
    var nNew := s[3].n;
    var pl := Placement(net, s[2].key);
    EntriesFirst(EMPTY.(nNew := nNew, nTried := s[4].n), s[6..], 0, nNew, pl, Usable(s));
    if !Usable(s) {
      var start := EMPTY.(nNew := nNew, nTried := s[4].n);
      StartSpread(start, pl);
      NewsSpread(start, s[6..], [], nNew, pl);
      var rs := Records(s[6..], nNew);
      assert [] + rs == rs;
      var r1 := ReadNews(start, s[6..], 0, nNew, pl, false).value;
      var u1 := r1.0.(nIdCount := nNew);
      Aside(r1.0, nNew, pl, rs);
      TriedsKeep(u1, r1.1, 0, s[4].n, pl, rs);
      var r2 := ReadTrieds(u1, r1.1, 0, s[4].n, pl).value;
      BucketsPassed(r2.0, r2.1, 0, if s[0].n != 0 then FlipBit30(s[5].n) else s[5].n, pl);
      PrunedExactly(r2.0, 0, r2.0.nIdCount);
      Settled(r2.0, Pruned(r2.0, 0, r2.0.nIdCount), pl, rs);
    }
  }

  lemma StartSpread(u: Tables, pl: Placement)
    requires u.mapInfo == map[] && u.vRandom == [] && u.newSlots == map[]
    ensures Midway(u, pl, [], 0)
  {
  }

  lemma Aside(u: Tables, n: int, pl: Placement, rs: seq<Record>)
    requires Midway(u, pl, rs, n)
    ensures Midway(u.(nIdCount := n), pl, rs, n)
  {
    hide Primary, IsFirst;
    var v := u.(nIdCount := n);
    forall i | i in v.mapInfo ensures RandomAt(v, i) { assert RandomAt(u, i); }
    forall i | 0 <= i < |rs| ensures SpreadAt(v, pl, rs, i) { assert SpreadAt(u, pl, rs, i); }
  }

  /** What is read as new entries are entries. */
  lemma {:induction false} EntriesFirst(u: Tables, s: seq<Token>, n: nat, count: nat, pl: Placement, usable: bool)
    requires n <= count && ReadNews(u, s, n, count, pl, usable).Some?
    ensures count - n <= |s| && forall i :: 0 <= i < count - n ==> s[i].Entry?
    decreases |s|
  {
    hide PushNew;
    if n < count {
      EntriesFirst(PushNew(u, n, s[0].record, pl, usable), s[1..], n + 1, count, pl, usable);
      forall i | 0 <= i < count - n ensures s[i].Entry? { if i > 0 { assert s[i] == s[1..][i - 1]; } }
    }
  }

  lemma Settled(u: Tables, v: Tables, pl: Placement, rs: seq<Record>)
    requires Midway(u, pl, rs, u.nIdCount) && v.newSlots == u.newSlots
    requires forall i :: i in v.mapInfo <==> i in u.mapInfo && !(0 <= i < u.nIdCount && Homeless(u, i))
    requires forall i :: i in v.mapInfo ==> SameEntry(v.mapInfo[i], u.mapInfo[i])
    ensures forall i :: 0 <= i < |rs| ==> (i in v.mapInfo <==> IsFirst(pl, rs, i))
    ensures forall i :: 0 <= i < |rs| && i in v.mapInfo ==> !v.mapInfo[i].fInTried && v.mapInfo[i].nRefCount == 1 && v.mapInfo[i].service == rs[i].service
    ensures forall i :: 0 <= i < |rs| && i in v.mapInfo ==> Primary(pl, rs[i]) in v.newSlots && v.newSlots[Primary(pl, rs[i])] == i
    ensures forall k :: k in v.newSlots ==> 0 <= v.newSlots[k] < |rs| && k == Primary(pl, rs[v.newSlots[k]])
  {
    hide Primary, IsFirst, RandomOk;
    forall i | 0 <= i < |rs|
      ensures i in v.mapInfo <==> IsFirst(pl, rs, i)
      ensures i in v.mapInfo ==> !v.mapInfo[i].fInTried && v.mapInfo[i].nRefCount == 1 && v.mapInfo[i].service == rs[i].service
      ensures i in v.mapInfo ==> Primary(pl, rs[i]) in v.newSlots && v.newSlots[Primary(pl, rs[i])] == i
    {
      assert SpreadAt(u, pl, rs, i);
    }
  }

  /** The bucket count of the header differs from the number written in one bit of 32, and flipping that again gives the count back. */
  lemma FlippedBack(n: int)
    requires -0x8000_0000 <= n < 0x8000_0000
    ensures var f := FlipBit30(n); -0x8000_0000 <= f < 0x8000_0000 && (f == n + 0x4000_0000 || f == n - 0x4000_0000) && FlipBit30(f) == n
  {
    assert n / BIT30 in [-2, -1, 0, 1];
  }
}
