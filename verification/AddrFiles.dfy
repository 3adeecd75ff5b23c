/**
 Any file the address manager can be made to read, not only one it has written: what holds of
 the tables afterwards whatever was read, and exactly when the whole invariant does.
 */
module AddrFiles {
  import opened Common
  import opened AddrTables
  import opened AddrInvariant
  import opened AddrStore
  import opened AddrStoreLaws

  // ---------------------------------------------------------------- while reading

  /** `mapAddr` leads from each address to the last entry read with it. */
  ghost predicate Latest(u: Tables) {
    && (forall a :: a in u.mapAddr ==> u.mapAddr[a] in u.mapInfo && u.mapInfo[u.mapAddr[a]].service.ip == a)
    && (forall n :: n in u.mapInfo ==> LatestAt(u, n))
  }

  ghost predicate LatestAt(u: Tables, n: int)
    requires n in u.mapInfo
  {
    u.mapInfo[n].service.ip in u.mapAddr && n <= u.mapAddr[u.mapInfo[n].service.ip]
  }

  /** Ids below `m` are new, the others tried, and nothing read was tried since. */
  ghost predicate Split(u: Tables, m: int) {
    forall n :: n in u.mapInfo ==> (u.mapInfo[n].fInTried <==> n >= m) && u.mapInfo[n].nLastTry == 0
  }

  /** What holds of the `k` entries read so far. */
  ghost predicate ReadSoFar(u: Tables, pl: Placement, m: int, k: int) {
    RandomOk(u) && IdsBelow(u, k) && Placed(u, pl) && Latest(u) && Split(u, m) && u.nNew == m
  }

  lemma AddedPlaced(u: Tables, v: Tables, pl: Placement, n: int)
    requires Placed(u, pl) && n !in u.mapInfo && n in v.mapInfo && v.mapInfo == u.mapInfo[n := v.mapInfo[n]]
    requires v.newSlots == u.newSlots && v.mapInfo[n].nRefCount == 0
    requires var k := pl.TriedSlot(v.mapInfo[n].service);
      if v.mapInfo[n].fInTried then k !in u.triedSlots && v.triedSlots == u.triedSlots[k := n] else v.triedSlots == u.triedSlots
    ensures Placed(v, pl)
  {
    hide Placement.TriedSlot, Placement.NewSlot;
    forall k | k in v.triedSlots ensures TriedPlaced(v, pl, k) { if k in u.triedSlots { assert TriedPlaced(u, pl, k); } }
    forall s | s in v.newSlots ensures NewPlaced(v, pl, s) { assert NewPlaced(u, pl, s); }
    assert SlotsOf(v.newSlots, n) == {};
    forall i | i in v.mapInfo ensures EntryPlaced(v, pl, i) { if i != n { assert EntryPlaced(u, pl, i); } }
  }

  lemma PushNewPlaced(u: Tables, n: int, r: Record, pl: Placement, usable: bool)
    requires Placed(u, pl) && n !in u.mapInfo
    ensures Placed(PushNew(u, n, r, pl, usable), pl)
  {
    var v := u.(mapInfo := u.mapInfo[n := Restored(r).(nRandomPos := |u.vRandom|)], mapAddr := u.mapAddr[r.service.ip := n], vRandom := u.vRandom + [n]);
    var s := pl.NewSlot(r.service, pl.NewBucket(r.service, r.source));
    AddedPlaced(u, v, pl, n);
    if !usable && s !in v.newSlots {
      AttachPlaced(v, pl, n, s);
      assert Attach(v, n, s) == PushNew(u, n, r, pl, usable);
    }
  }

  lemma PushTriedPlaced(u: Tables, r: Record, pl: Placement)
    requires Placed(u, pl) && u.nIdCount !in u.mapInfo
    ensures Placed(PushTried(u, r, pl), pl)
  {
    hide Placement.TriedSlot, Placement.NewSlot;
    if pl.TriedSlot(r.service) !in u.triedSlots { AddedPlaced(u, PushTried(u, r, pl), pl, u.nIdCount); }
  }

  lemma PutIndexPlaced(u: Tables, b: nat, n: int, pl: Placement, usable: bool, m: int)
    requires Placed(u, pl) && Split(u, m) && u.nNew == m && (usable ==> b < NEW_BUCKET_COUNT)
    ensures Placed(PutIndex(u, b, n, pl, usable), pl)
  {
    if PutIndex(u, b, n, pl, usable) != u {
      var s := pl.NewSlot(u.mapInfo[n].service, b);
      AttachPlaced(u, pl, n, s);
      assert Attach(u, n, s) == PutIndex(u, b, n, pl, usable);
    }
  }

  lemma AddedLatest(u: Tables, v: Tables, n: int)
    requires Latest(u) && IdsBelow(u, n) && n in v.mapInfo && v.mapInfo == u.mapInfo[n := v.mapInfo[n]]
    requires v.mapAddr == u.mapAddr[v.mapInfo[n].service.ip := n]
    ensures Latest(v)
  {
    forall i | i in v.mapInfo ensures LatestAt(v, i) { if i != n { assert LatestAt(u, i); } }
  }

  lemma SameLatest(u: Tables, v: Tables)
    requires Latest(u) && v.mapInfo == u.mapInfo && v.mapAddr == u.mapAddr
    ensures Latest(v)
  {
    forall i | i in v.mapInfo ensures LatestAt(v, i) { assert LatestAt(u, i); }
  }

  lemma SamePlaced(u: Tables, v: Tables, pl: Placement)
    requires Placed(u, pl) && v.mapInfo == u.mapInfo && v.newSlots == u.newSlots && v.triedSlots == u.triedSlots
    ensures Placed(v, pl)
  {
    hide Placement.TriedSlot, Placement.NewSlot;
    forall k | k in v.triedSlots ensures TriedPlaced(v, pl, k) { assert TriedPlaced(u, pl, k); }
    forall s | s in v.newSlots ensures NewPlaced(v, pl, s) { assert NewPlaced(u, pl, s); }
    forall i | i in v.mapInfo ensures EntryPlaced(v, pl, i) { assert EntryPlaced(u, pl, i); }
  }

  lemma PushNewReads(u: Tables, n: nat, r: Record, pl: Placement, usable: bool, m: int)
    requires ReadSoFar(u, pl, m, n) && n < m
    ensures ReadSoFar(PushNew(u, n, r, pl, usable), pl, m, n + 1)
  {
    hide RandomOk, Placed, Latest, Placement.NewSlot;
    var v := PushNew(u, n, r, pl, usable);
    PushNewRandom(u, n, r, pl, usable);
    PushNewPlaced(u, n, r, pl, usable);
    AddedLatest(u, v, n);
  }

  lemma PushTriedReads(u: Tables, r: Record, pl: Placement, m: nat)
    requires ReadSoFar(u, pl, m, u.nIdCount) && u.nIdCount >= m
    ensures var v := PushTried(u, r, pl); ReadSoFar(v, pl, m, v.nIdCount) && v.nIdCount >= m
    ensures PushTried(u, r, pl).nTried - PushTried(u, r, pl).nIdCount == u.nTried - u.nIdCount - 1
  {
    hide RandomOk, Placed, Latest, Placement.TriedSlot;
    var v := PushTried(u, r, pl);
    PushTriedRandom(u, r, pl);
    PushTriedPlaced(u, r, pl);
    if v.nIdCount > u.nIdCount { AddedLatest(u, v, u.nIdCount); } else { SameLatest(u, v); }
  }

  lemma PutIndexReads(u: Tables, b: nat, n: int, pl: Placement, usable: bool, m: int)
    requires ReadSoFar(u, pl, m, u.nIdCount) && (usable ==> b < NEW_BUCKET_COUNT)
    ensures var v := PutIndex(u, b, n, pl, usable); ReadSoFar(v, pl, m, u.nIdCount) && v.nIdCount == u.nIdCount && v.nTried == u.nTried
  {
    hide RandomOk, Placed, Placement.NewSlot;
    var v := PutIndex(u, b, n, pl, usable);
    PutIndexRandom(u, b, n, pl, usable);
    PutIndexPlaced(u, b, n, pl, usable, m);
    forall i | i in v.mapInfo ensures LatestAt(v, i) { assert LatestAt(u, i); }
  }

  lemma {:induction false} NewsRead(u: Tables, s: seq<Token>, n: nat, pl: Placement, usable: bool, m: nat)
    requires ReadSoFar(u, pl, m, n) && n <= m
    ensures var r := ReadNews(u, s, n, m, pl, usable); r.Some? ==> ReadSoFar(r.value.0, pl, m, m) && r.value.0.nTried == u.nTried
    decreases |s|
  {
    hide ReadSoFar, PushNew;
    if n < m && s != [] && s[0].Entry? {
      PushNewReads(u, n, s[0].record, pl, usable, m);
      SameTried(u, n, s[0].record, pl, usable);
      NewsRead(PushNew(u, n, s[0].record, pl, usable), s[1..], n + 1, pl, usable, m);
    }
  }

  lemma SameTried(u: Tables, n: int, r: Record, pl: Placement, usable: bool)
    ensures PushNew(u, n, r, pl, usable).nTried == u.nTried
  {
  }

  lemma {:induction false} TriedsRead(u: Tables, s: seq<Token>, n: int, count: int, pl: Placement, m: nat)
    requires ReadSoFar(u, pl, m, u.nIdCount) && u.nIdCount >= m
    ensures var r := ReadTrieds(u, s, n, count, pl);
      r.Some? ==>
        && ReadSoFar(r.value.0, pl, m, r.value.0.nIdCount) && r.value.0.nIdCount >= m
        && r.value.0.nTried - r.value.0.nIdCount == u.nTried - u.nIdCount - (if n < count then count - n else 0)
    decreases |s|
  {
    hide ReadSoFar, PushTried;
    if n < count && s != [] && s[0].Entry? {
      PushTriedReads(u, s[0].record, pl, m);
      TriedsRead(PushTried(u, s[0].record, pl), s[1..], n + 1, count, pl, m);
    }
  }

  lemma {:induction false} BucketRead(u: Tables, s: seq<Token>, b: nat, n: int, size: int, pl: Placement, usable: bool, m: int)
    requires ReadSoFar(u, pl, m, u.nIdCount) && (usable ==> b < NEW_BUCKET_COUNT)
    ensures var r := ReadBucket(u, s, b, n, size, pl, usable);
      r.Some? ==> ReadSoFar(r.value.0, pl, m, u.nIdCount) && r.value.0.nIdCount == u.nIdCount && r.value.0.nTried == u.nTried
    decreases |s|
  {
    hide ReadSoFar, PutIndex;
    if n < size && s != [] && s[0].Num? {
      PutIndexReads(u, b, s[0].n, pl, usable, m);
      BucketRead(PutIndex(u, b, s[0].n, pl, usable), s[1..], b, n + 1, size, pl, usable, m);
    }
  }

  lemma {:induction false} BucketsRead(u: Tables, s: seq<Token>, b: nat, count: int, pl: Placement, usable: bool, m: int)
    requires ReadSoFar(u, pl, m, u.nIdCount) && (usable ==> count <= NEW_BUCKET_COUNT)
    ensures var r := ReadBuckets(u, s, b, count, pl, usable);
      r.Some? ==> ReadSoFar(r.value.0, pl, m, u.nIdCount) && r.value.0.nIdCount == u.nIdCount && r.value.0.nTried == u.nTried
    decreases |s|
  {
    hide ReadSoFar, ReadBucket;
    if b < count && s != [] && s[0].Num? {
      BucketRead(u, s[1..], b, 0, s[0].n, pl, usable, m);
      ReadBucketShrinks(u, s[1..], b, 0, s[0].n, pl, usable);
      var r := ReadBucket(u, s[1..], b, 0, s[0].n, pl, usable);
      if r.Some? { BucketsRead(r.value.0, r.value.1, b + 1, count, pl, usable, m); }
    }
  }

  // ---------------------------------------------------------------- throwing out

  /** Pruning forgets the address of each entry thrown out, wherever that leads, and counts the entry down. */
  lemma {:induction false} PrunedAddresses(u: Tables, n: int, top: int)
    requires RandomOk(u)
    ensures var v := Pruned(u, n, top);
      && (forall a :: a in v.mapAddr <==> a in u.mapAddr && !exists i :: n <= i < top && Homeless(u, i) && u.mapInfo[i].service.ip == a)
      && (forall a :: a in v.mapAddr ==> v.mapAddr[a] == u.mapAddr[a])
      && v.nNew - |NewIds(v)| == u.nNew - |NewIds(u)| && v.nTried == u.nTried && TriedIds(v) == TriedIds(u) && v.nIdCount == u.nIdCount
      && RandomOk(v)
    decreases top - n
  {
    hide RandomOk, AddrTables.Delete, CanDelete, NewIds, TriedIds;
    if n < top {
      if Homeless(u, n) {
        DeleteRandom(u, n);
        DeletedOne(u, n);
        DeletedAddress(u, n);
        var v := Delete(u, n);
        PrunedAddresses(v, n + 1, top);
        forall i ensures n <= i < top && Homeless(u, i) <==> i == n || (n + 1 <= i < top && Homeless(v, i)) {}
      } else {
        PrunedAddresses(u, n + 1, top);
        forall i ensures n <= i < top && Homeless(u, i) <==> n + 1 <= i < top && Homeless(u, i) {}
      }
    }
  }

  lemma DeletedAddress(u: Tables, n: int)
    requires RandomOk(u) && Homeless(u, n) && CanDelete(u, n)
    ensures var v := Delete(u, n);
      && v.mapAddr == u.mapAddr - {u.mapInfo[n].service.ip}
      && v.nNew - |NewIds(v)| == u.nNew - |NewIds(u)| && v.nTried == u.nTried && TriedIds(v) == TriedIds(u) && v.nIdCount == u.nIdCount
  {
    var v := Delete(u, n);
    DeletedOne(u, n);
    assert NewIds(v) == NewIds(u) - {n};
    assert TriedIds(v) == TriedIds(u);
  }

  lemma PrunedPlaced(u: Tables, v: Tables, pl: Placement)
    requires Placed(u, pl) && v.newSlots == u.newSlots && v.triedSlots == u.triedSlots
    requires forall i :: i in v.mapInfo <==> i in u.mapInfo && !Homeless(u, i)
    requires forall i :: i in v.mapInfo ==> SameEntry(v.mapInfo[i], u.mapInfo[i])
    ensures Placed(v, pl) && Orphans(v) == {}
  {
    hide Placement.TriedSlot, Placement.NewSlot;
    forall k | k in v.triedSlots ensures TriedPlaced(v, pl, k) { assert TriedPlaced(u, pl, k); }
    forall s | s in v.newSlots ensures NewPlaced(v, pl, s) {
      assert NewPlaced(u, pl, s) && EntryPlaced(u, pl, u.newSlots[s]);
      assert s in SlotsOf(u.newSlots, u.newSlots[s]);
    }
    forall i | i in v.mapInfo ensures EntryPlaced(v, pl, i) { assert EntryPlaced(u, pl, i); }
    forall i ensures i !in Orphans(v) { assert i in v.mapInfo ==> !Homeless(u, i); }
  }

  /** No entry read, kept or not, has the address of another one that was kept. */
  ghost predicate Unshared(e: Tables, u: Tables) {
    forall i, j :: i in u.mapInfo && i in e.mapInfo && j in e.mapInfo && i != j ==> e.mapInfo[i].service.ip != e.mapInfo[j].service.ip
  }

  lemma PrunedIndexed(e: Tables, u: Tables)
    requires IdsBelow(e, e.nIdCount) && e.nIdCount >= 0 && Latest(e) && RandomOk(u) && u.nIdCount == e.nIdCount
    requires forall i :: i in u.mapInfo <==> i in e.mapInfo && !Homeless(e, i)
    requires forall i :: i in u.mapInfo ==> SameEntry(u.mapInfo[i], e.mapInfo[i])
    requires forall a :: a in u.mapAddr <==> a in e.mapAddr && !exists i :: 0 <= i < e.nIdCount && Homeless(e, i) && e.mapInfo[i].service.ip == a
    requires forall a :: a in u.mapAddr ==> u.mapAddr[a] == e.mapAddr[a]
    ensures Indexed(u) <==> Unshared(e, u)
  {
    if Unshared(e, u) {
      forall n | n in u.mapInfo ensures EntryIndexed(u, n) {
        assert RandomAt(u, n) && LatestAt(e, n);
        var a := u.mapInfo[n].service.ip;
        assert e.mapAddr[a] == n;
      }
      forall a | a in u.mapAddr ensures u.mapAddr[a] in u.mapInfo && u.mapInfo[u.mapAddr[a]].service.ip == a {
        var n := e.mapAddr[a];
        assert n in e.mapInfo && e.mapInfo[n].service.ip == a;
      }
    }
    if Indexed(u) {
      forall i, j | i in u.mapInfo && i in e.mapInfo && j in e.mapInfo && i != j ensures e.mapInfo[i].service.ip != e.mapInfo[j].service.ip {
        assert EntryIndexed(u, i);
        if j in u.mapInfo { assert EntryIndexed(u, j); } else { assert Homeless(e, j); }
      }
    }
  }

  // ---------------------------------------------------------------- any file

  /** What is entered from a file, before entries with no slot are thrown out. */
  function Entered(net: Network, s: seq<Token>): Tables
    requires Load(net, s).Some?
  {
    var start := EMPTY.(nNew := s[3].n, nTried := s[4].n);
    Enter(start, s[6..], if s[0].n != 0 then FlipBit30(s[5].n) else s[5].n, Placement(net, s[2].key), Usable(s)).value.0
  }

  lemma EnteredReads(net: Network, s: seq<Token>)
    requires Load(net, s).Some?
    ensures var e, pl, m := Entered(net, s), Placement(net, s[2].key), s[3].n;
      && ReadSoFar(e, pl, m, e.nIdCount) && e.nIdCount >= m >= 0
      && e.nTried - (e.nIdCount - m) == (if s[4].n < 0 then s[4].n else 0)
      && Load(net, s).value.0 == Pruned(e, 0, e.nIdCount)
  {
    hide ReadNews, ReadTrieds, ReadBuckets, Pruned, ReadSoFar, FlipBit30;
    var m, pl, usable := s[3].n, Placement(net, s[2].key), Usable(s);
    var start := EMPTY.(nNew := m, nTried := s[4].n);
    StartReads(start, pl);
    NewsRead(start, s[6..], 0, pl, usable, m);
    var r1 := ReadNews(start, s[6..], 0, m, pl, usable).value;
    var u1 := r1.0.(nIdCount := m);
    CountedAside(r1.0, pl, m);
    TriedsRead(u1, r1.1, 0, s[4].n, pl, m);
    var r2 := ReadTrieds(u1, r1.1, 0, s[4].n, pl).value;
    BucketsRead(r2.0, r2.1, 0, if s[0].n != 0 then FlipBit30(s[5].n) else s[5].n, pl, usable, m);
  }

  lemma StartReads(u: Tables, pl: Placement)
    requires u == EMPTY.(nNew := u.nNew, nTried := u.nTried) && u.nNew >= 0
    ensures ReadSoFar(u, pl, u.nNew, 0)
  {
  }

  lemma CountedAside(u: Tables, pl: Placement, m: int)
    requires ReadSoFar(u, pl, m, m)
    ensures ReadSoFar(u.(nIdCount := m), pl, m, m)
  {
    hide Placed, Latest;
    var v := u.(nIdCount := m);
    SamePlaced(u, v, pl);
    SameLatest(u, v);
    forall i | i in v.mapInfo ensures RandomAt(v, i) { assert RandomAt(u, i); }
  }

  lemma {:induction false} RangeSize(s: set<int>, lo: int, hi: int)
    requires lo <= hi && forall i :: i in s <==> lo <= i < hi
    ensures |s| == hi - lo
    decreases hi - lo
  {
    if lo == hi { assert forall i :: i !in s; } else { RangeSize(s - {hi - 1}, lo, hi - 1); }
  }

  lemma ReadCounts(e: Tables, m: int)
    requires IdsBelow(e, e.nIdCount) && Split(e, m) && 0 <= m <= e.nIdCount
    ensures |NewIds(e)| == m && |TriedIds(e)| == e.nIdCount - m
  {
    RangeSize(NewIds(e), 0, m);
    RangeSize(TriedIds(e), m, e.nIdCount);
  }

  /**
   Whatever file is read: every slot taken belongs to its occupant's own hash, every reference
   count is exact and at most eight, no entry is without a slot, and the entries at the front of
   the file are the new ones and the others tried.  The counters are exact if and only if the
   number of tried entries is not negative, and the address index is right if and only if no
   entry read, kept or not, has the address of another one that was kept.
   */
  lemma AnyFile(net: Network, s: seq<Token>)
    requires Load(net, s).Some?
    ensures var u, pl := Load(net, s).value.0, Placement(net, s[2].key);
      && Placed(u, pl) && Orphans(u) == {} && RandomOk(u)
      && (forall n :: n in u.mapInfo ==> n in Entered(net, s).mapInfo && SameEntry(u.mapInfo[n], Entered(net, s).mapInfo[n]))
      && (forall n :: n in u.mapInfo ==> (u.mapInfo[n].fInTried <==> n >= s[3].n) && u.mapInfo[n].nLastTry == 0)
      && (forall k :: k in u.newSlots ==> 0 <= u.newSlots[k] < s[3].n)
      && (Counted(u, 0) <==> s[4].n >= 0)
      && (Indexed(u) <==> Unshared(Entered(net, s), u))
  {
    hide LoadTables, Entered, Pruned, RandomOk, Latest, Indexed, Unshared, Placed, Placement.TriedSlot, Placement.NewSlot;
    EnteredReads(net, s);
    var u, pl, e := Load(net, s).value.0, Placement(net, s[2].key), Entered(net, s);
    hide Load;
    PrunedExactly(e, 0, e.nIdCount);
    PrunedAddresses(e, 0, e.nIdCount);
    PrunedPlaced(e, u, pl);
    PrunedIndexed(e, u);
    ReadCounts(e, s[3].n);
    forall k | k in u.newSlots ensures 0 <= u.newSlots[k] < s[3].n { OccupantIsNew(u, pl, k); }
  }

  lemma OccupantIsNew(u: Tables, pl: Placement, k: Slot)
    requires Placed(u, pl) && k in u.newSlots
    ensures u.newSlots[k] in u.mapInfo && !u.mapInfo[u.newSlots[k]].fInTried
  {
    hide Placement.TriedSlot, Placement.NewSlot;
    assert NewPlaced(u, pl, k);
  }

  /**
   A file gives a consistent manager if and only if its number of tried entries is not negative,
   no entry read, kept or not, has the address of another one that was kept, and of those kept no
   new one has a negative time of success and no tried one a time of success that is not positive.
   */
  lemma AnyFileConsistent(net: Network, s: seq<Token>)
    requires Load(net, s).Some?
    ensures var u, pl, e := Load(net, s).value.0, Placement(net, s[2].key), Entered(net, s);
      Consistent(u, pl) <==>
        && s[4].n >= 0 && Unshared(e, u)
        && forall n :: n in u.mapInfo && n in e.mapInfo ==> e.mapInfo[n].nLastSuccess >= if n < s[3].n then 0 else 1
  {
    hide LoadTables, Entered, Placed, Indexed, Unshared, RandomOk, Counted, Orphans;
    AnyFile(net, s);
  }
}
