/**
 The address manager itself: an object whose methods edit the tables in place.
 Each method is proved to do to the tables what AddrTables.dfy says.
 */
module AddrMan {
  import opened AddrTables
  import opened AddrInvariant
  import opened AddrRuns

  /** The occupied slots of a bucket table; -1 marks a free slot. */
  ghost function Occupied(a: array2<int>): map<Slot, int>
    reads a
  {
    map b: nat, p: nat | b < a.Length0 && p < a.Length1 && a[b, p] != -1 :: Slot(b, p) := a[b, p]
  }

  /** Write one slot. */
  method Put(a: array2<int>, b: nat, p: nat, v: int)
    requires b < a.Length0 && p < a.Length1
    modifies a
    ensures a[b, p] == v
    ensures Occupied(a) == if v == -1 then old(Occupied(a)) - {Slot(b, p)} else old(Occupied(a))[Slot(b, p) := v]
  {
    a[b, p] := v;
  }

  /** Reading a slot is looking it up among the occupied ones. */
  lemma OccupiedAt(a: array2<int>, b: nat, p: nat)
    requires b < a.Length0 && p < a.Length1
    ensures Slot(b, p) in Occupied(a) <==> a[b, p] != -1
    ensures a[b, p] != -1 ==> Occupied(a)[Slot(b, p)] == a[b, p]
  {
  }

  lemma OccupiedRange(a: array2<int>)
    ensures forall s :: s in Occupied(a) ==> s.bucket < a.Length0 && s.pos < a.Length1
  {
  }

  class AddrMan {
    const net: Network
    var nKey: Key
    var nIdCount: int
    var mapInfo: map<int, AddrInfo>
    var mapAddr: map<NetAddr, int>
    var vRandom: seq<int>
    var nTried: int
    const vvTried: array2<int>
    var nNew: int
    const vvNew: array2<int>

    ghost predicate Shaped() {
      && vvNew.Length0 == NEW_BUCKET_COUNT && vvNew.Length1 == BUCKET_SIZE
      && vvTried.Length0 == TRIED_BUCKET_COUNT && vvTried.Length1 == BUCKET_SIZE
      && vvNew != vvTried
    }

    ghost function View(): Tables
      reads this, vvNew, vvTried
    {
      Tables(nIdCount, mapInfo, mapAddr, vRandom, nTried, Occupied(vvTried), nNew, Occupied(vvNew))
    }

    function Pl(): Placement
      reads this`nKey
    {
      Placement(net, nKey)
    }

    ghost predicate Valid()
      reads this, vvNew, vvTried
    {
      Shaped() && Consistent(View(), Pl())
    }

    constructor (net: Network, key: Key)
      ensures Valid() && View() == EMPTY && Pl() == Placement(net, key)
      ensures nIdCount == 0 && mapInfo == map[] && mapAddr == map[] && vRandom == [] && nTried == 0 && nNew == 0
      ensures vvNew.Length0 == 1024 && vvTried.Length0 == 256 && vvNew.Length1 == vvTried.Length1 == 64
      ensures fresh(vvNew) && fresh(vvTried)
    {
      this.net := net;
      nKey := key;
      nIdCount := 0;
      mapInfo := map[];
      mapAddr := map[];
      vRandom := [];
      nTried := 0;
      nNew := 0;
      vvNew := new int[NEW_BUCKET_COUNT, BUCKET_SIZE]((_, _) => -1);
      vvTried := new int[TRIED_BUCKET_COUNT, BUCKET_SIZE]((_, _) => -1);
      new;
      assert Occupied(vvNew) == map[] && Occupied(vvTried) == map[];
      assert View() == EMPTY;
      ghost var start := Run(Pl(), []);
    }

    method Create(addr: Address, source: NetAddr) returns (id: int)
      modifies this`nIdCount, this`mapInfo, this`mapAddr, this`vRandom
      ensures View() == AddrTables.Create(old(View()), addr, source) && id == old(nIdCount)
    {
      id := nIdCount;
      nIdCount := nIdCount + 1;
      mapInfo := mapInfo[id := NewInfo(addr, source)];
      mapAddr := mapAddr[addr.service.ip := id];
      mapInfo := mapInfo[id := mapInfo[id].(nRandomPos := |vRandom|)];
      vRandom := vRandom + [id];
      assert mapInfo == AddrTables.Create(old(View()), addr, source).mapInfo;
    }

    method SwapRandom(p1: int, p2: int)
      requires CanSwap(View(), p1, p2)
      modifies this`mapInfo, this`vRandom
      ensures View() == AddrTables.SwapRandom(old(View()), p1, p2)
    {
      if p1 == p2 { return; }
      var id1, id2 := vRandom[p1], vRandom[p2];
      mapInfo := mapInfo[id1 := mapInfo[id1].(nRandomPos := p2)];
      mapInfo := mapInfo[id2 := mapInfo[id2].(nRandomPos := p1)];
      vRandom := vRandom[p1 := id2];
      vRandom := vRandom[p2 := id1];
    }

    method Delete(id: int)
      requires CanDelete(View(), id)
      requires !mapInfo[id].fInTried && mapInfo[id].nRefCount == 0
      modifies this`mapInfo, this`mapAddr, this`vRandom, this`nNew
      ensures View() == AddrTables.Delete(old(View()), id)
    {
      var info := mapInfo[id];
      SwapRandom(info.nRandomPos, |vRandom| - 1);
      vRandom := vRandom[..|vRandom| - 1];
      mapAddr := mapAddr - {info.service.ip};
      mapInfo := mapInfo - {id};
      nNew := nNew - 1;
    }

    /** Empty a new slot, deleting its occupant when that was the occupant's last slot. */
    method ClearNew(b: nat, p: nat, ghost off: int)
      requires Shaped() && Loose(View(), Pl(), off) && b < NEW_BUCKET_COUNT && p < BUCKET_SIZE
      modifies this`mapInfo, this`mapAddr, this`vRandom, this`nNew, vvNew
      ensures CanClear(old(View()), Slot(b, p)) && View() == AddrTables.ClearNew(old(View()), Slot(b, p))
      ensures vvNew[b, p] == -1
    {
      hide Indexed, Placed, Counted, Occupied;
      ghost var t := View();
      ghost var s := Slot(b, p);
      ClearNewLoose(t, Pl(), off, s);
      OccupiedAt(vvNew, b, p);
      if vvNew[b, p] != -1 {
        var id := vvNew[b, p];
        ReleaseLoose(t, Pl(), off, s);
        assert mapInfo[id].nRefCount > 0;
        mapInfo := mapInfo[id := mapInfo[id].(nRefCount := mapInfo[id].nRefCount - 1)];
        Put(vvNew, b, p, -1);
        assert View() == Release(t, s);
        if mapInfo[id].nRefCount == 0 {
          Delete(id);
        }
      }
    }

    /** Take an entry out of one new bucket, if it is there. */
    method LeaveBucket(id: int, bucket: nat)
      requires Shaped() && id in mapInfo && id >= 0 && bucket < NEW_BUCKET_COUNT
      modifies this`mapInfo, vvNew
      ensures LeftBucket(id, Pl().NewSlot(old(mapInfo)[id].service, bucket), old(mapInfo), old(Occupied(vvNew)), mapInfo, Occupied(vvNew))
    {
      hide Occupied;
      var pos := Pl().BucketPosition(true, bucket, mapInfo[id].service);
      OccupiedAt(vvNew, bucket, pos);
      if vvNew[bucket, pos] == id {
        Put(vvNew, bucket, pos, -1);
        mapInfo := mapInfo[id := mapInfo[id].(nRefCount := mapInfo[id].nRefCount - 1)];
      }
    }

    /** Take an entry out of all new buckets, as the first part of promoting it. */
    method LeaveNewBuckets(id: int)
      requires Shaped() && id in mapInfo && id >= 0
      modifies this`mapInfo, this`nNew, vvNew
      ensures View() == Unlisted(old(View()), Pl(), id)
    {
      hide Occupied, LeftBucket, Swept, OwnSlots;
      ghost var t := View();
      OccupiedRange(vvNew);
      SweptStart(t, Pl(), id);
      for bucket := 0 to NEW_BUCKET_COUNT
        invariant Swept(t, Pl(), id, bucket, mapInfo, Occupied(vvNew)) && nNew == t.nNew
      {
        SweptFacts(t, Pl(), id, bucket, mapInfo, Occupied(vvNew));
        ghost var before, slots := mapInfo, Occupied(vvNew);
        LeaveBucket(id, bucket);
        SweptStep(t, Pl(), id, bucket, before, slots, mapInfo, Occupied(vvNew));
      }
      SweptEnd(t, Pl(), id, mapInfo, Occupied(vvNew));
      nNew := nNew - 1;
    }

    /** Move an entry from the new table to its slot in the tried table. */
    method MakeTried(id: int)
      requires Shaped() && Loose(View(), Pl(), 0) && id in mapInfo && id >= 0 && !mapInfo[id].fInTried
      modifies this, vvNew, vvTried
      ensures CanPromote(old(View()), Pl(), id) && View() == AddrTables.MakeTried(old(View()), Pl(), id)
      ensures nKey == old(nKey)
    {
      hide Indexed, Placed, Counted, Occupied, OwnSlots, Orphans, Displaced, Placement.TriedBucket, Placement.BucketPosition;
      ghost var t := View();
      MakeTriedLoose(t, Pl(), id);
      DetachLoose(t, Pl(), 0, id);
      Recount(Detach(t, Pl(), id), Pl(), 0, -1);
      LeaveNewBuckets(id);
      ghost var w := View();
      assert mapInfo[id].nRefCount == 0;

      var service := mapInfo[id].service;
      var b := Pl().TriedBucket(service);
      var p := Pl().BucketPosition(false, b, service);
      OccupiedAt(vvTried, b, p);
      EvictLoose(w, Pl(), 1, Slot(b, p));
      if vvTried[b, p] != -1 {
        Vacate(b, p, 1);
      }
      assert vvTried[b, p] == -1;

      Put(vvTried, b, p, id);
      nTried := nTried + 1;
      mapInfo := mapInfo[id := mapInfo[id].(fInTried := true)];
    }

    /** Send the occupant of a tried slot back to the new table, clearing its slot there. */
    method Vacate(b: nat, p: nat, ghost off: int)
      requires Shaped() && Loose(View(), Pl(), off) && b < TRIED_BUCKET_COUNT && p < BUCKET_SIZE && vvTried[b, p] != -1
      modifies this, vvNew, vvTried
      ensures CanEvict(old(View()), Pl(), Slot(b, p)) && View() == Evict(old(View()), Pl(), Slot(b, p))
      ensures nKey == old(nKey) && vvTried[b, p] == -1
    {
      hide Indexed, Placed, Counted, Occupied;
      ghost var t := View();
      ghost var k := Slot(b, p);
      OccupiedAt(vvTried, b, p);
      EvictLoose(t, Pl(), off, k);
      UnseatLoose(t, Pl(), off, k);
      var out := vvTried[b, p];
      IdsAreNatural(t, out);
      mapInfo := mapInfo[out := mapInfo[out].(fInTried := false)];
      Put(vvTried, b, p, -1);
      nTried := nTried - 1;
      assert View() == Unseat(t, k);
      SendHome(out, off + 1);
    }

    /** Enter an entry that has no slot into the new table, clearing its home slot there. */
    method SendHome(out: int, ghost off: int)
      requires Shaped() && Loose(View(), Pl(), off) && out in Orphans(View()) && out >= 0
      modifies this`mapInfo, this`mapAddr, this`vRandom, this`nNew, vvNew
      ensures var home := HomeSlot(Pl(), old(mapInfo)[out]);
        && CanClear(old(View()), home)
        && var x := AddrTables.ClearNew(old(View()), home);
        && out in x.mapInfo && View() == Rehome(x, out, home)
    {
      hide Indexed, Placed, Counted, Occupied;
      var info := mapInfo[out];
      var nb := Pl().NewBucket(info.service, info.source);
      var np := Pl().BucketPosition(true, nb, info.service);
      ClearNewLoose(View(), Pl(), off, Slot(nb, np));
      ClearNew(nb, np, off);
      assert vvNew[nb, np] == -1;
      mapInfo := mapInfo[out := mapInfo[out].(nRefCount := 1)];
      Put(vvNew, nb, np, out);
      nNew := nNew + 1;
    }

    /** Report a successful connection. */
    method Good(service: Service, time: int, draw: nat)
      requires Valid()
      modifies this, vvNew, vvTried
      ensures CanGood(old(View()), Pl(), service, time) && View() == AddrTables.Good(old(View()), Pl(), service, time)
      ensures nKey == old(nKey)
      ensures time > 0 ==> Valid()
    {
      hide Indexed, Placed, Counted, Occupied, OwnSlots;
      ghost var t := View();
      GoodConsistent(t, Pl(), service, time);
      if service.ip !in mapAddr || mapAddr[service.ip] !in mapInfo { return; }
      var id := mapAddr[service.ip];
      if mapInfo[id].service != service { return; }
      mapInfo := mapInfo[id := mapInfo[id].(nLastSuccess := time, nLastTry := time, nAttempts := 0)];
      ghost var w := View();
      assert w == MarkGood(t, id, time);
      if mapInfo[id].fInTried { return; }
      TouchLoose(t, w, Pl(), 0, id);
      IdsAreNatural(w, id);
      var found := FindBucket(id, draw);
      NewEntryHasSlot(w, Pl(), id);
      assert found;
      MakeTried(id);
    }

    /** Look for a new bucket holding an entry, starting at a random one. */
    method FindBucket(id: int, draw: nat) returns (found: bool)
      requires Shaped() && id in mapInfo && id >= 0
      ensures found <==> OwnSlots(View(), Pl(), id) != {}
    {
      hide Occupied;
      ghost var t := View();
      OccupiedRange(vvNew);
      ghost var own := OwnSlots(t, Pl(), id);
      var start := draw % NEW_BUCKET_COUNT;
      for n := 0 to NEW_BUCKET_COUNT
        invariant forall s :: s in own ==> (s.bucket - start) % NEW_BUCKET_COUNT >= n
      {
        var b := (n + start) % NEW_BUCKET_COUNT;
        var p := Pl().BucketPosition(true, b, mapInfo[id].service);
        OccupiedAt(vvNew, b, p);
        if vvNew[b, p] == id {
          assert Slot(b, p) in own;
          return true;
        }
        forall s | s in own ensures (s.bucket - start) % NEW_BUCKET_COUNT != n {
          assert s != Slot(b, p);
          OwnAt(t, Pl(), id, b);
          RingIndex(s.bucket, start, n);
        }
      }
      return false;
    }

    /** Hear of an address from a peer; answers whether it had no entry before. */
    method Add(addr: Address, source: NetAddr, penalty: int, now: int, draw: nat) returns (fNew: bool)
      requires Valid()
      modifies this, vvNew
      ensures CanAdd(old(View()), Pl(), addr, source, penalty, now, draw)
      ensures View() == AddrTables.Add(old(View()), Pl(), addr, source, penalty, now, draw)
      ensures fNew == AddReports(old(View()), Pl(), addr)
      ensures Valid() && nKey == old(nKey)
    {
      hide Indexed, Placed, Counted, Occupied;
      ghost var t := View();
      AddConsistent(t, Pl(), addr, source, penalty, now, draw);
      if !net.routable(addr.service.ip) { return false; }
      RegisteredLoose(t, Pl(), addr, source, penalty, now);
      var id, stop;
      id, fNew, stop := Register(addr, source, penalty, now, draw);
      if stop { return; }
      KnownIsFound(t);
      RefCountBound(View(), Pl(), id);
      IdsAreNatural(View(), id);
      GiveSlot(id, source, now);
    }

    /** How much harder each further slot is to get. */
    method Doubled(n: nat) returns (factor: nat)
      ensures factor == Pow2(n) && (factor > 1 <==> n > 0)
    {
      factor := 1;
      for i := 0 to n
        invariant factor == Pow2(i) && (factor > 1 <==> i > 0)
      {
        factor := factor * 2;
      }
    }

    /** An entry's record after hearing its address again. */
    method Refresh(id: int, addr: Address, penalty: int, now: int) returns (info: AddrInfo)
      requires id in mapInfo
      modifies this`mapInfo
      ensures info == Refreshed(old(mapInfo)[id], addr, penalty, now) && mapInfo == old(mapInfo)[id := info]
    {
      hide Uint32, Max0;
      var interval := if now - addr.nTime < 24 * 60 * 60 then 60 * 60 else 24 * 60 * 60;
      info := mapInfo[id];
      if addr.nTime != 0 && (info.nTime == 0 || info.nTime < addr.nTime - interval - penalty) {
        info := info.(nTime := Uint32(Max0(addr.nTime - penalty)));
      }
      info := info.(nServices := info.nServices + addr.nServices);
      mapInfo := mapInfo[id := info];
    }

    /** The first half of hearing of an address: refresh its entry or create one. */
    method Register(addr: Address, source: NetAddr, penalty: int, now: int, draw: nat)
      returns (id: int, fNew: bool, stop: bool)
      requires Valid()
      modifies this`nIdCount, this`mapInfo, this`mapAddr, this`vRandom, this`nNew
      ensures View() == Registered(old(View()), addr, source, penalty, now)
      ensures id == Target(old(View()), addr) && fNew == !Found(old(View()), addr.service.ip)
      ensures stop == Stops(old(View()), addr, penalty, now, draw)
    {
      hide Indexed, Counted, Occupied, Placed, Refreshed, Uint32;
      ghost var t := View();
      stop := false;
      if addr.service.ip in mapAddr && mapAddr[addr.service.ip] in mapInfo {
        id, fNew := mapAddr[addr.service.ip], false;
        var info := Refresh(id, addr, penalty, now);
        RefreshedKeepsPlace(t.mapInfo[id], addr, penalty, now);
        if addr.nTime == 0 || (info.nTime != 0 && addr.nTime <= info.nTime) { stop := true; return; }
        if info.fInTried { stop := true; return; }
        if info.nRefCount == NEW_BUCKETS_PER_ADDRESS { stop := true; return; }
        RefCountBound(t, Pl(), id);
        var factor := Doubled(info.nRefCount);
        stop := factor > 1 && draw % factor != 0;
      } else {
        id := Create(addr, source);
        mapInfo := mapInfo[id := mapInfo[id].(nTime := Uint32(Max0(mapInfo[id].nTime - penalty)))];
        nNew := nNew + 1;
        fNew := true;
      }
    }

    /** The second half: enter the entry into the new slot its source points at, or drop it. */
    method GiveSlot(id: int, source: NetAddr, now: int)
      requires Shaped() && Loose(View(), Pl(), 0) && id in mapInfo && id >= 0 && !mapInfo[id].fInTried
      requires mapInfo[id].nRefCount < NEW_BUCKETS_PER_ADDRESS
      modifies this`mapInfo, this`mapAddr, this`vRandom, this`nNew, vvNew
      ensures var s := TargetSlot(old(View()), Pl(), id, source);
        CanPlace(old(View()), id, s, now) && View() == Place(old(View()), id, s, now)
    {
      hide Indexed, Placed, Counted, Occupied, IsTerrible, Placement.NewBucket, Placement.BucketPosition;
      ghost var t := View();
      var b := Pl().NewBucket(mapInfo[id].service, source);
      var p := Pl().BucketPosition(true, b, mapInfo[id].service);
      ghost var s := Slot(b, p);
      PlaceLoose(t, Pl(), id, s, now);
      OccupiedAt(vvNew, b, p);
      if vvNew[b, p] != id {
        if vvNew[b, p] != -1 { ReleaseLoose(t, Pl(), 0, s); }
        var insert := vvNew[b, p] == -1;
        if !insert {
          var existing := mapInfo[vvNew[b, p]];
          insert := IsTerrible(existing, now) || (existing.nRefCount > 1 && mapInfo[id].nRefCount == 0);
        }
        assert insert == MayTake(t, id, s, now);
        if insert {
          ClearNew(b, p, 0);
          mapInfo := mapInfo[id := mapInfo[id].(nRefCount := mapInfo[id].nRefCount + 1)];
          Put(vvNew, b, p, id);
        } else if mapInfo[id].nRefCount == 0 {
          Delete(id);
        }
      }
    }

    /** Report a connection attempt. */
    method Attempt(service: Service, time: int)
      requires Valid()
      modifies this`mapInfo
      ensures View() == AddrTables.Attempt(old(View()), service, time)
      ensures time >= 0 ==> Valid()
    {
      hide Occupied, Consistent;
      ghost var t := View();
      if service.ip in mapAddr && mapAddr[service.ip] in mapInfo && mapInfo[mapAddr[service.ip]].service == service {
        var id := mapAddr[service.ip];
        mapInfo := mapInfo[id := mapInfo[id].(nLastTry := time, nAttempts := mapInfo[id].nAttempts + 1)];
      }
      AttemptConsistent(t, Pl(), service, time);
    }

    /** Report that a peer is connected. */
    method Connected(service: Service, time: int)
      requires Valid()
      modifies this`mapInfo
      ensures View() == AddrTables.Connected(old(View()), service, time)
      ensures Valid()
    {
      hide Occupied, Consistent;
      ghost var t := View();
      if service.ip in mapAddr && mapAddr[service.ip] in mapInfo && mapInfo[mapAddr[service.ip]].service == service {
        var id := mapAddr[service.ip];
        if time - mapInfo[id].nTime > 20 * 60 {
          mapInfo := mapInfo[id := mapInfo[id].(nTime := Uint32(time))];
        }
      }
      ConnectedConsistent(t, Pl(), service, time);
    }

    /**
     A random sample of the addresses worth passing on: at most 23 percent of them and at
     most 2500, no entry twice, none terrible; and when it falls short of that size, every
     entry that is not terrible is in it.
     */
    method GetAddr(now: int, draw: nat -> nat) returns (vAddr: seq<Address>, ghost ids: seq<int>)
      requires Valid()
      modifies this`mapInfo, this`vRandom
      ensures Valid() && SameIds(old(View()), View()) && Keeps(old(View()), View(), {})
      ensures |vAddr| == |ids| <= 2500 && 100 * |vAddr| <= 23 * |old(vRandom)|
      ensures forall i :: 0 <= i < |ids| ==> ids[i] in mapInfo && !IsTerrible(mapInfo[ids[i]], now)
      ensures forall i :: 0 <= i < |ids| ==>
        vAddr[i].service == mapInfo[ids[i]].service && vAddr[i].nServices == mapInfo[ids[i]].nServices && vAddr[i].nTime == mapInfo[ids[i]].nTime
      ensures forall i, j :: 0 <= i < j < |ids| ==> ids[i] != ids[j]
      ensures |vAddr| < 2500 && 100 * (|vAddr| + 1) <= 23 * |old(vRandom)| ==> forall n :: n in mapInfo && !IsTerrible(mapInfo[n], now) ==> n in ids
    {
      hide Consistent, Keeps, SameIds, Occupied, IsTerrible, SampledUpTo, AddrTables.SwapRandom;
      ghost var t := View();
      var nodes := GETADDR_MAX_PCT * |vRandom| / 100;
      if nodes > GETADDR_MAX { nodes := GETADDR_MAX; }
      vAddr, ids := [], [];
      var n := 0;
      NoneSampled(t, now);
      KeepsItself(t);
      while n < |vRandom|
        invariant 0 <= n <= |vRandom| == |t.vRandom|
        invariant Consistent(View(), Pl()) && SameIds(t, View()) && Keeps(t, View(), {})
        invariant |vAddr| == |ids| <= nodes
        invariant SampledUpTo(View(), n, vAddr, ids, now)
      {
        if |vAddr| >= nodes { break; }
        ghost var u := View();
        var pos := draw(n) % (|vRandom| - n) + n;
        SwapConsistent(u, Pl(), n, pos);
        SwapRandom(n, pos);
        KeepsOn(t, u, View());
        SampleSwapped(u, View(), n, pos, vAddr, ids, now);
        RandomListed(View(), Pl(), n);
        ghost var before := ids;
        if !IsTerrible(mapInfo[vRandom[n]], now) {
          ids := ids + [vRandom[n]];
          vAddr := vAddr + [AddressOf(mapInfo[vRandom[n]])];
        }
        SampleExtended(View(), n, vAddr, ids, before, now);
        n := n + 1;
      }
      SampledStated(View(), n, vAddr, ids, now);
      if n == |vRandom| { SampledAll(View(), Pl(), vAddr, ids, now); }
      SampleIs(|t.vRandom|, |vAddr|);
    }
  }

  function SampleSize(n: nat): nat {
    if GETADDR_MAX_PCT * n / 100 > GETADDR_MAX then GETADDR_MAX else GETADDR_MAX_PCT * n / 100
  }

  lemma SampleIs(n: nat, k: nat)
    ensures k <= SampleSize(n) <==> k <= 2500 && 100 * k <= 23 * n
    ensures k < SampleSize(n) <==> k < 2500 && 100 * (k + 1) <= 23 * n
  {
  }

  function AddressOf(info: AddrInfo): Address {
    Address(info.service, info.nServices, info.nTime)
  }

  ghost predicate PassedOn(t: Tables, n: int, a: Address, now: int) {
    n in t.mapInfo && a == AddressOf(t.mapInfo[n]) && !IsTerrible(t.mapInfo[n], now)
  }

  /** The sample holds exactly the entries among the first `n` of `vRandom` that are not terrible. */
  ghost predicate SampledUpTo(t: Tables, n: nat, vAddr: seq<Address>, ids: seq<int>, now: int)
    requires n <= |t.vRandom|
  {
    && |vAddr| == |ids|
    && (forall i :: 0 <= i < |ids| ==> PassedOn(t, ids[i], vAddr[i], now))
    && (forall i, j :: 0 <= i < j < |ids| ==> ids[i] != ids[j])
    && (forall i :: 0 <= i < |ids| ==> ids[i] in t.vRandom[..n])
    && (forall m :: 0 <= m < n && t.vRandom[m] in t.mapInfo && !IsTerrible(t.mapInfo[t.vRandom[m]], now) ==> t.vRandom[m] in ids)
  }

  lemma RandomListed(t: Tables, pl: Placement, n: nat)
    requires Consistent(t, pl) && n < |t.vRandom|
    ensures t.vRandom[n] in t.mapInfo && t.vRandom[n] !in t.vRandom[..n]
  {
  }

  lemma SampleSwapped(t: Tables, u: Tables, n: nat, pos: nat, vAddr: seq<Address>, ids: seq<int>, now: int)
    requires n <= pos < |t.vRandom| && CanSwap(t, n, pos) && u == AddrTables.SwapRandom(t, n, pos)
    requires SampledUpTo(t, n, vAddr, ids, now) && SameIds(t, u) && Keeps(t, u, {})
    ensures |u.vRandom| == |t.vRandom| && SampledUpTo(u, n, vAddr, ids, now)
  {
    assert u.vRandom[..n] == t.vRandom[..n];
    forall i | 0 <= i < |ids| ensures PassedOn(u, ids[i], vAddr[i], now) {
      assert PassedOn(t, ids[i], vAddr[i], now) && Kept(t, u, ids[i]);
    }
    forall m | 0 <= m < n && u.vRandom[m] in u.mapInfo && !IsTerrible(u.mapInfo[u.vRandom[m]], now) ensures u.vRandom[m] in ids {
      assert Kept(t, u, t.vRandom[m]);
    }
  }

  lemma SampleExtended(t: Tables, n: nat, vAddr: seq<Address>, ids: seq<int>, before: seq<int>, now: int)
    requires n < |t.vRandom| && t.vRandom[n] in t.mapInfo && t.vRandom[n] !in t.vRandom[..n] && |vAddr| == |ids|
    requires if IsTerrible(t.mapInfo[t.vRandom[n]], now) then before == ids && SampledUpTo(t, n, vAddr, ids, now)
             else ids == before + [t.vRandom[n]] && vAddr[|before|] == AddressOf(t.mapInfo[t.vRandom[n]])
                  && SampledUpTo(t, n, vAddr[..|before|], before, now)
    ensures SampledUpTo(t, n + 1, vAddr, ids, now)
  {
    assert t.vRandom[..n + 1] == t.vRandom[..n] + [t.vRandom[n]];
    forall i | 0 <= i < |ids| ensures PassedOn(t, ids[i], vAddr[i], now) && ids[i] in t.vRandom[..n + 1] {
      if i < |before| { assert PassedOn(t, before[i], vAddr[i], now) && before[i] in t.vRandom[..n]; }
    }
  }

  lemma KeepsItself(t: Tables)
    ensures SameIds(t, t) && Keeps(t, t, {})
  {
  }

  lemma KeepsOn(t: Tables, u: Tables, v: Tables)
    requires SameIds(t, u) && Keeps(t, u, {}) && SameIds(u, v) && Keeps(u, v, {})
    ensures SameIds(t, v) && Keeps(t, v, {})
  {
    KeepsTrans(t, u, v, {}, {}, {});
  }

  lemma NoneSampled(t: Tables, now: int)
    ensures SampledUpTo(t, 0, [], [], now)
  {
  }

  lemma SampledStated(t: Tables, n: nat, vAddr: seq<Address>, ids: seq<int>, now: int)
    requires n <= |t.vRandom| && SampledUpTo(t, n, vAddr, ids, now)
    ensures |vAddr| == |ids| && forall i, j :: 0 <= i < j < |ids| ==> ids[i] != ids[j]
    ensures forall i :: 0 <= i < |ids| ==> ids[i] in t.mapInfo && vAddr[i] == AddressOf(t.mapInfo[ids[i]]) && !IsTerrible(t.mapInfo[ids[i]], now)
  {
    hide IsTerrible;
    forall i | 0 <= i < |ids| ensures PassedOn(t, ids[i], vAddr[i], now) {}
  }

  lemma SampledAll(t: Tables, pl: Placement, vAddr: seq<Address>, ids: seq<int>, now: int)
    requires Consistent(t, pl) && SampledUpTo(t, |t.vRandom|, vAddr, ids, now)
    ensures forall n :: n in t.mapInfo && !IsTerrible(t.mapInfo[n], now) ==> n in ids
  {
    forall n | n in t.mapInfo && !IsTerrible(t.mapInfo[n], now) ensures n in ids { assert EntryIndexed(t, n); }
  }

  lemma RingIndex(b: nat, start: nat, n: nat)
    requires b < NEW_BUCKET_COUNT && start < NEW_BUCKET_COUNT && n < NEW_BUCKET_COUNT
    ensures (b - start) % NEW_BUCKET_COUNT == n <==> (n + start) % NEW_BUCKET_COUNT == b
  {
  }

  lemma IdsAreNatural(t: Tables, id: int)
    requires Indexed(t) && id in t.mapInfo
    ensures id >= 0
  {
    assert EntryIndexed(t, id);
  }

  /** One new bucket has been visited on behalf of an entry. */
  ghost predicate LeftBucket(id: int, s: Slot, m: map<int, AddrInfo>, slots: map<Slot, int>, m': map<int, AddrInfo>, slots': map<Slot, int>)
    requires id in m
  {
    if s in slots && slots[s] == id then slots' == slots - {s} && m' == WithRefCount(m, id, m[id].nRefCount - 1)
    else slots' == slots && m' == m
  }

  /** The first `n` new buckets have been visited on behalf of an entry. */
  ghost predicate Swept(t: Tables, pl: Placement, id: int, n: nat, m: map<int, AddrInfo>, slots: map<Slot, int>)
    requires id in t.mapInfo
  {
    var taken := TakenBelow(OwnSlots(t, pl, id), n);
    m == WithRefCount(t.mapInfo, id, t.mapInfo[id].nRefCount - |taken|) && slots == t.newSlots - taken
  }

  lemma SweptStart(t: Tables, pl: Placement, id: int)
    requires id in t.mapInfo
    ensures Swept(t, pl, id, 0, t.mapInfo, t.newSlots)
  {
    assert TakenBelow(OwnSlots(t, pl, id), 0) == {};
  }

  lemma SweptFacts(t: Tables, pl: Placement, id: int, n: nat, m: map<int, AddrInfo>, slots: map<Slot, int>)
    requires id in t.mapInfo && Swept(t, pl, id, n, m, slots)
    ensures id in m && m[id].service == t.mapInfo[id].service
  {
  }

  lemma SweptStep(t: Tables, pl: Placement, id: int, n: nat,
                  m: map<int, AddrInfo>, slots: map<Slot, int>, m': map<int, AddrInfo>, slots': map<Slot, int>)
    requires id in t.mapInfo && id in m && Swept(t, pl, id, n, m, slots)
    requires LeftBucket(id, pl.NewSlot(m[id].service, n), m, slots, m', slots')
    ensures Swept(t, pl, id, n + 1, m', slots')
  {
    hide OwnSlots, TakenBelow;
    var own := OwnSlots(t, pl, id);
    OwnAt(t, pl, id, n);
    TakeNext(own, pl.NewSlot(t.mapInfo[id].service, n));
  }

  lemma SweptEnd(t: Tables, pl: Placement, id: int, m: map<int, AddrInfo>, slots: map<Slot, int>)
    requires id in t.mapInfo && Swept(t, pl, id, NEW_BUCKET_COUNT, m, slots)
    requires forall s :: s in t.newSlots ==> s.bucket < NEW_BUCKET_COUNT
    ensures t.(mapInfo := m, newSlots := slots) == Detach(t, pl, id)
  {
    assert TakenBelow(OwnSlots(t, pl, id), NEW_BUCKET_COUNT) == OwnSlots(t, pl, id);
  }

  lemma OwnAt(t: Tables, pl: Placement, id: int, b: nat)
    requires id in t.mapInfo
    ensures var own := OwnSlots(t, pl, id); var s := pl.NewSlot(t.mapInfo[id].service, b);
      && (forall r :: r in own && r.bucket == b ==> r == s)
      && (s in own <==> s in t.newSlots && t.newSlots[s] == id)
  {
  }

  function WithRefCount(m: map<int, AddrInfo>, id: int, c: int): map<int, AddrInfo>
    requires id in m
  {
    m[id := m[id].(nRefCount := c)]
  }

  /** The slots of a set that lie in the first `n` buckets. */
  ghost function TakenBelow(own: set<Slot>, n: nat): set<Slot> {
    set s | s in own && s.bucket < n
  }

  /** In one bucket an entry can own one slot only, the one its hash points at. */
  lemma TakeNext(own: set<Slot>, s: Slot)
    requires forall r :: r in own && r.bucket == s.bucket ==> r == s
    ensures s !in TakenBelow(own, s.bucket)
    ensures TakenBelow(own, s.bucket + 1) == TakenBelow(own, s.bucket) + (if s in own then {s} else {})
    ensures |TakenBelow(own, s.bucket + 1)| == |TakenBelow(own, s.bucket)| + (if s in own then 1 else 0)
  {
    assert TakenBelow(own, s.bucket + 1) == TakenBelow(own, s.bucket) + (if s in own then {s} else {});
  }
}
