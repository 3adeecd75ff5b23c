/**
 Whole runs of the address manager, and which addresses an operation can lose.
 */
module AddrRuns {
  import opened AddrTables
  import opened AddrInvariant

  /** What the network layer asks of the manager; times and dice are chosen freely. */
  datatype Event =
    | Announced(addr: Address, source: NetAddr, penalty: int, now: int, draw: nat)
    | Succeeded(service: Service, time: int)
    | Attempted(service: Service, time: int)
    | Seen(service: Service, time: int)
    | Sampled(draws: seq<nat>)

  /** The clock is positive when a connection is reported. */
  predicate Legal(e: Event) {
    match e
    case Succeeded(_, time) => time > 0
    case Attempted(_, time) => time >= 0
    case _ => true
  }

  /** Move a randomly drawn entry to each of the positions from `n` on. */
  ghost function Shuffle(t: Tables, pl: Placement, n: nat, draws: seq<nat>): (u: Tables)
    requires Consistent(t, pl)
    ensures Consistent(u, pl)
    ensures SameIds(t, u) && Keeps(t, u, {})
    ensures u.mapAddr == t.mapAddr && u.triedSlots == t.triedSlots && u.newSlots == t.newSlots
    decreases |draws|
  {
    hide Indexed, Placed, Counted;
    if draws == [] || n >= |t.vRandom| then t
    else
      var p := draws[0] % (|t.vRandom| - n) + n;
      assert n <= p < |t.vRandom|;
      SwapConsistent(t, pl, n, p);
      var w := SwapRandom(t, n, p);
      var u := Shuffle(w, pl, n + 1, draws[1..]);
      KeepsTrans(t, w, u, {}, {}, {});
      u
  }

  /** The tables after one event. */
  ghost function Apply(t: Tables, pl: Placement, e: Event): (u: Tables)
    requires Consistent(t, pl) && Legal(e)
    ensures Consistent(u, pl)
  {
    match e
    case Announced(addr, source, penalty, now, draw) =>
      AddConsistent(t, pl, addr, source, penalty, now, draw);
      Add(t, pl, addr, source, penalty, now, draw)
    case Succeeded(s, time) =>
      GoodConsistent(t, pl, s, time);
      Good(t, pl, s, time)
    case Attempted(s, time) =>
      AttemptConsistent(t, pl, s, time);
      Attempt(t, s, time)
    case Seen(s, time) =>
      ConnectedConsistent(t, pl, s, time);
      Connected(t, s, time)
    case Sampled(draws) => Shuffle(t, pl, 0, draws)
  }

  /** Every run from an empty manager keeps the whole invariant. */
  ghost function Run(pl: Placement, events: seq<Event>): (u: Tables)
    requires forall e :: e in events ==> Legal(e)
    ensures Consistent(u, pl)
  {
    if events == [] then
      assert TriedIds(EMPTY) == {} && NewIds(EMPTY) == {};
      EMPTY
    else
      var before := events[..|events| - 1];
      assert forall e :: e in before ==> e in events;
      Apply(Run(pl, before), pl, events[|events| - 1])
  }

  /** After every run the tables satisfy the counting facts behind the debug checker's codes. */
  lemma {:induction false} RunCounts(pl: Placement, events: seq<Event>)
    requires forall e :: e in events ==> Legal(e)
    ensures var u := Run(pl, events);
      && |u.vRandom| == u.nTried + u.nNew == |u.mapInfo| == |u.mapAddr|
      && u.nTried == |u.triedSlots|
      && (forall n :: n in u.mapInfo && !u.mapInfo[n].fInTried ==>
            1 <= u.mapInfo[n].nRefCount == |SlotsOf(u.newSlots, n)| <= NEW_BUCKETS_PER_ADDRESS)
  {
    var u := Run(pl, events);
    CountsAgree(u, pl);
    forall n | n in u.mapInfo && !u.mapInfo[n].fInTried
      ensures 1 <= u.mapInfo[n].nRefCount == |SlotsOf(u.newSlots, n)| <= NEW_BUCKETS_PER_ADDRESS
    {
      assert EntryPlaced(u, pl, n);
      assert n !in Orphans(u);
    }
  }

  lemma CountsAgree(t: Tables, pl: Placement)
    requires Consistent(t, pl)
    ensures |t.vRandom| == t.nTried + t.nNew == |t.mapInfo| == |t.mapAddr|
    ensures t.nTried == |t.triedSlots|
  {
    hide Placed;
    assert TriedIds(t) !! NewIds(t);
    assert forall n :: n in t.mapInfo.Keys <==> n in TriedIds(t) + NewIds(t);
    assert t.mapInfo.Keys == TriedIds(t) + NewIds(t);
    RandomIsPermutation(t);
    AddrsAreEntries(t);
    SeatsAreTried(t, pl);
  }

  lemma RandomIsPermutation(t: Tables)
    requires Indexed(t)
    ensures |t.vRandom| == |t.mapInfo|
  {
    var ids := set i | 0 <= i < |t.vRandom| :: t.vRandom[i];
    DistinctCount(t.vRandom);
    forall n ensures n in ids <==> n in t.mapInfo.Keys {
      if n in t.mapInfo { assert EntryIndexed(t, n); }
    }
    assert ids == t.mapInfo.Keys;
  }

  lemma {:induction false} DistinctCount(s: seq<int>)
    requires forall i, j :: 0 <= i < j < |s| ==> s[i] != s[j]
    ensures |set i | 0 <= i < |s| :: s[i]| == |s|
  {
    var all := set i | 0 <= i < |s| :: s[i];
    if s != [] {
      var r := s[..|s| - 1];
      var rest := set i | 0 <= i < |r| :: r[i];
      DistinctCount(r);
      assert s[|s| - 1] !in rest;
      forall x ensures x in all <==> x in rest + {s[|s| - 1]} {
        if x in all { var i :| 0 <= i < |s| && s[i] == x; assert i < |r| ==> r[i] == x; }
        if x in rest { var i :| 0 <= i < |r| && r[i] == x; assert s[i] == x; }
        assert x == s[|s| - 1] ==> x in all;
      }
      assert all == rest + {s[|s| - 1]};
    } else {
      assert all == {};
    }
  }

  lemma {:induction false} InjectiveCount<K>(m: map<K, int>)
    requires forall a, b :: a in m && b in m && m[a] == m[b] ==> a == b
    ensures |m.Values| == |m|
    decreases |m|
  {
    if m == map[] {
      assert m.Values == {};
    } else {
      var k :| k in m;
      var r := m - {k};
      assert r.Keys == m.Keys - {k};
      InjectiveCount(r);
      assert m[k] !in r.Values;
      forall x ensures x in m.Values <==> x in r.Values + {m[k]} {
        if x in m.Values { var j :| j in m && m[j] == x; assert j != k ==> r[j] == x; }
        if x in r.Values { var j :| j in r && r[j] == x; assert m[j] == x; }
      }
      assert m.Values == r.Values + {m[k]};
    }
  }

  lemma AddrsAreEntries(t: Tables)
    requires Indexed(t)
    ensures |t.mapAddr| == |t.mapInfo|
  {
    InjectiveCount(t.mapAddr);
    forall n ensures n in t.mapAddr.Values <==> n in t.mapInfo.Keys {
      if n in t.mapInfo { assert EntryIndexed(t, n); assert t.mapAddr[t.mapInfo[n].service.ip] in t.mapAddr.Values; }
    }
    assert t.mapAddr.Values == t.mapInfo.Keys;
  }

  lemma SeatsAreTried(t: Tables, pl: Placement)
    requires Placed(t, pl)
    ensures |t.triedSlots| == |TriedIds(t)|
  {
    assert forall k :: k in t.triedSlots ==> TriedPlaced(t, pl, k);
    InjectiveCount(t.triedSlots);
    forall n ensures n in t.triedSlots.Values <==> n in TriedIds(t) {
      if n in TriedIds(t) { assert EntryPlaced(t, pl, n); assert t.triedSlots[pl.TriedSlot(t.mapInfo[n].service)] in t.triedSlots.Values; }
    }
    assert t.triedSlots.Values == TriedIds(t);
  }

  // ------------------------------------------------------- which addresses get lost

  /** An address known before an operation and unknown after it. */
  ghost predicate Lost(t: Tables, u: Tables, a: NetAddr) {
    a in t.mapAddr && a !in u.mapAddr
  }

  /** Which address emptying a slot loses: its occupant's, if that was the occupant's only slot. */
  lemma ClearLoses(t: Tables, s: Slot)
    requires CanClear(t, s)
    ensures ClearNew(t, s).mapAddr ==
      if s in t.newSlots && t.mapInfo[t.newSlots[s]].nRefCount == 1 then t.mapAddr - {t.mapInfo[t.newSlots[s]].service.ip} else t.mapAddr
  {
  }

  /** The entry has its only slot where the entry pushed out of tried by a success goes back to. */
  predicate DroppedByGood(t: Tables, pl: Placement, s: Service, n: int) {
    && Matches(t, s) && n != t.mapAddr[s.ip] && !t.mapInfo[t.mapAddr[s.ip]].fInTried
    && var k := pl.TriedSlot(s);
    && k in t.triedSlots && t.triedSlots[k] in t.mapInfo
    && var home := HomeSlot(pl, t.mapInfo[t.triedSlots[k]]);
    && home in t.newSlots && t.newSlots[home] == n && n in t.mapInfo && t.mapInfo[n].nRefCount == 1
  }

  /**
   Exactly which address reporting a success loses: that of the one entry whose only slot is
   the home slot of the entry pushed out of tried. It is never the address reported, nor the
   one pushed out.
   */
  lemma GoodLoses(t: Tables, pl: Placement, s: Service, time: int, a: NetAddr)
    requires Consistent(t, pl) && a in t.mapAddr
    ensures CanGood(t, pl, s, time)
    ensures Lost(t, Good(t, pl, s, time), a) <==> DroppedByGood(t, pl, s, t.mapAddr[a])
    ensures DroppedByGood(t, pl, s, t.mapAddr[a]) ==> a != s.ip && !t.mapInfo[t.mapAddr[a]].fInTried
  {
    hide Indexed, Placed, Counted, Good, MakeTried, CanPromote, DroppedByGood, Evict, CanEvict, Placement.TriedSlot, OwnSlots;
    GoodConsistent(t, pl, s, time);
    KnownIsFound(t);
    if Matches(t, s) && !t.mapInfo[t.mapAddr[s.ip]].fInTried {
      GoodPromotes(t, pl, s, time);
      PromotionLoses(t, pl, s, time, a);
    } else {
      GoodKeepsAddrs(t, pl, s, time);
      assert !DroppedByGood(t, pl, s, t.mapAddr[a]) by { NotDropped(t, pl, s, t.mapAddr[a]); }
    }
  }

  lemma GoodKeepsAddrs(t: Tables, pl: Placement, s: Service, time: int)
    requires CanGood(t, pl, s, time) && (Matches(t, s) ==> t.mapInfo[t.mapAddr[s.ip]].fInTried)
    ensures Good(t, pl, s, time).mapAddr == t.mapAddr
  {
  }

  lemma NotDropped(t: Tables, pl: Placement, s: Service, n: int)
    requires Matches(t, s) ==> t.mapInfo[t.mapAddr[s.ip]].fInTried
    ensures !DroppedByGood(t, pl, s, n)
  {
  }

  lemma GoodPromotes(t: Tables, pl: Placement, s: Service, time: int)
    requires Consistent(t, pl) && CanGood(t, pl, s, time) && Matches(t, s) && !t.mapInfo[t.mapAddr[s.ip]].fInTried
    ensures var w := MarkGood(t, t.mapAddr[s.ip], time);
      CanPromote(w, pl, t.mapAddr[s.ip]) && Good(t, pl, s, time) == MakeTried(w, pl, t.mapAddr[s.ip])
  {
    hide Indexed, Placed, Counted, MakeTried, CanPromote, OwnSlots;
    var id := t.mapAddr[s.ip];
    NewEntryHasSlot(t, pl, id);
    SameOwnSlots(t, MarkGood(t, id, time), pl, id);
  }

  lemma SameOwnSlots(t: Tables, w: Tables, pl: Placement, id: int)
    requires id in t.mapInfo && id in w.mapInfo && w.newSlots == t.newSlots && w.mapInfo[id].service == t.mapInfo[id].service
    ensures OwnSlots(w, pl, id) == OwnSlots(t, pl, id)
  {
  }

  lemma PromotionLoses(t: Tables, pl: Placement, s: Service, time: int, a: NetAddr)
    requires Consistent(t, pl) && a in t.mapAddr && Matches(t, s) && !t.mapInfo[t.mapAddr[s.ip]].fInTried
    requires CanPromote(MarkGood(t, t.mapAddr[s.ip], time), pl, t.mapAddr[s.ip])
    ensures var u := MakeTried(MarkGood(t, t.mapAddr[s.ip], time), pl, t.mapAddr[s.ip]);
      Lost(t, u, a) <==> DroppedByGood(t, pl, s, t.mapAddr[a])
    ensures DroppedByGood(t, pl, s, t.mapAddr[a]) ==> a != s.ip && !t.mapInfo[t.mapAddr[a]].fInTried
  {
    hide Indexed, Placed, Counted, ClearNew, CanClear, Placement.TriedSlot, Placement.NewSlot, HomeSlot, Orphans;
    KnownIsFound(t);
    var id, k, n := t.mapAddr[s.ip], pl.TriedSlot(s), t.mapAddr[a];
    var d := Unlisted(MarkGood(t, id, time), pl, id);
    OccupantOf(t, n, a);
    if k in t.triedSlots {
      SeatIsNot(t, pl, k, id);
      var out := t.triedSlots[k];
      var home := HomeSlot(pl, t.mapInfo[out]);
      var x := Unseat(d, k);
      HomeIs(pl, t.mapInfo[out], x.mapInfo[out]);
      ClearLoses(x, home);
      UnlistedSlot(t, pl, id, time, home);
      if home in t.newSlots && t.newSlots[home] != id {
        NewSlotIsNot(t, pl, home, out);
        SameAddress(t, t.newSlots[home], n);
      }
    }
  }

  lemma OccupantOf(t: Tables, n: int, a: NetAddr)
    requires Indexed(t) && a in t.mapAddr && t.mapAddr[a] == n
    ensures n in t.mapInfo && t.mapInfo[n].service.ip == a
  {
  }

  lemma HomeIs(pl: Placement, a: AddrInfo, b: AddrInfo)
    requires a.service == b.service && a.source == b.source
    ensures HomeSlot(pl, a) == HomeSlot(pl, b)
  {
  }

  lemma SeatIsNot(t: Tables, pl: Placement, k: Slot, id: int)
    requires Placed(t, pl) && k in t.triedSlots && id in t.mapInfo && !t.mapInfo[id].fInTried
    ensures t.triedSlots[k] in t.mapInfo && t.triedSlots[k] != id && t.mapInfo[t.triedSlots[k]].fInTried
  {
    assert TriedPlaced(t, pl, k);
  }

  lemma NewSlotIsNot(t: Tables, pl: Placement, s: Slot, out: int)
    requires Placed(t, pl) && s in t.newSlots && out in t.mapInfo && t.mapInfo[out].fInTried
    ensures t.newSlots[s] in t.mapInfo && t.newSlots[s] != out && !t.mapInfo[t.newSlots[s]].fInTried
  {
    assert NewPlaced(t, pl, s);
  }

  /** After the entry promoted has left its new slots, the others are as they were. */
  lemma UnlistedSlot(t: Tables, pl: Placement, id: int, time: int, s: Slot)
    requires Placed(t, pl) && id in t.mapInfo
    ensures var d := Unlisted(MarkGood(t, id, time), pl, id);
      && (s in d.newSlots <==> s in t.newSlots && t.newSlots[s] != id)
      && (s in d.newSlots ==> d.newSlots[s] == t.newSlots[s])
  {
    assert s in t.newSlots ==> NewPlaced(t, pl, s);
  }

  lemma SameAddress(t: Tables, m: int, n: int)
    requires Indexed(t) && m in t.mapInfo && n in t.mapInfo
    ensures t.mapInfo[m].service.ip == t.mapInfo[n].service.ip <==> m == n
  {
    assert EntryIndexed(t, m) && EntryIndexed(t, n);
  }

  /** Whether a new slot can be had by an entry that has none yet. */
  predicate SlotYields(t: Tables, s: Slot, now: int) {
    s in t.newSlots && t.newSlots[s] in t.mapInfo ==>
      IsTerrible(t.mapInfo[t.newSlots[s]], now) || t.mapInfo[t.newSlots[s]].nRefCount > 1
  }

  /**
   Add_ answers true for every routable address it did not know, but it stores the
   address exactly when the slot picked by the source is free, or its occupant is
   terrible or listed elsewhere too.
   */
  lemma AddStores(t: Tables, pl: Placement, addr: Address, source: NetAddr, penalty: int, now: int, draw: nat)
    requires Consistent(t, pl) && AddReports(t, pl, addr)
    ensures CanAdd(t, pl, addr, source, penalty, now, draw)
    ensures var s := pl.NewSlot(addr.service, pl.NewBucket(addr.service, source));
      addr.service.ip in Add(t, pl, addr, source, penalty, now, draw).mapAddr <==> SlotYields(t, s, now)
  {
    hide Indexed, Counted, Placed;
    AddConsistent(t, pl, addr, source, penalty, now, draw);
    RegisteredLoose(t, pl, addr, source, penalty, now);
    var w := Registered(t, addr, source, penalty, now);
    var id := t.nIdCount;
    var s := TargetSlot(w, pl, id, source);
    PlaceLoose(w, pl, id, s, now);
    var u := Place(w, id, s, now);
    YieldsIsMayTake(t, w, pl, id, s, now);
    PlaceInherits(w, id, s, now);
    if id in u.mapInfo { assert SameRecord(w, u, id); KnownIsFound(u); }
    else { NewcomerGone(w, u, pl, addr.service.ip, id); }
  }

  lemma YieldsIsMayTake(t: Tables, w: Tables, pl: Placement, id: int, s: Slot, now: int)
    requires Placed(t, pl) && Keeps(t, w, {id}) && w.newSlots == t.newSlots && id in w.mapInfo && id !in t.mapInfo
    requires w.mapInfo[id].nRefCount == 0
    ensures MayTake(w, id, s, now) <==> SlotYields(t, s, now)
  {
    if s in t.newSlots {
      assert NewPlaced(t, pl, s);
      assert Kept(t, w, t.newSlots[s]);
    }
  }

  lemma NewcomerGone(w: Tables, u: Tables, pl: Placement, a: NetAddr, id: int)
    requires Indexed(w) && Indexed(u) && Inherits(w, u) && id !in u.mapInfo
    requires a in w.mapAddr && w.mapAddr[a] == id
    ensures a !in u.mapAddr
  {
    assert forall n :: n in u.mapInfo ==> SameRecord(w, u, n);
    forall b | b in u.mapAddr ensures b in w.mapAddr && w.mapAddr[b] in u.mapInfo {
      assert EntryIndexed(w, u.mapAddr[b]);
    }
  }

  /** The entry has its only slot where the source of an address just heard points at, and is terrible. */
  predicate DroppedByAdd(t: Tables, pl: Placement, addr: Address, source: NetAddr, penalty: int, now: int, draw: nat, n: int) {
    && pl.net.routable(addr.service.ip) && !Stops(t, addr, penalty, now, draw)
    && var w, id := Registered(t, addr, source, penalty, now), Target(t, addr);
    && id in w.mapInfo && n != id
    && var s := TargetSlot(w, pl, id, source);
    && s in t.newSlots && t.newSlots[s] == n && n in t.mapInfo && t.mapInfo[n].nRefCount == 1 && IsTerrible(t.mapInfo[n], now)
  }

  /**
   Exactly which address hearing of another loses: that of the terrible entry whose only slot
   is the one the source points at, unless hearing stops before that.
   */
  lemma AddLoses(t: Tables, pl: Placement, addr: Address, source: NetAddr, penalty: int, now: int, draw: nat, a: NetAddr)
    requires Consistent(t, pl) && a in t.mapAddr
    ensures CanAdd(t, pl, addr, source, penalty, now, draw)
    ensures Lost(t, Add(t, pl, addr, source, penalty, now, draw), a) <==> DroppedByAdd(t, pl, addr, source, penalty, now, draw, t.mapAddr[a])
    ensures DroppedByAdd(t, pl, addr, source, penalty, now, draw, t.mapAddr[a]) ==> a != addr.service.ip && !t.mapInfo[t.mapAddr[a]].fInTried
  {
    hide Indexed, Placed, Counted, Place, CanPlace, Registered, IsTerrible, TargetSlot, Orphans, Stops, AddrTables.Found;
    AddConsistent(t, pl, addr, source, penalty, now, draw);
    RegisteredLoose(t, pl, addr, source, penalty, now);
    RegisteredAddrs(t, addr, source, penalty, now);
    var w, id := Registered(t, addr, source, penalty, now), Target(t, addr);
    OccupantOf(t, t.mapAddr[a], a);
    if pl.net.routable(addr.service.ip) && !Stops(t, addr, penalty, now, draw) {
      TargetIs(t, addr, a);
      TargetIsHeld(t, pl, addr, source, penalty, now, draw);
      PlaceLoses(t, w, pl, id, TargetSlot(w, pl, id, source), now, a);
    }
  }

  lemma RegisteredAddrs(t: Tables, addr: Address, source: NetAddr, penalty: int, now: int)
    requires Indexed(t)
    ensures var w := Registered(t, addr, source, penalty, now);
      && w.mapAddr == t.mapAddr[addr.service.ip := Target(t, addr)]
      && Target(t, addr) in w.mapInfo && w.mapInfo[Target(t, addr)].service.ip == addr.service.ip
      && (forall n :: n in t.mapInfo && n != Target(t, addr) ==> n in w.mapInfo && w.mapInfo[n] == t.mapInfo[n])
      && (Target(t, addr) !in t.mapInfo ==> addr.service.ip !in t.mapAddr)
  {
    hide Uint32;
    KnownIsFound(t);
  }

  /** An entry already known and not left alone is a new one, so it has a slot. */
  lemma TargetIsHeld(t: Tables, pl: Placement, addr: Address, source: NetAddr, penalty: int, now: int, draw: nat)
    requires Consistent(t, pl) && !Stops(t, addr, penalty, now, draw)
    ensures var id := Target(t, addr); id in t.mapInfo ==> Registered(t, addr, source, penalty, now).mapInfo[id].nRefCount > 0
  {
    hide Indexed, Counted, Uint32;
    KnownIsFound(t);
    var id := Target(t, addr);
    if id in t.mapInfo {
      assert EntryPlaced(t, pl, id);
      assert id !in Orphans(t);
    }
  }

  lemma TargetIs(t: Tables, addr: Address, a: NetAddr)
    requires Indexed(t) && a in t.mapAddr
    ensures t.mapAddr[a] == Target(t, addr) <==> a == addr.service.ip
  {
    KnownIsFound(t);
  }

  lemma PlaceLoses(t: Tables, w: Tables, pl: Placement, id: int, s: Slot, now: int, a: NetAddr)
    requires Indexed(t) && Placed(t, pl) && a in t.mapAddr && CanPlace(w, id, s, now) && w.newSlots == t.newSlots
    requires id in w.mapInfo && w.mapAddr == t.mapAddr[w.mapInfo[id].service.ip := id] && (id !in t.mapInfo ==> w.mapInfo[id].service.ip !in t.mapAddr)
    requires forall n :: n in t.mapInfo && n != id ==> n in w.mapInfo && w.mapInfo[n] == t.mapInfo[n]
    requires t.mapAddr[a] == id <==> a == w.mapInfo[id].service.ip
    requires id in t.mapInfo ==> w.mapInfo[id].nRefCount > 0
    ensures Lost(t, Place(w, id, s, now), a) <==>
      var n := t.mapAddr[a]; n != id && s in t.newSlots && t.newSlots[s] == n && n in t.mapInfo && t.mapInfo[n].nRefCount == 1 && IsTerrible(t.mapInfo[n], now)
    ensures s in t.newSlots ==> t.newSlots[s] in t.mapInfo && !t.mapInfo[t.newSlots[s]].fInTried
  {
    hide Indexed, Placed, IsTerrible, ClearNew, CanClear;
    OccupantOf(t, t.mapAddr[a], a);
    if s in t.newSlots {
      ReleasePlaced(t, pl, s);
      SameAddress(t, t.newSlots[s], t.mapAddr[a]);
    }
    if !(s in w.newSlots && w.newSlots[s] == id) && MayTake(w, id, s, now) { ClearLoses(w, s); }
  }
}
