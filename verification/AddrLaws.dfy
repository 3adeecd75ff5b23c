/**
 What the operations of the address manager mean, in plain numbers: the fields of every
 entry, the slots it holds, which announcements and which draws give it another one, and
 how far one peer or one network can spread over the buckets.
 */
module AddrLaws {
  import opened AddrTables
  import opened AddrInvariant
  import opened AddrRuns

  /** When an entry is worth keeping: tried in the last minute, or seen lately and not failing. */
  lemma TerribleExactly(info: AddrInfo, now: int)
    ensures !IsTerrible(info, now) <==>
      || (info.nLastTry != 0 && info.nLastTry + 60 >= now)
      || (&& 0 < info.nTime <= now + 600 && now <= info.nTime + 2592000
          && (info.nLastSuccess != 0 || info.nAttempts < 3)
          && (info.nAttempts < 10 || now <= info.nLastSuccess + 604800))
  {
  }

  // ---------------------------------------------------------------- the spread over buckets

  /** Tried and new slots are picked by different hashes of the service, each new bucket by its own. */
  lemma {:induction false} SlotsHashed(pl: Placement, s: Service, source: NetAddr, b: nat)
    ensures var spread := pl.net.cheapHash(pl.key, OfService(s)) % 8;
      var bucket := pl.net.cheapHash(pl.key, OfGroup(pl.net.group(s.ip), spread)) % 256;
      pl.TriedSlot(s) == Slot(bucket, pl.net.cheapHash(pl.key, OfPosition(false, bucket, s)) % 64)
    ensures pl.NewSlot(s, b) == Slot(b, pl.net.cheapHash(pl.key, OfPosition(true, b, s)) % 64)
    ensures var spread := pl.net.cheapHash(pl.key, OfGroups(pl.net.group(s.ip), pl.net.group(source))) % 64;
      pl.NewBucket(s, source) == pl.net.cheapHash(pl.key, OfSourceGroup(pl.net.group(source), spread)) % 1024
  {
    assert pl.TriedSlot(s).bucket == pl.TriedBucket(s);
  }

  /** The tried buckets of all services of one network group are at most eight. */
  lemma TriedSpread(pl: Placement, group: seq<bv8>, ss: set<Service>)
    requires forall s :: s in ss ==> pl.net.group(s.ip) == group
    ensures |set s | s in ss :: pl.TriedBucket(s)| <= 8
  {
    var some := seq(8, n requires n >= 0 => pl.net.cheapHash(pl.key, OfGroup(group, n)) % 256);
    forall s | s in ss ensures pl.TriedBucket(s) in some {
      var n := pl.net.cheapHash(pl.key, OfService(s)) % 8;
      assert some[n] == pl.TriedBucket(s);
    }
    AtMost(set s | s in ss :: pl.TriedBucket(s), some);
  }

  /** The new buckets that sources of one network group can point at are at most sixty-four. */
  lemma NewSpread(pl: Placement, group: seq<bv8>, told: set<(Service, NetAddr)>)
    requires forall p :: p in told ==> pl.net.group(p.1) == group
    ensures |set p | p in told :: pl.NewBucket(p.0, p.1)| <= 64
  {
    var some := seq(64, n requires n >= 0 => pl.net.cheapHash(pl.key, OfSourceGroup(group, n)) % 1024);
    forall p | p in told ensures pl.NewBucket(p.0, p.1) in some {
      var n := pl.net.cheapHash(pl.key, OfGroups(pl.net.group(p.0.ip), group)) % 64;
      assert some[n] == pl.NewBucket(p.0, p.1);
    }
    AtMost(set p | p in told :: pl.NewBucket(p.0, p.1), some);
  }

  /** A set of values listed in a sequence is no larger than the sequence. */
  lemma {:induction false} AtMost<T>(a: set<T>, s: seq<T>)
    requires forall x :: x in a ==> x in s
    ensures |a| <= |s|
  {
    if s == [] {
      assert a == {};
    } else {
      var n := |s| - 1;
      AtMost(a - {s[n]}, s[..n]);
    }
  }

  /** However long it runs, the manager holds at most 64 entries in each of 256 tried and 1024 new buckets. */
  lemma RunBounded(pl: Placement, events: seq<Event>)
    requires forall e :: e in events ==> Legal(e)
    ensures var u := Run(pl, events);
      && (forall k :: k in u.triedSlots ==> k.bucket < 256 && k.pos < 64) && u.nTried <= 16384
      && (forall s :: s in u.newSlots ==> s.bucket < 1024 && s.pos < 64) && u.nNew <= 65536
  {
    hide Indexed, Counted, Placement.TriedSlot, Placement.NewSlot;
    var u := Run(pl, events);
    CountsAgree(u, pl);
    forall k | k in u.triedSlots ensures k.bucket < 256 && k.pos < 64 { InTried(u, pl, k); }
    forall s | s in u.newSlots ensures s.bucket < 1024 && s.pos < 64 { InNew(u, pl, s); }
    SlotCount(u.triedSlots.Keys, 256);
    SlotCount(u.newSlots.Keys, 1024);
    NewCount(u, pl);
  }

  lemma InTried(t: Tables, pl: Placement, k: Slot)
    requires Placed(t, pl) && k in t.triedSlots
    ensures k.bucket < 256 && k.pos < 64
  {
    assert TriedPlaced(t, pl, k);
  }

  lemma InNew(t: Tables, pl: Placement, s: Slot)
    requires Placed(t, pl) && s in t.newSlots
    ensures s.bucket < 1024 && s.pos < 64 && t.newSlots[s] in t.mapInfo && s == pl.NewSlot(t.mapInfo[t.newSlots[s]].service, s.bucket)
  {
    assert NewPlaced(t, pl, s);
  }

  lemma {:induction false} SlotCount(ss: set<Slot>, buckets: nat)
    requires forall s :: s in ss ==> s.bucket < buckets && s.pos < 64
    ensures |ss| <= 64 * buckets
  {
    if buckets == 0 {
      assert ss == {};
    } else {
      var last := set s | s in ss && s.bucket == buckets - 1;
      SlotCount(ss - last, buckets - 1);
      var all := seq(64, n requires n >= 0 => Slot(buckets - 1, n));
      forall s | s in last ensures s in all { assert all[s.pos] == s; }
      AtMost(last, all);
      assert ss == (ss - last) + last;
    }
  }

  /** Every new entry has a slot of its own, so there are no more of them than slots. */
  lemma NewCount(t: Tables, pl: Placement)
    requires Consistent(t, pl)
    ensures t.nNew <= |t.newSlots|
  {
    hide Indexed;
    forall n | n in NewIds(t) ensures n in t.newSlots.Values {
      assert EntryPlaced(t, pl, n) && n !in Orphans(t);
      var s :| s in SlotsOf(t.newSlots, n);
    }
    assert NewIds(t) <= t.newSlots.Values;
    var rest := t.newSlots.Values - NewIds(t);
    assert t.newSlots.Values == NewIds(t) + rest;
    ValuesCount(t.newSlots);
  }

  lemma {:induction false} ValuesCount(m: map<Slot, int>)
    ensures |m.Values| <= |m|
    decreases |m|
  {
    if m == map[] {
      assert m.Values == {};
    } else {
      var k :| k in m;
      var r := m - {k};
      ValuesCount(r);
      assert m == r[k := m[k]];
      forall x | x in m.Values ensures x in r.Values + {m[k]} { var j :| j in m && m[j] == x; assert j != k ==> r[j] == x; }
      var lost := (r.Values + {m[k]}) - m.Values;
      assert r.Values + {m[k]} == m.Values + lost;
    }
  }

  // ---------------------------------------------------------------- the fields of an entry

  /** The announced time less the penalty, not below zero, in 32 bits. */
  function Penalised(announced: nat, penalty: int): nat {
    if announced <= penalty then 0 else (announced - penalty) % 4294967296
  }

  /** The time stored for an entry after its address was announced with another time. */
  function HeardTime(stored: nat, announced: nat, penalty: int, now: int): nat {
    var patience := if now < announced + 86400 then 3600 else 86400;
    if announced > 0 && (stored == 0 || stored + patience + penalty < announced) then Penalised(announced, penalty) else stored
  }

  /** What an event does to the facts recorded of one entry; where the entry is listed is another matter. */
  ghost predicate FactsAfter(pl: Placement, a: AddrInfo, b: AddrInfo, e: Event) {
    && b.service == a.service && b.source == a.source
    && b.nAttempts == (if e.Attempted? && e.service == a.service then a.nAttempts + 1 else if e.Succeeded? && e.service == a.service then 0 else a.nAttempts)
    && b.nLastTry == (if (e.Attempted? || e.Succeeded?) && e.service == a.service then e.time else a.nLastTry)
    && b.nLastSuccess == (if e.Succeeded? && e.service == a.service then e.time else a.nLastSuccess)
    && b.nServices == (if Announces(pl, e, a) then a.nServices + e.addr.nServices else a.nServices)
    && b.nTime ==
      if Announces(pl, e, a) then HeardTime(a.nTime, e.addr.nTime, e.penalty, e.now)
      else if e.Seen? && e.service == a.service && e.time > a.nTime + 1200 then e.time % 4294967296
      else a.nTime
  }

  ghost predicate Announces(pl: Placement, e: Event, a: AddrInfo) {
    e.Announced? && e.addr.service.ip == a.service.ip && pl.net.routable(a.service.ip)
  }

  /** A fresh entry: never tried, and as old as announced. */
  ghost predicate Fresh(b: AddrInfo, e: Event) {
    && e.Announced? && b.service == e.addr.service && b.source == e.source && b.nServices == e.addr.nServices
    && b.nTime == Penalised(e.addr.nTime, e.penalty) && b.nLastTry == 0 && b.nLastSuccess == 0 && b.nAttempts == 0
    && !b.fInTried && b.nRefCount == 1
  }

  /**
   The whole effect of every event on the facts of every entry. Nobody else's facts change,
   and an entry that was not there before is fresh.
   */
  lemma {:induction false} EventFacts(t: Tables, pl: Placement, e: Event, n: int)
    requires Consistent(t, pl) && Legal(e) && n in Apply(t, pl, e).mapInfo
    ensures n in t.mapInfo ==> FactsAfter(pl, t.mapInfo[n], Apply(t, pl, e).mapInfo[n], e)
    ensures n !in t.mapInfo ==> Fresh(Apply(t, pl, e).mapInfo[n], e)
  {
    hide Consistent, Add, Good, Shuffle;
    match e
    case Announced(addr, source, penalty, now, draw) =>
      AddConsistent(t, pl, addr, source, penalty, now, draw);
      AddFacts(t, pl, addr, source, penalty, now, draw, n);
    case Succeeded(s, time) =>
      GoodConsistent(t, pl, s, time);
      GoodFacts(t, pl, s, time, n);
    case Attempted(s, time) =>
      ServiceIsIp(t, pl, n);
    case Seen(s, time) =>
      ServiceIsIp(t, pl, n);
      SmallTime(time);
    case Sampled(draws) =>
      var u := Shuffle(t, pl, 0, draws);
      assert n in t.mapInfo && Kept(t, u, n);
  }

  lemma SmallTime(x: int)
    ensures Uint32(x) == x % 4294967296
  {
  }

  /** An entry is found under its address, and no other is. */
  lemma ServiceIsIp(t: Tables, pl: Placement, n: int)
    requires Consistent(t, pl) && n in t.mapInfo
    ensures t.mapInfo[n].service.ip in t.mapAddr && t.mapAddr[t.mapInfo[n].service.ip] == n
    ensures forall ip :: ip in t.mapAddr && t.mapAddr[ip] == n ==> ip == t.mapInfo[n].service.ip
  {
    assert EntryIndexed(t, n);
  }

  lemma GoodFacts(t: Tables, pl: Placement, s: Service, time: int, n: int)
    requires Consistent(t, pl) && CanGood(t, pl, s, time) && n in Good(t, pl, s, time).mapInfo
    ensures n in t.mapInfo && FactsAfter(pl, t.mapInfo[n], Good(t, pl, s, time).mapInfo[n], Succeeded(s, time))
  {
    hide Indexed, Placed, Counted, MakeTried, CanPromote, OwnSlots;
    if Matches(t, s) {
      var id := t.mapAddr[s.ip];
      var w := MarkGood(t, id, time);
      if !t.mapInfo[id].fInTried && OwnSlots(w, pl, id) != {} {
        MakeTriedInherits(w, pl, id);
        assert SameRecord(w, MakeTried(w, pl, id), n);
      }
      ServiceIsIp(t, pl, n);
    } else {
      ServiceIsIp(t, pl, n);
    }
  }

  lemma RefreshedFacts(info: AddrInfo, addr: Address, penalty: int, now: int)
    ensures Refreshed(info, addr, penalty, now) ==
      info.(nTime := HeardTime(info.nTime, addr.nTime, penalty, now), nServices := info.nServices + addr.nServices)
  {
  }

  lemma PenalisedIs(announced: nat, penalty: int)
    ensures Uint32(Max0(announced - penalty)) == Penalised(announced, penalty)
  {
  }

  lemma AddFacts(t: Tables, pl: Placement, addr: Address, source: NetAddr, penalty: int, now: int, draw: nat, n: int)
    requires Consistent(t, pl) && CanAdd(t, pl, addr, source, penalty, now, draw) && n in Add(t, pl, addr, source, penalty, now, draw).mapInfo
    ensures var b := Add(t, pl, addr, source, penalty, now, draw).mapInfo[n]; var e := Announced(addr, source, penalty, now, draw);
      (n in t.mapInfo ==> FactsAfter(pl, t.mapInfo[n], b, e)) && (n !in t.mapInfo ==> Fresh(b, e))
  {
    hide Indexed, Placed, Counted, Place, CanPlace, TargetSlot, Orphans, Stops, FactsAfter, Fresh, HeardTime;
    if pl.net.routable(addr.service.ip) {
      var w, id := Registered(t, addr, source, penalty, now), Target(t, addr);
      RegisteredFacts(t, pl, addr, source, penalty, now, draw, n);
      if !Stops(t, addr, penalty, now, draw) {
        var s := TargetSlot(w, pl, id, source);
        PlaceInherits(w, id, s, now);
        assert SameRecord(w, Place(w, id, s, now), n);
        FactsMoved(t, pl, w, Place(w, id, s, now), addr, source, penalty, now, draw, n);
        if n !in t.mapInfo { FreshPlaced(t, pl, addr, source, penalty, now, draw, n); }
      } else if n !in t.mapInfo {
        StopsKnown(t, pl, addr, source, penalty, now, draw);
      }
    } else {
      SameFactsStay(pl, t.mapInfo[n], addr, source, penalty, now, draw);
    }
  }

  lemma StopsKnown(t: Tables, pl: Placement, addr: Address, source: NetAddr, penalty: int, now: int, draw: nat)
    requires Consistent(t, pl) && Stops(t, addr, penalty, now, draw)
    ensures Registered(t, addr, source, penalty, now).mapInfo.Keys == t.mapInfo.Keys
  {
    hide Refreshed, LeftAlone;
  }

  lemma SameFactsStay(pl: Placement, a: AddrInfo, addr: Address, source: NetAddr, penalty: int, now: int, draw: nat)
    requires !pl.net.routable(addr.service.ip)
    ensures FactsAfter(pl, a, a, Announced(addr, source, penalty, now, draw))
  {
  }

  /** The facts once the entry is refreshed or made, before it is given a slot. */
  lemma RegisteredFacts(t: Tables, pl: Placement, addr: Address, source: NetAddr, penalty: int, now: int, draw: nat, n: int)
    requires Consistent(t, pl) && pl.net.routable(addr.service.ip)
    ensures var w := Registered(t, addr, source, penalty, now);
      && (n in t.mapInfo ==> n in w.mapInfo && FactsAfter(pl, t.mapInfo[n], w.mapInfo[n], Announced(addr, source, penalty, now, draw)))
      && (n in w.mapInfo && n !in t.mapInfo ==> n == t.nIdCount && addr.service.ip !in t.mapAddr && Fresh(w.mapInfo[n].(nRefCount := 1), Announced(addr, source, penalty, now, draw)))
  {
    hide Placed, Counted, Refreshed, Uint32, HeardTime;
    KnownIsFound(t);
    if n in t.mapInfo {
      ServiceIsIp(t, pl, n);
      RefreshedFacts(t.mapInfo[n], addr, penalty, now);
    }
    PenalisedIs(addr.nTime, penalty);
  }

  lemma FactsMoved(t: Tables, pl: Placement, w: Tables, u: Tables, addr: Address, source: NetAddr, penalty: int, now: int, draw: nat, n: int)
    requires n in w.mapInfo && n in u.mapInfo && SameFacts(w.mapInfo[n], u.mapInfo[n])
    ensures n in t.mapInfo && FactsAfter(pl, t.mapInfo[n], w.mapInfo[n], Announced(addr, source, penalty, now, draw)) ==>
      FactsAfter(pl, t.mapInfo[n], u.mapInfo[n], Announced(addr, source, penalty, now, draw))
  {
  }

  /** An entry just made is kept only with its first slot. */
  lemma FreshPlaced(t: Tables, pl: Placement, addr: Address, source: NetAddr, penalty: int, now: int, draw: nat, n: int)
    requires Consistent(t, pl) && pl.net.routable(addr.service.ip) && addr.service.ip !in t.mapAddr && n == t.nIdCount
    requires CanAdd(t, pl, addr, source, penalty, now, draw) && n in Add(t, pl, addr, source, penalty, now, draw).mapInfo
    ensures Fresh(Add(t, pl, addr, source, penalty, now, draw).mapInfo[n], Announced(addr, source, penalty, now, draw))
  {
    hide Indexed, Placed, Counted, IsTerrible, Orphans, Uint32;
    KnownIsFound(t);
    RegisteredFacts(t, pl, addr, source, penalty, now, draw, n);
    NoSlotYet(t, pl, n);
    var w := Registered(t, addr, source, penalty, now);
    var s := TargetSlot(w, pl, n, source);
    if s in w.newSlots { NewPlacedKnown(t, pl, s); ClearNewOther(w, s, n); }
  }

  lemma NoSlotYet(t: Tables, pl: Placement, n: int)
    requires Consistent(t, pl) && n !in t.mapInfo
    ensures forall s :: s in t.newSlots ==> t.newSlots[s] != n
  {
    forall s | s in t.newSlots ensures t.newSlots[s] != n { assert NewPlaced(t, pl, s); }
  }

  lemma NewPlacedKnown(t: Tables, pl: Placement, s: Slot)
    requires Consistent(t, pl) && s in t.newSlots
    ensures t.newSlots[s] in t.mapInfo && !t.mapInfo[t.newSlots[s]].fInTried
  {
    assert NewPlaced(t, pl, s);
  }

  /** Emptying another's slot leaves an entry alone, but for its place in the random order. */
  lemma ClearNewOther(w: Tables, s: Slot, n: int)
    requires CanClear(w, s) && s in w.newSlots && w.newSlots[s] != n && n in w.mapInfo
    ensures n in ClearNew(w, s).mapInfo && SameEntry(ClearNew(w, s).mapInfo[n], w.mapInfo[n])
  {
  }

  lemma ClearNewFree(w: Tables, s: Slot)
    requires CanClear(w, s)
    ensures s !in w.newSlots ==> ClearNew(w, s) == w
  {
  }

  lemma ClearNewSlots(w: Tables, s: Slot)
    requires CanClear(w, s)
    ensures ClearNew(w, s).newSlots == w.newSlots - {s} && ClearNew(w, s).triedSlots == w.triedSlots && ClearNew(w, s).nIdCount == w.nIdCount
  {
  }

  /** The connection attempts on an entry since its last success, or since it was made. */
  ghost function Failures(pl: Placement, events: seq<Event>, n: int): nat
    requires forall e :: e in events ==> Legal(e)
  {
    if events == [] then 0
    else
      var e, before := events[|events| - 1], events[..|events| - 1];
      assert forall x :: x in before ==> x in events;
      var t := Run(pl, before);
      if n !in t.mapInfo || (e.Succeeded? && e.service == t.mapInfo[n].service) then 0
      else Failures(pl, before, n) + if e.Attempted? && e.service == t.mapInfo[n].service then 1 else 0
  }

  /** Over every run the attempt counter of an entry counts the attempts since its last success. */
  lemma {:induction false} AttemptsCounted(pl: Placement, events: seq<Event>, n: int)
    requires forall e :: e in events ==> Legal(e)
    requires n in Run(pl, events).mapInfo
    ensures Run(pl, events).mapInfo[n].nAttempts == Failures(pl, events, n)
  {
    hide Consistent, Apply;
    if events != [] {
      var e, before := events[|events| - 1], events[..|events| - 1];
      assert forall x :: x in before ==> x in events;
      var t := Run(pl, before);
      EventFacts(t, pl, e, n);
      if n in t.mapInfo { AttemptsCounted(pl, before, n); }
    }
  }

  // ---------------------------------------------------------------- the slots of an entry

  /** How many draws there are for an entry with so many slots; one of them goes on. */
  const DRAWS: seq<nat> := [1, 2, 4, 8, 16, 32, 64, 128]

  /** Whether an entry whose address is announced again gets the slot its announcer points at. */
  ghost predicate GetsAnother(t: Tables, info: AddrInfo, announced: nat, time: nat, slot: Slot, now: int, draw: nat) {
    && !info.fInTried && announced > time && 0 <= info.nRefCount < 8 && draw % DRAWS[info.nRefCount] == 0
    && (slot !in t.newSlots || (t.newSlots[slot] in t.mapInfo && IsTerrible(t.mapInfo[t.newSlots[slot]], now)))
  }

  /**
   Hearing of a known address again. Its entry ends with one more new slot exactly if it is not
   tried, has fewer than eight, is announced with a newer time than is stored for it by now, the
   draw hits one chance in two for each slot it has, and the slot is free or its occupant
   terrible. No other slot changes.
   */
  lemma {:induction false} HeardAgain(t: Tables, pl: Placement, addr: Address, source: NetAddr, penalty: int, now: int, draw: nat)
    requires Consistent(t, pl) && pl.net.routable(addr.service.ip) && addr.service.ip in t.mapAddr
    ensures CanAdd(t, pl, addr, source, penalty, now, draw)
    ensures var id := t.mapAddr[addr.service.ip]; var u := Add(t, pl, addr, source, penalty, now, draw);
      && id in t.mapInfo && id in u.mapInfo
      && var info := t.mapInfo[id]; var slot := pl.NewSlot(info.service, pl.NewBucket(info.service, source));
      && var held := slot in t.newSlots && t.newSlots[slot] == id;
      && var more := !held && GetsAnother(t, info, addr.nTime, HeardTime(info.nTime, addr.nTime, penalty, now), slot, now, draw);
      && u.newSlots == (if more then t.newSlots[slot := id] else t.newSlots) && u.triedSlots == t.triedSlots && u.nIdCount == t.nIdCount
      && u.mapInfo[id].nRefCount == info.nRefCount + (if more then 1 else 0) && u.mapInfo[id].fInTried == info.fInTried
      && (slot in u.newSlots && u.newSlots[slot] == id <==> held || more)
  {
    hide Indexed, Placed, Counted, IsTerrible, Place, CanPlace, Refreshed, HeardTime, Orphans;
    KnownIsFound(t);
    AddConsistent(t, pl, addr, source, penalty, now, draw);
    var id := t.mapAddr[addr.service.ip];
    RefreshedFacts(t.mapInfo[id], addr, penalty, now);
    RegisteredLoose(t, pl, addr, source, penalty, now);
    RefCountBound(t, pl, id);
    HasSlots(t, pl, id);
    if !t.mapInfo[id].fInTried { DrawsArePowers(t.mapInfo[id].nRefCount); }
    if !Stops(t, addr, penalty, now, draw) {
      var w := Registered(t, addr, source, penalty, now);
      PlacedAgain(t, pl, w, id, TargetSlot(w, pl, id, source), now);
    }
  }

  lemma HasSlots(t: Tables, pl: Placement, id: int)
    requires Consistent(t, pl) && id in t.mapInfo
    ensures !t.mapInfo[id].fInTried ==> t.mapInfo[id].nRefCount > 0
  {
    assert id !in Orphans(t);
  }

  lemma DrawsArePowers(n: int)
    requires 0 < n <= 8
    ensures n < 8 ==> Pow2(n) == DRAWS[n]
  {
    assert Pow2(1) == 2 && Pow2(2) == 4 && Pow2(3) == 8 && Pow2(4) == 16;
    assert Pow2(5) == 32 && Pow2(6) == 64 && Pow2(7) == 128;
  }

  /** Exactly one of the draws for an entry gives it another slot, if anything does. */
  lemma OneDraw(info: AddrInfo, draw: nat)
    requires 0 <= info.nRefCount < 8 && draw < DRAWS[info.nRefCount]
    ensures draw % DRAWS[info.nRefCount] == 0 <==> draw == 0
  {
  }

  lemma PlacedAgain(t: Tables, pl: Placement, w: Tables, id: int, s: Slot, now: int)
    requires Consistent(t, pl) && w.newSlots == t.newSlots && Keeps(t, w, {id}) && id in w.mapInfo && w.mapInfo[id].nRefCount > 0
    requires CanPlace(w, id, s, now)
    ensures var u := Place(w, id, s, now);
      var more := !(s in t.newSlots && t.newSlots[s] == id) && (s !in t.newSlots || (t.newSlots[s] in t.mapInfo && IsTerrible(t.mapInfo[t.newSlots[s]], now)));
      && u.newSlots == (if more then t.newSlots[s := id] else t.newSlots) && u.triedSlots == w.triedSlots && u.nIdCount == w.nIdCount
      && id in u.mapInfo && u.mapInfo[id].nRefCount == w.mapInfo[id].nRefCount + (if more then 1 else 0) && u.mapInfo[id].fInTried == w.mapInfo[id].fInTried
  {
    hide Consistent, ClearNew, CanClear, IsTerrible;
    if !(s in t.newSlots && t.newSlots[s] == id) && MayTake(w, id, s, now) { ClearNewSlots(w, s); ClearNewFree(w, s); }
    if s in t.newSlots && t.newSlots[s] != id {
      NewPlacedKnown(t, pl, s);
      var m := t.newSlots[s];
      assert Kept(t, w, m);
      SameTerrible(t.mapInfo[m], w.mapInfo[m], now);
      if MayTake(w, id, s, now) { ClearNewOther(w, s, id); }
    }
  }

  lemma SameTerrible(a: AddrInfo, b: AddrInfo, now: int)
    requires SameEntry(a, b)
    ensures IsTerrible(a, now) <==> IsTerrible(b, now)
  {
  }

  /**
   Hearing of an address for the first time. It is entered in the slot its source points at if
   that is free, or its occupant is terrible or has another; otherwise nothing is entered.
   */
  lemma {:induction false} HeardFirst(t: Tables, pl: Placement, addr: Address, source: NetAddr, penalty: int, now: int, draw: nat)
    requires Consistent(t, pl) && pl.net.routable(addr.service.ip) && addr.service.ip !in t.mapAddr
    ensures CanAdd(t, pl, addr, source, penalty, now, draw)
    ensures var u := Add(t, pl, addr, source, penalty, now, draw); var slot := pl.NewSlot(addr.service, pl.NewBucket(addr.service, source));
      && var stored := slot in t.newSlots ==>
           t.newSlots[slot] in t.mapInfo && (IsTerrible(t.mapInfo[t.newSlots[slot]], now) || t.mapInfo[t.newSlots[slot]].nRefCount > 1);
      && (addr.service.ip in u.mapAddr <==> stored)
      && u.newSlots == (if stored then t.newSlots[slot := t.nIdCount] else t.newSlots) && u.triedSlots == t.triedSlots && u.nIdCount == t.nIdCount + 1
  {
    hide Indexed, Placed, Counted, IsTerrible, Place, CanPlace, Orphans;
    KnownIsFound(t);
    AddStores(t, pl, addr, source, penalty, now, draw);
    AddConsistent(t, pl, addr, source, penalty, now, draw);
    RegisteredLoose(t, pl, addr, source, penalty, now);
    var w := Registered(t, addr, source, penalty, now);
    var s := TargetSlot(w, pl, t.nIdCount, source);
    if s in t.newSlots { NewPlacedKnown(t, pl, s); }
    NoSlotYet(t, pl, t.nIdCount);
    PlacedFirst(t, pl, w, t.nIdCount, s, now);
  }

  lemma PlacedFirst(t: Tables, pl: Placement, w: Tables, id: int, s: Slot, now: int)
    requires Consistent(t, pl) && w.newSlots == t.newSlots && Keeps(t, w, {id}) && id in w.mapInfo && w.mapInfo[id].nRefCount == 0
    requires CanPlace(w, id, s, now) && (s in t.newSlots ==> t.newSlots[s] != id)
    ensures var u := Place(w, id, s, now);
      var stored := s in t.newSlots ==> t.newSlots[s] in t.mapInfo && (IsTerrible(t.mapInfo[t.newSlots[s]], now) || t.mapInfo[t.newSlots[s]].nRefCount > 1);
      u.newSlots == (if stored then t.newSlots[s := id] else t.newSlots) && u.triedSlots == w.triedSlots && u.nIdCount == w.nIdCount
  {
    hide Consistent, ClearNew, CanClear, IsTerrible;
    if MayTake(w, id, s, now) { ClearNewSlots(w, s); }
    if s in t.newSlots {
      NewPlacedKnown(t, pl, s);
      var m := t.newSlots[s];
      assert Kept(t, w, m);
      SameTerrible(t.mapInfo[m], w.mapInfo[m], now);
    }
  }

  /** An address that is not routable changes nothing. */
  lemma HeardInVain(t: Tables, pl: Placement, addr: Address, source: NetAddr, penalty: int, now: int, draw: nat)
    requires !pl.net.routable(addr.service.ip)
    ensures CanAdd(t, pl, addr, source, penalty, now, draw) && Add(t, pl, addr, source, penalty, now, draw) == t
  {
  }

  /**
   A success moves an entry from all its new slots to its one tried slot. Whoever sat there goes
   to the new slot its own source points at, which is its only one; no other slot changes.
   */
  lemma {:induction false} SuccessMoves(t: Tables, pl: Placement, s: Service, time: int)
    requires Consistent(t, pl) && s.ip in t.mapAddr && t.mapAddr[s.ip] in t.mapInfo && t.mapInfo[t.mapAddr[s.ip]].service == s
    ensures CanGood(t, pl, s, time)
    ensures var id, k, u := t.mapAddr[s.ip], pl.TriedSlot(s), Good(t, pl, s, time);
      && id in u.mapInfo && u.mapInfo[id].fInTried && u.triedSlots == t.triedSlots[k := id]
      && (t.mapInfo[id].fInTried ==> u.newSlots == t.newSlots)
      && (!t.mapInfo[id].fInTried && k !in t.triedSlots ==> u.newSlots == t.newSlots - SlotsOf(t.newSlots, id))
      && (!t.mapInfo[id].fInTried && k in t.triedSlots ==>
            && t.triedSlots[k] in t.mapInfo && t.triedSlots[k] in u.mapInfo && !u.mapInfo[t.triedSlots[k]].fInTried
            && u.mapInfo[t.triedSlots[k]].nRefCount == 1
            && var out := t.mapInfo[t.triedSlots[k]];
               u.newSlots == (t.newSlots - SlotsOf(t.newSlots, id))[pl.NewSlot(out.service, pl.NewBucket(out.service, out.source)) := t.triedSlots[k]])
  {
    hide Indexed, Placed, Counted, MakeTried, CanPromote, OwnSlots, Placement.TriedSlot, Placement.NewSlot, Placement.NewBucket, Displaced, Orphans;
    GoodConsistent(t, pl, s, time);
    var id := t.mapAddr[s.ip];
    if !t.mapInfo[id].fInTried {
      GoodPromotes(t, pl, s, time);
      var w := MarkGood(t, id, time);
      OwnAreAll(t, pl, id);
      SameOwnSlots(t, w, pl, id);
      if pl.TriedSlot(s) in t.triedSlots { SeatIsNot(t, pl, pl.TriedSlot(s), id); }
      PromotedSlots(t, w, pl, id);
      if pl.TriedSlot(s) in t.triedSlots {
        TouchLoose(t, w, pl, 0, id);
        MakeTriedLoose(w, pl, id);
        OnlyOneSeat(t, pl, Good(t, pl, s, time), id, pl.TriedSlot(s));
      }
    }
  }

  lemma OwnAreAll(t: Tables, pl: Placement, id: int)
    requires Placed(t, pl) && id in t.mapInfo
    ensures OwnSlots(t, pl, id) == SlotsOf(t.newSlots, id)
  {
    hide Placement.NewSlot;
    forall s | s in SlotsOf(t.newSlots, id) ensures s in OwnSlots(t, pl, id) { assert NewPlaced(t, pl, s); }
  }

  lemma PromotedSlots(t: Tables, w: Tables, pl: Placement, id: int)
    requires id in t.mapInfo && id in w.mapInfo && CanPromote(w, pl, id) && w.newSlots == t.newSlots && w.triedSlots == t.triedSlots
    requires OwnSlots(w, pl, id) == SlotsOf(t.newSlots, id)
    requires forall n :: n in t.mapInfo && n != id ==> n in w.mapInfo && w.mapInfo[n] == t.mapInfo[n]
    requires var k := pl.TriedSlot(w.mapInfo[id].service); k in t.triedSlots ==> t.triedSlots[k] in t.mapInfo && t.triedSlots[k] != id
    ensures var k, u := pl.TriedSlot(w.mapInfo[id].service), MakeTried(w, pl, id);
      && (k !in t.triedSlots ==> u.newSlots == t.newSlots - SlotsOf(t.newSlots, id))
      && (k in t.triedSlots ==>
            var out := t.mapInfo[t.triedSlots[k]];
            u.newSlots == (t.newSlots - SlotsOf(t.newSlots, id))[pl.NewSlot(out.service, pl.NewBucket(out.service, out.source)) := t.triedSlots[k]])
  {
    hide OwnSlots, SlotsOf, Placement.TriedSlot, Placement.NewSlot, Placement.NewBucket;
  }

  lemma OnlyOneSeat(t: Tables, pl: Placement, u: Tables, id: int, k: Slot)
    requires Placed(t, pl) && Placed(u, pl) && k in t.triedSlots && u.triedSlots == t.triedSlots[k := id] && t.triedSlots[k] != id
    requires t.triedSlots[k] in u.mapInfo
    ensures !u.mapInfo[t.triedSlots[k]].fInTried
  {
    hide Placement.TriedSlot, Placement.NewSlot;
    var out := t.triedSlots[k];
    var r := pl.TriedSlot(u.mapInfo[out].service);
    assert EntryPlaced(u, pl, out) && TriedPlaced(t, pl, k);
    assert r in t.triedSlots ==> TriedPlaced(t, pl, r);
  }
}
