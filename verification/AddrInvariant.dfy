/**
 The consistency invariant of the address manager and the proof that every
 operation, and so every run, keeps it.
 */
module AddrInvariant {
  import opened AddrTables

  /** `mapAddr` inverts `mapInfo`, and `vRandom` is a permutation indexed by `nRandomPos`. */
  ghost predicate Indexed(t: Tables) {
    && t.nIdCount >= 0
    && (forall n :: n in t.mapInfo ==> EntryIndexed(t, n))
    && (forall a :: a in t.mapAddr ==> t.mapAddr[a] in t.mapInfo && t.mapInfo[t.mapAddr[a]].service.ip == a)
    && (forall i :: 0 <= i < |t.vRandom| ==> t.vRandom[i] in t.mapInfo && t.mapInfo[t.vRandom[i]].nRandomPos == i)
  }

  ghost predicate EntryIndexed(t: Tables, n: int)
    requires n in t.mapInfo
  {
    var info := t.mapInfo[n];
    && 0 <= n < t.nIdCount
    && info.service.ip in t.mapAddr && t.mapAddr[info.service.ip] == n
    && 0 <= info.nRandomPos < |t.vRandom| && t.vRandom[info.nRandomPos] == n
  }

  /** Every occupied slot belongs to its occupant's own hash, and reference counts are exact. */
  ghost predicate Placed(t: Tables, pl: Placement) {
    && (forall k :: k in t.triedSlots ==> TriedPlaced(t, pl, k))
    && (forall s :: s in t.newSlots ==> NewPlaced(t, pl, s))
    && (forall n :: n in t.mapInfo ==> EntryPlaced(t, pl, n))
  }

  ghost predicate TriedPlaced(t: Tables, pl: Placement, k: Slot)
    requires k in t.triedSlots
  {
    var n := t.triedSlots[k];
    n in t.mapInfo && t.mapInfo[n].fInTried && k == pl.TriedSlot(t.mapInfo[n].service)
  }

  ghost predicate NewPlaced(t: Tables, pl: Placement, s: Slot)
    requires s in t.newSlots
  {
    var n := t.newSlots[s];
    && n in t.mapInfo && !t.mapInfo[n].fInTried
    && s == pl.NewSlot(t.mapInfo[n].service, s.bucket) && s.bucket < NEW_BUCKET_COUNT
  }

  ghost predicate EntryPlaced(t: Tables, pl: Placement, n: int)
    requires n in t.mapInfo
  {
    var info := t.mapInfo[n];
    var k := pl.TriedSlot(info.service);
    && (info.fInTried ==> k in t.triedSlots && t.triedSlots[k] == n)
    && info.nRefCount == |SlotsOf(t.newSlots, n)| <= NEW_BUCKETS_PER_ADDRESS
  }

  ghost function TriedIds(t: Tables): set<int> { set n | n in t.mapInfo && t.mapInfo[n].fInTried }

  ghost function NewIds(t: Tables): set<int> { set n | n in t.mapInfo && !t.mapInfo[n].fInTried }

  /** Entries with no slot in either table. */
  ghost function Orphans(t: Tables): set<int> {
    set n | n in t.mapInfo && !t.mapInfo[n].fInTried && t.mapInfo[n].nRefCount == 0
  }

  /** The counters are exact, except that `off` new entries are not counted yet. */
  ghost predicate Counted(t: Tables, off: int) {
    t.nTried == |TriedIds(t)| && t.nNew + off == |NewIds(t)|
  }

  /** What holds between the steps of an operation as well. */
  ghost predicate Loose(t: Tables, pl: Placement, off: int) {
    Indexed(t) && Placed(t, pl) && Counted(t, off)
  }

  ghost predicate Timed(t: Tables) {
    forall n :: n in t.mapInfo ==>
      && t.mapInfo[n].nLastTry >= 0 && t.mapInfo[n].nLastSuccess >= 0
      && (t.mapInfo[n].fInTried ==> t.mapInfo[n].nLastSuccess > 0)
  }

  /** The full invariant: what the debug checker of the manager looks for, and more. */
  ghost predicate Consistent(t: Tables, pl: Placement) {
    Loose(t, pl, 0) && Orphans(t) == {} && Timed(t)
  }

  /** Two entries agree on everything but the place in `vRandom`. */
  ghost predicate SameEntry(a: AddrInfo, b: AddrInfo) {
    a == b.(nRandomPos := a.nRandomPos)
  }

  /** All entries of `t` but those in `ex` are entries of `u`, up to the place in `vRandom`. */
  ghost predicate Keeps(t: Tables, u: Tables, ex: set<int>) {
    forall n :: n in t.mapInfo && n !in ex ==> Kept(t, u, n)
  }

  ghost predicate Kept(t: Tables, u: Tables, n: int)
    requires n in t.mapInfo
  {
    n in u.mapInfo && SameEntry(u.mapInfo[n], t.mapInfo[n])
  }

  // ---------------------------------------------------------------- steps

  lemma CreateLoose(t: Tables, pl: Placement, off: int, addr: Address, source: NetAddr)
    requires Loose(t, pl, off) && addr.service.ip !in t.mapAddr
    ensures Loose(Create(t, addr, source), pl, off + 1)
    ensures Orphans(Create(t, addr, source)) == Orphans(t) + {t.nIdCount}
    ensures Keeps(t, Create(t, addr, source), {})
  {
    hide Indexed, Placed, Counted;
    var u := Create(t, addr, source);
    var id := t.nIdCount;
    CreateIndexed(t, addr, source);
    CreatePlaced(t, pl, addr, source);
    CreateCounts(t, u, id, off);
  }

  lemma CreateCounts(t: Tables, u: Tables, id: int, off: int)
    requires Counted(t, off) && id !in t.mapInfo && id in u.mapInfo && u.mapInfo == t.mapInfo[id := u.mapInfo[id]]
    requires !u.mapInfo[id].fInTried && u.mapInfo[id].nRefCount == 0 && u.nTried == t.nTried && u.nNew == t.nNew
    ensures Counted(u, off + 1) && Orphans(u) == Orphans(t) + {id} && Keeps(t, u, {})
  {
    hide TriedIds, NewIds, Orphans;
    CreateTried(t, u, id);
    CreateNew(t, u, id);
    CreateOrphans(t, u, id);
  }

  lemma CreateTried(t: Tables, u: Tables, id: int)
    requires id !in t.mapInfo && id in u.mapInfo && u.mapInfo == t.mapInfo[id := u.mapInfo[id]] && !u.mapInfo[id].fInTried
    ensures TriedIds(u) == TriedIds(t)
  {
    assert forall n :: n in TriedIds(u) <==> n in TriedIds(t);
  }

  lemma CreateNew(t: Tables, u: Tables, id: int)
    requires id !in t.mapInfo && id in u.mapInfo && u.mapInfo == t.mapInfo[id := u.mapInfo[id]] && !u.mapInfo[id].fInTried
    ensures NewIds(u) == NewIds(t) + {id} && id !in NewIds(t)
  {
    assert forall n :: n in NewIds(u) <==> n in NewIds(t) + {id};
  }

  lemma CreateOrphans(t: Tables, u: Tables, id: int)
    requires id !in t.mapInfo && id in u.mapInfo && u.mapInfo == t.mapInfo[id := u.mapInfo[id]]
    requires !u.mapInfo[id].fInTried && u.mapInfo[id].nRefCount == 0
    ensures Orphans(u) == Orphans(t) + {id}
  {
    assert forall n :: n in Orphans(u) <==> n in Orphans(t) + {id};
  }

  lemma CreateIndexed(t: Tables, addr: Address, source: NetAddr)
    requires Indexed(t) && addr.service.ip !in t.mapAddr
    ensures Indexed(Create(t, addr, source)) && t.nIdCount !in t.mapInfo
  {
    var u := Create(t, addr, source);
    assert forall n :: n in t.mapInfo ==> EntryIndexed(t, n);
    forall n | n in u.mapInfo ensures EntryIndexed(u, n) {
      if n != t.nIdCount { assert EntryIndexed(t, n); }
    }
  }

  lemma CreatePlaced(t: Tables, pl: Placement, addr: Address, source: NetAddr)
    requires Placed(t, pl) && t.nIdCount !in t.mapInfo
    ensures Placed(Create(t, addr, source), pl)
  {
    var u := Create(t, addr, source);
    forall k | k in u.triedSlots ensures TriedPlaced(u, pl, k) { assert TriedPlaced(t, pl, k); }
    forall s | s in u.newSlots ensures NewPlaced(u, pl, s) { assert NewPlaced(t, pl, s); }
    forall n | n in u.mapInfo ensures EntryPlaced(u, pl, n) {
      if n != t.nIdCount { assert EntryPlaced(t, pl, n); }
      else { assert SlotsOf(t.newSlots, n) == {} by { assert forall s :: s in t.newSlots ==> NewPlaced(t, pl, s); } }
    }
  }

  lemma SwapIndexed(t: Tables, p1: int, p2: int)
    requires Indexed(t) && 0 <= p1 < |t.vRandom| && 0 <= p2 < |t.vRandom|
    ensures CanSwap(t, p1, p2)
    ensures var u := SwapRandom(t, p1, p2); Indexed(u) && SameIds(t, u) && Keeps(t, u, {})
  {
    if p1 != p2 {
      var u := SwapRandom(t, p1, p2);
      var id1, id2 := t.vRandom[p1], t.vRandom[p2];
      assert id1 != id2;
      forall n | n in t.mapInfo ensures Kept(t, u, n) && EntryIndexed(u, n) { assert EntryIndexed(t, n); }
      forall i | 0 <= i < |u.vRandom| ensures u.vRandom[i] in u.mapInfo && u.mapInfo[u.vRandom[i]].nRandomPos == i {
        assert t.mapInfo[t.vRandom[i]].nRandomPos == i;
      }
    }
  }

  ghost predicate SameIds(t: Tables, u: Tables) {
    forall n :: n in t.mapInfo <==> n in u.mapInfo
  }

  /** Changing only places in `vRandom` keeps slots and counts. */
  lemma MovedLoose(t: Tables, u: Tables, pl: Placement, off: int)
    requires Placed(t, pl) && Counted(t, off)
    requires SameIds(t, u) && Keeps(t, u, {})
    requires u.newSlots == t.newSlots && u.triedSlots == t.triedSlots && u.nTried == t.nTried && u.nNew == t.nNew
    ensures Placed(u, pl) && Counted(u, off) && Orphans(u) == Orphans(t)
  {
    assert forall n :: n in t.mapInfo ==> Kept(t, u, n);
    forall k | k in u.triedSlots ensures TriedPlaced(u, pl, k) { assert TriedPlaced(t, pl, k); }
    forall s | s in u.newSlots ensures NewPlaced(u, pl, s) { assert NewPlaced(t, pl, s); }
    forall n | n in u.mapInfo ensures EntryPlaced(u, pl, n) { assert EntryPlaced(t, pl, n); }
    SameCounts(t, u, off);
  }

  lemma SameCounts(t: Tables, u: Tables, off: int)
    requires SameIds(t, u) && Keeps(t, u, {}) && Counted(t, off) && u.nTried == t.nTried && u.nNew == t.nNew
    ensures Counted(u, off) && Orphans(u) == Orphans(t)
  {
    forall n | n in t.mapInfo ensures u.mapInfo[n].fInTried == t.mapInfo[n].fInTried && u.mapInfo[n].nRefCount == t.mapInfo[n].nRefCount {
      assert Kept(t, u, n);
    }
    assert forall n :: n in TriedIds(u) <==> n in TriedIds(t);
    assert TriedIds(u) == TriedIds(t);
    assert forall n :: n in NewIds(u) <==> n in NewIds(t);
    assert NewIds(u) == NewIds(t);
    assert forall n :: n in Orphans(u) <==> n in Orphans(t);
  }

  lemma DeleteLoose(t: Tables, pl: Placement, off: int, id: int)
    requires Loose(t, pl, off) && id in Orphans(t)
    ensures CanDelete(t, id)
    ensures Loose(Delete(t, id), pl, off)
    ensures Orphans(Delete(t, id)) == Orphans(t) - {id}
    ensures Keeps(t, Delete(t, id), {id})
    ensures forall n :: n in Delete(t, id).mapInfo <==> n in t.mapInfo && n != id
  {
    hide Indexed, Placed, Counted;
    var last := |t.vRandom| - 1;
    var w := MoveLast(t, pl, off, id);
    PopLoose(w, pl, off, id);
    forall n | n in t.mapInfo && n != id ensures Kept(t, Delete(t, id), n) {
      assert Kept(t, w, n) && Kept(w, Delete(t, id), n);
    }
  }

  lemma MoveLast(t: Tables, pl: Placement, off: int, id: int) returns (w: Tables)
    requires Loose(t, pl, off) && id in t.mapInfo
    ensures CanDelete(t, id) && w == SwapRandom(t, t.mapInfo[id].nRandomPos, |t.vRandom| - 1)
    ensures Loose(w, pl, off) && SameIds(t, w) && Keeps(t, w, {}) && Orphans(w) == Orphans(t)
    ensures w.mapInfo[id].service == t.mapInfo[id].service
    ensures |w.vRandom| == |t.vRandom| && w.vRandom[|w.vRandom| - 1] == id
  {
    assert EntryIndexed(t, id);
    SwapIndexed(t, t.mapInfo[id].nRandomPos, |t.vRandom| - 1);
    w := SwapRandom(t, t.mapInfo[id].nRandomPos, |t.vRandom| - 1);
    MovedLoose(t, w, pl, off);
    assert Kept(t, w, id);
  }

  /** The entry last in `vRandom`, when it has no slot, can go. */
  lemma PopLoose(w: Tables, pl: Placement, off: int, id: int)
    requires Loose(w, pl, off) && id in Orphans(w) && |w.vRandom| > 0 && w.vRandom[|w.vRandom| - 1] == id
    ensures var u := w.(vRandom := w.vRandom[..|w.vRandom| - 1], mapAddr := w.mapAddr - {w.mapInfo[id].service.ip},
                        mapInfo := w.mapInfo - {id}, nNew := w.nNew - 1);
      Loose(u, pl, off) && Orphans(u) == Orphans(w) - {id} && Keeps(w, u, {id})
  {
    var u := w.(vRandom := w.vRandom[..|w.vRandom| - 1], mapAddr := w.mapAddr - {w.mapInfo[id].service.ip},
                mapInfo := w.mapInfo - {id}, nNew := w.nNew - 1);
    assert EntryIndexed(w, id);
    forall n | n in u.mapInfo ensures EntryIndexed(u, n) { assert EntryIndexed(w, n); }
    PopPlaced(w, u, pl, id);
    assert NewIds(u) == NewIds(w) - {id};
    assert TriedIds(u) == TriedIds(w);
  }

  lemma PopPlaced(w: Tables, u: Tables, pl: Placement, id: int)
    requires Placed(w, pl) && id in Orphans(w)
    requires u.mapInfo == w.mapInfo - {id} && u.newSlots == w.newSlots && u.triedSlots == w.triedSlots
    ensures Placed(u, pl)
  {
    assert EntryPlaced(w, pl, id);
    assert forall s :: s in w.newSlots && w.newSlots[s] == id ==> s in SlotsOf(w.newSlots, id);
    forall k | k in u.triedSlots ensures TriedPlaced(u, pl, k) { assert TriedPlaced(w, pl, k); }
    forall s | s in u.newSlots ensures NewPlaced(u, pl, s) { assert NewPlaced(w, pl, s); }
    forall n | n in u.mapInfo ensures EntryPlaced(u, pl, n) { assert EntryPlaced(w, pl, n); }
  }

  /** One entry is rewritten; its address and its place in `vRandom` stay. */
  ghost predicate Edited(t: Tables, u: Tables, id: int) {
    && id in t.mapInfo && id in u.mapInfo && u.mapInfo == t.mapInfo[id := u.mapInfo[id]]
    && u.mapInfo[id].service == t.mapInfo[id].service && u.mapInfo[id].nRandomPos == t.mapInfo[id].nRandomPos
    && u.mapAddr == t.mapAddr && u.vRandom == t.vRandom && u.nIdCount == t.nIdCount
  }

  lemma EditedIndexed(t: Tables, u: Tables, id: int)
    requires Indexed(t) && Edited(t, u, id)
    ensures Indexed(u) && SameIds(t, u) && Keeps(t, u, {id})
  {
    forall n | n in u.mapInfo ensures EntryIndexed(u, n) { assert EntryIndexed(t, n); }
  }

  /** How many entries are tried and how many are new, after one entry is rewritten. */
  lemma EditedCounts(t: Tables, u: Tables, id: int, off: int)
    requires Edited(t, u, id) && Counted(t, off) && u.mapInfo[id].fInTried == t.mapInfo[id].fInTried
    ensures |TriedIds(u)| == t.nTried && |NewIds(u)| == t.nNew + off
  {
    assert forall n :: n in TriedIds(u) <==> n in TriedIds(t);
    assert TriedIds(u) == TriedIds(t);
    assert forall n :: n in NewIds(u) <==> n in NewIds(t);
    assert NewIds(u) == NewIds(t);
  }

  lemma DemotedCounts(t: Tables, u: Tables, id: int, off: int)
    requires Edited(t, u, id) && Counted(t, off) && t.mapInfo[id].fInTried && !u.mapInfo[id].fInTried
    ensures |TriedIds(u)| == t.nTried - 1 && |NewIds(u)| == t.nNew + off + 1
  {
    assert forall n :: n in TriedIds(u) <==> n in TriedIds(t) - {id};
    assert TriedIds(u) == TriedIds(t) - {id};
    assert forall n :: n in NewIds(u) <==> n in NewIds(t) + {id};
    assert NewIds(u) == NewIds(t) + {id};
  }

  lemma PromotedCounts(t: Tables, u: Tables, id: int, off: int)
    requires Edited(t, u, id) && Counted(t, off) && !t.mapInfo[id].fInTried && u.mapInfo[id].fInTried
    ensures |TriedIds(u)| == t.nTried + 1 && |NewIds(u)| == t.nNew + off - 1
  {
    assert forall n :: n in TriedIds(u) <==> n in TriedIds(t) + {id};
    assert TriedIds(u) == TriedIds(t) + {id};
    assert forall n :: n in NewIds(u) <==> n in NewIds(t) - {id};
    assert NewIds(u) == NewIds(t) - {id};
  }

  /** Rewriting one entry's reference count and new slots together. */
  lemma NewEditPlaced(t: Tables, u: Tables, pl: Placement, id: int)
    requires Placed(t, pl) && Edited(t, u, id) && u.triedSlots == t.triedSlots
    requires u.mapInfo[id].fInTried == t.mapInfo[id].fInTried
    requires forall s :: s in u.newSlots ==> if u.newSlots[s] == id then NewPlaced(u, pl, s) else s in t.newSlots && t.newSlots[s] == u.newSlots[s]
    requires forall s :: s in t.newSlots && t.newSlots[s] != id ==> s in u.newSlots && u.newSlots[s] == t.newSlots[s]
    requires u.mapInfo[id].nRefCount == |SlotsOf(u.newSlots, id)| <= NEW_BUCKETS_PER_ADDRESS
    ensures Placed(u, pl)
  {
    forall k | k in u.triedSlots ensures TriedPlaced(u, pl, k) { assert TriedPlaced(t, pl, k); }
    forall s | s in u.newSlots ensures NewPlaced(u, pl, s) { if u.newSlots[s] != id { assert NewPlaced(t, pl, s); } }
    forall n | n in u.mapInfo ensures EntryPlaced(u, pl, n) {
      assert EntryPlaced(t, pl, n);
      if n != id {
        assert forall s :: s in SlotsOf(u.newSlots, n) <==> s in SlotsOf(t.newSlots, n);
        assert SlotsOf(u.newSlots, n) == SlotsOf(t.newSlots, n);
      }
    }
  }

  lemma ReleaseLoose(t: Tables, pl: Placement, off: int, s: Slot)
    requires Loose(t, pl, off) && s in t.newSlots
    ensures t.newSlots[s] in t.mapInfo && t.mapInfo[t.newSlots[s]].nRefCount >= 1
    ensures Loose(Release(t, s), pl, off)
    ensures Keeps(t, Release(t, s), {t.newSlots[s]}) && SameIds(t, Release(t, s))
    ensures !t.mapInfo[t.newSlots[s]].fInTried
  {
    hide Indexed, Placed;
    ReleasePlaced(t, pl, s);
    var id := t.newSlots[s];
    var u := Release(t, s);
    EditedIndexed(t, u, id);
    EditedCounts(t, u, id, off);
  }

  lemma ReleasePlaced(t: Tables, pl: Placement, s: Slot)
    requires Placed(t, pl) && s in t.newSlots
    ensures NewPlaced(t, pl, s) && t.mapInfo[t.newSlots[s]].nRefCount >= 1
    ensures Placed(Release(t, s), pl)
  {
    var id := t.newSlots[s];
    assert NewPlaced(t, pl, s) && EntryPlaced(t, pl, id);
    var u := Release(t, s);
    assert s in SlotsOf(t.newSlots, id);
    assert SlotsOf(u.newSlots, id) == SlotsOf(t.newSlots, id) - {s};
    forall r | r in u.newSlots && u.newSlots[r] == id ensures NewPlaced(u, pl, r) { assert NewPlaced(t, pl, r); }
    NewEditPlaced(t, u, pl, id);
  }

  lemma SameOrphans(t: Tables, u: Tables, ex: set<int>)
    requires Keeps(t, u, ex) && (forall n :: n in u.mapInfo ==> n in t.mapInfo)
    requires forall n :: n in ex ==> n !in Orphans(t) && n !in Orphans(u)
    ensures Orphans(u) == Orphans(t)
  {
    forall n ensures n in Orphans(u) <==> n in Orphans(t) {
      if n in t.mapInfo && n !in ex { assert Kept(t, u, n); }
    }
  }

  lemma {:induction false} ClearNewLoose(t: Tables, pl: Placement, off: int, s: Slot)
    requires Loose(t, pl, off)
    ensures CanClear(t, s)
    ensures var u := ClearNew(t, s);
      && Loose(u, pl, off) && Orphans(u) == Orphans(t)
      && u.newSlots == t.newSlots - {s} && u.triedSlots == t.triedSlots
      && Keeps(t, u, if s in t.newSlots then {t.newSlots[s]} else {})
      && (forall n :: n in u.mapInfo ==> n in t.mapInfo)
      && u.nIdCount == t.nIdCount
  {
    hide Indexed, Placed, Counted;
    if s in t.newSlots {
      var id := t.newSlots[s];
      ReleaseLoose(t, pl, off, s);
      var w := Release(t, s);
      if t.mapInfo[id].nRefCount == 1 {
        DeleteLoose(w, pl, off, id);
        forall n | n in t.mapInfo && n != id ensures Kept(t, Delete(w, id), n) {
          assert Kept(t, w, n) && Kept(w, Delete(w, id), n);
        }
      }
      SameOrphans(t, ClearNew(t, s), {id});
    }
  }

  lemma AttachLoose(t: Tables, pl: Placement, off: int, id: int, s: Slot)
    requires Loose(t, pl, off) && id in t.mapInfo && !t.mapInfo[id].fInTried && s !in t.newSlots
    requires t.mapInfo[id].nRefCount < NEW_BUCKETS_PER_ADDRESS
    requires s.bucket < NEW_BUCKET_COUNT && s == pl.NewSlot(t.mapInfo[id].service, s.bucket)
    ensures Loose(Attach(t, id, s), pl, off) && Keeps(t, Attach(t, id, s), {id})
    ensures Orphans(Attach(t, id, s)) == Orphans(t) - {id}
  {
    hide Indexed, Placed;
    var u := Attach(t, id, s);
    EditedIndexed(t, u, id);
    EditedCounts(t, u, id, off);
    AttachPlaced(t, pl, id, s);
    assert forall n :: n in Orphans(u) <==> n in Orphans(t) - {id};
  }

  lemma AttachPlaced(t: Tables, pl: Placement, id: int, s: Slot)
    requires Placed(t, pl) && id in t.mapInfo && !t.mapInfo[id].fInTried && s !in t.newSlots
    requires t.mapInfo[id].nRefCount < NEW_BUCKETS_PER_ADDRESS
    requires s.bucket < NEW_BUCKET_COUNT && s == pl.NewSlot(t.mapInfo[id].service, s.bucket)
    ensures Placed(Attach(t, id, s), pl) && Attach(t, id, s).mapInfo[id].nRefCount > 0
  {
    hide Placement.TriedSlot, Placement.NewSlot;
    var u := Attach(t, id, s);
    assert EntryPlaced(t, pl, id);
    assert SlotsOf(u.newSlots, id) == SlotsOf(t.newSlots, id) + {s};
    forall r | r in u.newSlots && u.newSlots[r] == id ensures NewPlaced(u, pl, r) {
      if r != s { assert NewPlaced(t, pl, r); }
    }
    NewEditPlaced(t, u, pl, id);
  }

  /** Every new slot of an entry is at the position its own hash gives, so taking those takes all. */
  lemma DetachLoose(t: Tables, pl: Placement, off: int, id: int)
    requires Loose(t, pl, off) && id in t.mapInfo && !t.mapInfo[id].fInTried
    ensures var u := Detach(t, pl, id);
      && Loose(u, pl, off) && Keeps(t, u, {id}) && SameIds(t, u)
      && u.mapInfo[id].nRefCount == 0 && SlotsOf(u.newSlots, id) == {}
      && Orphans(u) == Orphans(t) + {id}
    ensures |OwnSlots(t, pl, id)| == t.mapInfo[id].nRefCount
  {
    hide Indexed, Placed;
    var u := Detach(t, pl, id);
    DetachPlaced(t, pl, id);
    EditedIndexed(t, u, id);
    EditedCounts(t, u, id, off);
    assert forall n :: n in Orphans(u) <==> n in Orphans(t) + {id};
  }

  lemma DetachPlaced(t: Tables, pl: Placement, id: int)
    requires Placed(t, pl) && id in t.mapInfo && !t.mapInfo[id].fInTried
    ensures Placed(Detach(t, pl, id), pl)
    ensures SlotsOf(Detach(t, pl, id).newSlots, id) == {}
    ensures |OwnSlots(t, pl, id)| == t.mapInfo[id].nRefCount
  {
    var u := Detach(t, pl, id);
    forall s | s in SlotsOf(t.newSlots, id) ensures s in OwnSlots(t, pl, id) { assert NewPlaced(t, pl, s); }
    assert OwnSlots(t, pl, id) == SlotsOf(t.newSlots, id);
    assert EntryPlaced(t, pl, id);
    assert SlotsOf(u.newSlots, id) == {};
    NewEditPlaced(t, u, pl, id);
  }

  lemma UnseatLoose(t: Tables, pl: Placement, off: int, k: Slot)
    requires Loose(t, pl, off) && k in t.triedSlots
    ensures t.triedSlots[k] in t.mapInfo && t.mapInfo[t.triedSlots[k]].fInTried
    ensures var u := Unseat(t, k);
      && Loose(u, pl, off + 1) && Keeps(t, u, {t.triedSlots[k]}) && SameIds(t, u)
      && Orphans(u) == Orphans(t) + {t.triedSlots[k]} && k == pl.TriedSlot(t.mapInfo[t.triedSlots[k]].service)
  {
    hide Indexed, Placed;
    UnseatPlaced(t, pl, k);
    var out := t.triedSlots[k];
    var u := Unseat(t, k);
    EditedIndexed(t, u, out);
    DemotedCounts(t, u, out, off);
    forall n ensures n in Orphans(u) <==> n in Orphans(t) + {out} { }
  }

  lemma UnseatPlaced(t: Tables, pl: Placement, k: Slot)
    requires Placed(t, pl) && k in t.triedSlots
    ensures TriedPlaced(t, pl, k) && Placed(Unseat(t, k), pl) && t.mapInfo[t.triedSlots[k]].nRefCount == 0
  {
    assert TriedPlaced(t, pl, k);
    var out := t.triedSlots[k];
    var u := Unseat(t, k);
    assert EntryPlaced(t, pl, out);
    forall s | s in u.newSlots ensures NewPlaced(u, pl, s) && u.newSlots[s] != out { assert NewPlaced(t, pl, s); }
    assert SlotsOf(t.newSlots, out) == {};
    forall r | r in u.triedSlots ensures TriedPlaced(u, pl, r) { assert TriedPlaced(t, pl, r); }
    forall n | n in u.mapInfo ensures EntryPlaced(u, pl, n) { assert EntryPlaced(t, pl, n); }
  }

  lemma SeatLoose(t: Tables, pl: Placement, off: int, id: int, k: Slot)
    requires Loose(t, pl, off) && id in Orphans(t) && k !in t.triedSlots && k == pl.TriedSlot(t.mapInfo[id].service)
    ensures Loose(Seat(t, id, k), pl, off - 1) && Keeps(t, Seat(t, id, k), {id})
    ensures Orphans(Seat(t, id, k)) == Orphans(t) - {id}
  {
    hide Indexed, Placed;
    var u := Seat(t, id, k);
    EditedIndexed(t, u, id);
    PromotedCounts(t, u, id, off);
    SeatPlaced(t, pl, id, k);
    forall n ensures n in Orphans(u) <==> n in Orphans(t) - {id} { }
  }

  lemma SeatPlaced(t: Tables, pl: Placement, id: int, k: Slot)
    requires Placed(t, pl) && id in Orphans(t) && k !in t.triedSlots && k == pl.TriedSlot(t.mapInfo[id].service)
    ensures Placed(Seat(t, id, k), pl)
  {
    var u := Seat(t, id, k);
    assert EntryPlaced(t, pl, id);
    forall s | s in u.newSlots ensures NewPlaced(u, pl, s) {
      assert NewPlaced(t, pl, s);
      assert u.newSlots[s] == id ==> s in SlotsOf(t.newSlots, id);
    }
    forall r | r in u.triedSlots ensures TriedPlaced(u, pl, r) { if r != k { assert TriedPlaced(t, pl, r); } }
    forall n | n in u.mapInfo ensures EntryPlaced(u, pl, n) { assert EntryPlaced(t, pl, n); }
  }

  // ------------------------------------------------- what the steps never touch

  /** Two entries agree on everything but where they are listed. */
  ghost predicate SameFacts(a: AddrInfo, b: AddrInfo) {
    a.(nRefCount := b.nRefCount, fInTried := b.fInTried, nRandomPos := b.nRandomPos) == b
  }

  ghost predicate SameRecord(t: Tables, u: Tables, n: int)
    requires n in u.mapInfo
  {
    n in t.mapInfo && SameFacts(t.mapInfo[n], u.mapInfo[n])
  }

  /** The entries of `u` are entries of `t`, moved at most. */
  ghost predicate Inherits(t: Tables, u: Tables) {
    forall n :: n in u.mapInfo ==> SameRecord(t, u, n)
  }

  lemma InheritsTrans(t: Tables, u: Tables, v: Tables)
    requires Inherits(t, u) && Inherits(u, v)
    ensures Inherits(t, v)
  {
    forall n | n in v.mapInfo ensures SameRecord(t, v, n) { assert SameRecord(u, v, n) && SameRecord(t, u, n); }
  }

  lemma DeleteInherits(t: Tables, id: int)
    requires CanDelete(t, id)
    ensures Inherits(t, Delete(t, id))
  {
  }

  lemma ClearNewInherits(t: Tables, s: Slot)
    requires CanClear(t, s)
    ensures Inherits(t, ClearNew(t, s))
  {
    if s in t.newSlots {
      var w := Release(t, s);
      assert Inherits(t, w);
      if t.mapInfo[t.newSlots[s]].nRefCount == 1 {
        DeleteInherits(w, t.newSlots[s]);
        InheritsTrans(t, w, Delete(w, t.newSlots[s]));
      }
    }
  }

  lemma {:induction false} EvictInherits(t: Tables, pl: Placement, k: Slot)
    requires CanEvict(t, pl, k)
    ensures Inherits(t, Evict(t, pl, k))
  {
    if k in t.triedSlots {
      var out := t.triedSlots[k];
      var home := HomeSlot(pl, t.mapInfo[out]);
      var w := Unseat(t, k);
      assert Inherits(t, w);
      ClearNewInherits(w, home);
      var x := ClearNew(w, home);
      InheritsTrans(t, w, x);
      assert Inherits(x, Rehome(x, out, home));
      InheritsTrans(t, x, Rehome(x, out, home));
    }
  }

  lemma {:induction false} MakeTriedInherits(t: Tables, pl: Placement, id: int)
    requires CanPromote(t, pl, id)
    ensures Inherits(t, MakeTried(t, pl, id))
  {
    var k := pl.TriedSlot(t.mapInfo[id].service);
    var w := Unlisted(t, pl, id);
    assert Inherits(t, w);
    EvictInherits(w, pl, k);
    var x := Evict(w, pl, k);
    InheritsTrans(t, w, x);
    assert Inherits(x, Seat(x, id, k));
    InheritsTrans(t, x, Seat(x, id, k));
  }

  // ---------------------------------------------------------------- promotion

  /** The entries that may be moved or dropped when a tried slot is vacated. */
  ghost function Displaced(t: Tables, pl: Placement, k: Slot): set<int> {
    if k in t.triedSlots && t.triedSlots[k] in t.mapInfo then
      var home := HomeSlot(pl, t.mapInfo[t.triedSlots[k]]);
      {t.triedSlots[k]} + if home in t.newSlots then {t.newSlots[home]} else {}
    else {}
  }

  lemma Recount(t: Tables, pl: Placement, off: int, d: int)
    requires Loose(t, pl, off)
    ensures Loose(t.(nNew := t.nNew + d), pl, off - d) && Orphans(t.(nNew := t.nNew + d)) == Orphans(t)
  {
    var u := t.(nNew := t.nNew + d);
    forall n | n in u.mapInfo ensures EntryIndexed(u, n) && EntryPlaced(u, pl, n) {
      assert EntryIndexed(t, n) && EntryPlaced(t, pl, n);
    }
    forall k | k in u.triedSlots ensures TriedPlaced(u, pl, k) { assert TriedPlaced(t, pl, k); }
    forall s | s in u.newSlots ensures NewPlaced(u, pl, s) { assert NewPlaced(t, pl, s); }
    assert TriedIds(u) == TriedIds(t) && NewIds(u) == NewIds(t);
  }

  lemma KeepsTrans(t: Tables, u: Tables, v: Tables, a: set<int>, b: set<int>, c: set<int>)
    requires Keeps(t, u, a) && Keeps(u, v, b) && a + b <= c
    ensures Keeps(t, v, c)
  {
    forall n | n in t.mapInfo && n !in c ensures Kept(t, v, n) { assert Kept(t, u, n) && Kept(u, v, n); }
  }

  lemma {:induction false} EvictLoose(t: Tables, pl: Placement, off: int, k: Slot)
    requires Loose(t, pl, off)
    ensures CanEvict(t, pl, k)
    ensures var u := Evict(t, pl, k);
      && Loose(u, pl, off) && Orphans(u) == Orphans(t)
      && u.triedSlots == t.triedSlots - {k} && Keeps(t, u, Displaced(t, pl, k))
    ensures k in t.triedSlots ==>
      var out := t.triedSlots[k]; var u := Evict(t, pl, k);
      out in t.mapInfo && out in u.mapInfo && u.mapInfo[out].nRefCount == 1 && !u.mapInfo[out].fInTried
  {
    hide Indexed, Placed, Counted;
    if k in t.triedSlots {
      var out := t.triedSlots[k];
      UnseatLoose(t, pl, off, k);
      var w := Unseat(t, k);
      var home := HomeSlot(pl, t.mapInfo[out]);
      ClearNewLoose(w, pl, off + 1, home);
      ClearNewInherits(w, home);
      var x := ClearNew(w, home);
      assert out in Orphans(x);
      assert SameRecord(w, x, out);
      AttachLoose(x, pl, off + 1, out, home);
      var u := Rehome(x, out, home);
      assert u == Attach(x, out, home).(nNew := x.nNew + 1);
      Recount(Attach(x, out, home), pl, off + 1, 1);
      assert Keeps(x, u, {out});
      KeepsTrans(t, w, x, {out}, Displaced(t, pl, k), Displaced(t, pl, k));
      KeepsTrans(t, x, u, Displaced(t, pl, k), {out}, Displaced(t, pl, k));
      assert Orphans(t) + {out} - {out} == Orphans(t) by { assert out !in Orphans(t); }
    }
  }

  /** Out of the new table, and not counted there any more. */
  lemma UnlistedLoose(t: Tables, pl: Placement, id: int)
    requires Loose(t, pl, 0) && id in t.mapInfo && !t.mapInfo[id].fInTried
    ensures var w := Unlisted(t, pl, id);
      && Loose(w, pl, 1) && Orphans(w) == Orphans(t) + {id} && Keeps(t, w, {id}) && w.triedSlots == t.triedSlots
      && id in w.mapInfo && w.mapInfo[id].service == t.mapInfo[id].service
  {
    hide Indexed, Placed, Counted, Orphans;
    DetachLoose(t, pl, 0, id);
    Recount(Detach(t, pl, id), pl, 0, -1);
  }

  /** The slot vacated and the entry seated there. */
  lemma SeatEvicted(w: Tables, pl: Placement, id: int, k: Slot)
    requires Loose(w, pl, 1) && id in Orphans(w) && id in w.mapInfo && k == pl.TriedSlot(w.mapInfo[id].service)
    requires k in w.triedSlots ==> w.triedSlots[k] != id
    ensures CanEvict(w, pl, k) && id in Evict(w, pl, k).mapInfo
    ensures var u := Seat(Evict(w, pl, k), id, k);
      && Loose(u, pl, 0) && Orphans(u) == Orphans(w) - {id}
      && u.triedSlots == w.triedSlots[k := id] && id in u.mapInfo && u.mapInfo[id].fInTried
      && Keeps(w, u, {id} + Displaced(w, pl, k))
      && (k in w.triedSlots ==> w.triedSlots[k] in u.mapInfo && u.mapInfo[w.triedSlots[k]].nRefCount == 1)
  {
    hide Indexed, Placed, Counted, Displaced, Evict, Placement.TriedSlot, Placement.NewSlot, SameFacts;
    EvictLoose(w, pl, 1, k);
    var x := Evict(w, pl, k);
    OrphansExist(x, id);
    EvictInherits(w, pl, k);
    assert SameRecord(w, x, id);
    SameService(w.mapInfo[id], x.mapInfo[id]);
    SeatLoose(x, pl, 1, id, k);
    KeepsTrans(w, x, Seat(x, id, k), Displaced(w, pl, k), {id}, {id} + Displaced(w, pl, k));
  }

  lemma OrphansExist(t: Tables, id: int)
    requires id in Orphans(t)
    ensures id in t.mapInfo && !t.mapInfo[id].fInTried
  {
  }

  lemma SameService(a: AddrInfo, b: AddrInfo)
    requires SameFacts(a, b)
    ensures a.service == b.service
  {
  }

  /** Promotion to tried: the entry gets its tried slot and leaves every new slot. */
  lemma MakeTriedLoose(t: Tables, pl: Placement, id: int)
    requires Loose(t, pl, 0) && id in t.mapInfo && !t.mapInfo[id].fInTried
    ensures CanPromote(t, pl, id)
    ensures var u := MakeTried(t, pl, id); var k := pl.TriedSlot(t.mapInfo[id].service);
      && Loose(u, pl, 0) && Orphans(u) == Orphans(t) - {id}
      && u.triedSlots == t.triedSlots[k := id]
      && id in u.mapInfo && u.mapInfo[id].fInTried
      && Keeps(t, u, {id} + Displaced(t, pl, k))
      && (k in t.triedSlots ==> t.triedSlots[k] in u.mapInfo && u.mapInfo[t.triedSlots[k]].nRefCount == 1)
  {
    hide Indexed, Placed, Counted, Orphans, Displaced, Evict, Unlisted, Placement.TriedSlot, Placement.NewSlot;
    var k := pl.TriedSlot(t.mapInfo[id].service);
    UnlistedLoose(t, pl, id);
    var w := Unlisted(t, pl, id);
    assert id in Orphans(w);
    OrphanNotSeated(t, pl, id, k);
    SeatEvicted(w, pl, id, k);
    DisplacedUnlisted(t, pl, id, k);
    KeepsTrans(t, w, MakeTried(t, pl, id), {id}, {id} + Displaced(w, pl, k), {id} + Displaced(t, pl, k));
    OrphansGoAgain(t, w, MakeTried(t, pl, id), id);
  }

  lemma OrphanNotSeated(t: Tables, pl: Placement, id: int, k: Slot)
    requires Placed(t, pl) && id in t.mapInfo && !t.mapInfo[id].fInTried
    ensures k in t.triedSlots ==> t.triedSlots[k] != id
  {
    assert k in t.triedSlots ==> TriedPlaced(t, pl, k);
  }

  lemma OrphansGoAgain(t: Tables, w: Tables, u: Tables, id: int)
    requires Orphans(w) == Orphans(t) + {id} && Orphans(u) == Orphans(w) - {id}
    ensures Orphans(u) == Orphans(t) - {id}
  {
    hide Orphans;
  }

  lemma DisplacedUnlisted(t: Tables, pl: Placement, id: int, k: Slot)
    requires id in t.mapInfo
    ensures Displaced(Unlisted(t, pl, id), pl, k) <= {id} + Displaced(t, pl, k)
  {
  }

  // ---------------------------------------------------------------- operations

  /** Rewriting times and services of one entry moves nothing. */
  lemma TouchLoose(t: Tables, u: Tables, pl: Placement, off: int, id: int)
    requires Loose(t, pl, off) && Edited(t, u, id)
    requires u.mapInfo[id].fInTried == t.mapInfo[id].fInTried && u.mapInfo[id].nRefCount == t.mapInfo[id].nRefCount
    requires u.newSlots == t.newSlots && u.triedSlots == t.triedSlots && u.nTried == t.nTried && u.nNew == t.nNew
    ensures Loose(u, pl, off) && Orphans(u) == Orphans(t) && SameIds(t, u) && Keeps(t, u, {id})
  {
    EditedIndexed(t, u, id);
    EditedCounts(t, u, id, off);
    TouchPlaced(t, u, pl, id);
    assert forall n :: n in Orphans(u) <==> n in Orphans(t);
  }

  lemma TouchPlaced(t: Tables, u: Tables, pl: Placement, id: int)
    requires Placed(t, pl) && Edited(t, u, id)
    requires u.mapInfo[id].fInTried == t.mapInfo[id].fInTried && u.mapInfo[id].nRefCount == t.mapInfo[id].nRefCount
    requires u.newSlots == t.newSlots && u.triedSlots == t.triedSlots
    ensures Placed(u, pl)
  {
    forall k | k in u.triedSlots ensures TriedPlaced(u, pl, k) { assert TriedPlaced(t, pl, k); }
    forall s | s in u.newSlots ensures NewPlaced(u, pl, s) { assert NewPlaced(t, pl, s); }
    forall n | n in u.mapInfo ensures EntryPlaced(u, pl, n) { assert EntryPlaced(t, pl, n); }
  }

  /** Only the promoted entry can be newly tried. */
  lemma {:induction false} MakeTriedTimed(t: Tables, pl: Placement, id: int)
    requires Loose(t, pl, 0) && Timed(t) && id in t.mapInfo && !t.mapInfo[id].fInTried
    ensures CanPromote(t, pl, id)
    ensures Timed(MakeTried(t, pl, id)) <==> t.mapInfo[id].nLastSuccess > 0
  {
    hide Indexed, Placed, Counted, MakeTried, CanPromote, Displaced, Orphans, Placement.TriedSlot, Placement.NewSlot;
    MakeTriedLoose(t, pl, id);
    MakeTriedInherits(t, pl, id);
    var u := MakeTried(t, pl, id);
    assert SameRecord(t, u, id);
    forall n | n in u.mapInfo && n != id
      ensures n in t.mapInfo && u.mapInfo[n].nLastTry == t.mapInfo[n].nLastTry && u.mapInfo[n].nLastSuccess == t.mapInfo[n].nLastSuccess
      ensures u.mapInfo[n].fInTried ==> t.mapInfo[n].fInTried
    {
      assert SameRecord(t, u, n);
      SeatedBefore(t, u, pl, id, n);
    }
  }

  /** Nobody but the entry promoted is newly in tried. */
  lemma SeatedBefore(t: Tables, u: Tables, pl: Placement, id: int, n: int)
    requires Placed(t, pl) && Placed(u, pl) && id in t.mapInfo && n in u.mapInfo && n != id
    requires u.triedSlots == t.triedSlots[pl.TriedSlot(t.mapInfo[id].service) := id] && n in t.mapInfo
    ensures u.mapInfo[n].fInTried ==> t.mapInfo[n].fInTried
  {
    hide Placement.TriedSlot, Placement.NewSlot;
    assert EntryPlaced(u, pl, n);
    var k := pl.TriedSlot(u.mapInfo[n].service);
    if u.mapInfo[n].fInTried { assert k in t.triedSlots && TriedPlaced(t, pl, k); }
  }

  /** In a consistent manager an entry that is not tried sits in some new slot of its own. */
  lemma NewEntryHasSlot(t: Tables, pl: Placement, id: int)
    requires Loose(t, pl, 0) && id in t.mapInfo && !t.mapInfo[id].fInTried && id !in Orphans(t)
    ensures OwnSlots(t, pl, id) != {}
  {
    DetachPlaced(t, pl, id);
  }

  /**
   Good_ keeps the invariant exactly when it finds nothing to change or is given a
   positive time, and then a matching entry ends in its own tried slot.
   */
  lemma GoodConsistent(t: Tables, pl: Placement, s: Service, time: int)
    requires Consistent(t, pl)
    ensures CanGood(t, pl, s, time)
    ensures Consistent(Good(t, pl, s, time), pl) <==> !Matches(t, s) || time > 0
    ensures Matches(t, s) ==>
      var u := Good(t, pl, s, time); var id := t.mapAddr[s.ip]; var k := pl.TriedSlot(s);
      && Loose(u, pl, 0) && u.triedSlots == t.triedSlots[k := id]
      && id in u.mapInfo && u.mapInfo[id].fInTried && u.mapInfo[id].service == s && u.mapInfo[id].nLastSuccess == time
      && Keeps(t, u, {id} + (if t.mapInfo[id].fInTried then {} else Displaced(t, pl, k)))
      && (k in t.triedSlots ==> t.triedSlots[k] in u.mapInfo)
  {
    hide Indexed, Placed, Counted;
    if Matches(t, s) {
      var id := t.mapAddr[s.ip];
      var w := MarkGood(t, id, time);
      TouchLoose(t, w, pl, 0, id);
      if t.mapInfo[id].fInTried {
        AlreadySeated(t, pl, id);
        assert w.triedSlots == w.triedSlots[pl.TriedSlot(s) := id];
      } else {
        NewEntryHasSlot(w, pl, id);
        MakeTriedLoose(w, pl, id);
        MakeTriedInherits(w, pl, id);
        var u := MakeTried(w, pl, id);
        assert SameRecord(w, u, id);
        assert Displaced(w, pl, pl.TriedSlot(s)) <= {id} + Displaced(t, pl, pl.TriedSlot(s));
        KeepsTrans(t, w, u, {id}, {id} + Displaced(w, pl, pl.TriedSlot(s)), {id} + Displaced(t, pl, pl.TriedSlot(s)));
        if time >= 0 { assert Timed(w); MakeTriedTimed(w, pl, id); }
      }
    }
  }

  lemma AlreadySeated(t: Tables, pl: Placement, id: int)
    requires Placed(t, pl) && id in t.mapInfo && t.mapInfo[id].fInTried
    ensures var k := pl.TriedSlot(t.mapInfo[id].service); k in t.triedSlots && t.triedSlots[k] == id
  {
    assert EntryPlaced(t, pl, id);
  }

  lemma PlaceLoose(t: Tables, pl: Placement, id: int, s: Slot, now: int)
    requires Loose(t, pl, 0) && id in t.mapInfo && !t.mapInfo[id].fInTried
    requires t.mapInfo[id].nRefCount < NEW_BUCKETS_PER_ADDRESS
    requires s.bucket < NEW_BUCKET_COUNT && s == pl.NewSlot(t.mapInfo[id].service, s.bucket)
    ensures CanPlace(t, id, s, now)
    ensures var u := Place(t, id, s, now);
      && Loose(u, pl, 0) && Orphans(u) == Orphans(t) - {id} && u.triedSlots == t.triedSlots
      && Keeps(t, u, {id} + if s in t.newSlots && MayTake(t, id, s, now) then {t.newSlots[s]} else {})
      && (id in u.mapInfo <==> id !in Orphans(t) || MayTake(t, id, s, now))
  {
    hide Indexed, Placed, Counted;
    if s in t.newSlots { ReleaseLoose(t, pl, 0, s); }
    if s in t.newSlots && t.newSlots[s] == id {
    } else if MayTake(t, id, s, now) {
      ClearNewLoose(t, pl, 0, s);
      var x := ClearNew(t, s);
      assert Kept(t, x, id);
      AttachLoose(x, pl, 0, id, s);
      var ex := {id} + if s in t.newSlots then {t.newSlots[s]} else {};
      KeepsTrans(t, x, Attach(x, id, s), if s in t.newSlots then {t.newSlots[s]} else {}, {id}, ex);
    } else if t.mapInfo[id].nRefCount == 0 {
      DeleteLoose(t, pl, 0, id);
    }
  }

  lemma {:induction false} PlaceInherits(t: Tables, id: int, s: Slot, now: int)
    requires CanPlace(t, id, s, now)
    ensures Inherits(t, Place(t, id, s, now))
  {
    if s in t.newSlots && t.newSlots[s] == id {
    } else if MayTake(t, id, s, now) {
      ClearNewInherits(t, s);
      var x := ClearNew(t, s);
      assert Inherits(x, Attach(x, id, s));
      InheritsTrans(t, x, Attach(x, id, s));
    } else if t.mapInfo[id].nRefCount == 0 {
      DeleteInherits(t, id);
    }
  }

  lemma KnownIsFound(t: Tables)
    requires Indexed(t)
    ensures forall a :: a in t.mapAddr <==> Found(t, a)
    ensures forall n :: n in t.mapInfo ==> Found(t, t.mapInfo[n].service.ip) && t.mapAddr[t.mapInfo[n].service.ip] == n
    ensures t.nIdCount !in t.mapInfo
  {
    assert forall n :: n in t.mapInfo ==> EntryIndexed(t, n);
  }

  lemma RegisteredLoose(t: Tables, pl: Placement, addr: Address, source: NetAddr, penalty: int, now: int)
    requires Consistent(t, pl)
    ensures var u := Registered(t, addr, source, penalty, now); var id := Target(t, addr);
      && Loose(u, pl, 0) && Timed(u) && id in u.mapInfo && u.triedSlots == t.triedSlots && u.newSlots == t.newSlots
      && Orphans(u) == (if Found(t, addr.service.ip) then {} else {id})
      && Keeps(t, u, {id}) && (forall n :: n in u.mapInfo <==> n in t.mapInfo || n == id)
      && (Found(t, addr.service.ip) ==> u.mapInfo[id].fInTried == t.mapInfo[id].fInTried && u.mapInfo[id].nRefCount == t.mapInfo[id].nRefCount)
      && (!Found(t, addr.service.ip) ==> u.mapInfo[id].service == addr.service && id !in t.mapInfo)
  {
    hide Placed, Counted, Indexed, Refreshed, Uint32;
    KnownIsFound(t);
    if Found(t, addr.service.ip) {
      var id := t.mapAddr[addr.service.ip];
      RefreshedKeepsPlace(t.mapInfo[id], addr, penalty, now);
      TouchLoose(t, Registered(t, addr, source, penalty, now), pl, 0, id);
    } else {
      RegisterNew(t, pl, addr, source, penalty, now);
    }
  }

  lemma RefreshedKeepsPlace(info: AddrInfo, addr: Address, penalty: int, now: int)
    ensures var i := Refreshed(info, addr, penalty, now); i == info.(nTime := i.nTime, nServices := i.nServices)
  {
  }

  lemma RegisterNew(t: Tables, pl: Placement, addr: Address, source: NetAddr, penalty: int, now: int)
    requires Consistent(t, pl) && !Found(t, addr.service.ip)
    ensures var u := Registered(t, addr, source, penalty, now); var id := t.nIdCount;
      && Loose(u, pl, 0) && Timed(u) && Orphans(u) == {id} && Keeps(t, u, {}) && id !in t.mapInfo
  {
    hide Placed, Counted, Indexed, Uint32;
    KnownIsFound(t);
    var u := Registered(t, addr, source, penalty, now);
    var id := t.nIdCount;
    CreateLoose(t, pl, 0, addr, source);
    var x := Create(t, addr, source);
    Recount(x, pl, 1, 1);
    TouchLoose(x.(nNew := x.nNew + 1), u, pl, 0, id);
    assert Orphans(t) + {id} == {id};
    KeepsTrans(t, x, u, {}, {id}, {id});
  }

  /** Add_ keeps the invariant, whatever the announced address, source, penalty, clock and dice. */
  lemma AddConsistent(t: Tables, pl: Placement, addr: Address, source: NetAddr, penalty: int, now: int, draw: nat)
    requires Consistent(t, pl)
    ensures CanAdd(t, pl, addr, source, penalty, now, draw)
    ensures Consistent(Add(t, pl, addr, source, penalty, now, draw), pl)
    ensures Add(t, pl, addr, source, penalty, now, draw).triedSlots == t.triedSlots
  {
    hide Indexed, Counted, Placed;
    if pl.net.routable(addr.service.ip) {
      RegisteredLoose(t, pl, addr, source, penalty, now);
      var u := Registered(t, addr, source, penalty, now);
      var id := Target(t, addr);
      if Stops(t, addr, penalty, now, draw) {
      } else {
        var s := TargetSlot(u, pl, id, source);
        RefCountBound(u, pl, id);
        PlaceLoose(u, pl, id, s, now);
        PlaceInherits(u, id, s, now);
        var v := Place(u, id, s, now);
        assert Orphans(v) == {};
        InheritsTimed(u, v, pl);
      }
    }
  }

  lemma RefCountBound(t: Tables, pl: Placement, id: int)
    requires Placed(t, pl) && id in t.mapInfo
    ensures 0 <= t.mapInfo[id].nRefCount <= NEW_BUCKETS_PER_ADDRESS
  {
    assert EntryPlaced(t, pl, id);
  }

  /** With the tried table unchanged, surviving entries keep their times and their status. */
  lemma InheritsTimed(t: Tables, u: Tables, pl: Placement)
    requires Timed(t) && Placed(t, pl) && Placed(u, pl) && Inherits(t, u) && u.triedSlots == t.triedSlots
    ensures Timed(u)
  {
    forall n | n in u.mapInfo
      ensures n in t.mapInfo && u.mapInfo[n].nLastTry == t.mapInfo[n].nLastTry && u.mapInfo[n].nLastSuccess == t.mapInfo[n].nLastSuccess
      ensures u.mapInfo[n].fInTried ==> t.mapInfo[n].fInTried
    {
      assert SameRecord(t, u, n) && EntryPlaced(u, pl, n);
      var k := pl.TriedSlot(u.mapInfo[n].service);
      if u.mapInfo[n].fInTried { assert TriedPlaced(t, pl, k); }
    }
  }

  /** Attempt_ keeps the invariant exactly when it finds no entry or the time is not negative. */
  lemma AttemptConsistent(t: Tables, pl: Placement, s: Service, time: int)
    requires Consistent(t, pl)
    ensures Consistent(Attempt(t, s, time), pl) <==> !Matches(t, s) || time >= 0
  {
    hide Indexed, Placed, Counted;
    if Matches(t, s) { TouchLoose(t, Attempt(t, s, time), pl, 0, t.mapAddr[s.ip]); }
  }

  lemma ConnectedConsistent(t: Tables, pl: Placement, s: Service, time: int)
    requires Consistent(t, pl)
    ensures Consistent(Connected(t, s, time), pl)
  {
    hide Indexed, Placed, Counted, Uint32;
    if Matches(t, s) { TouchLoose(t, Connected(t, s, time), pl, 0, t.mapAddr[s.ip]); }
  }

  /** Shuffling `vRandom`, all that GetAddr_ does to the tables, keeps the invariant. */
  lemma SwapConsistent(t: Tables, pl: Placement, p1: nat, p2: nat)
    requires Consistent(t, pl) && p1 < |t.vRandom| && p2 < |t.vRandom|
    ensures CanSwap(t, p1, p2) && Consistent(SwapRandom(t, p1, p2), pl)
    ensures SameIds(t, SwapRandom(t, p1, p2)) && Keeps(t, SwapRandom(t, p1, p2), {})
  {
    hide Indexed, Placed, Counted;
    SwapIndexed(t, p1, p2);
    var u := SwapRandom(t, p1, p2);
    MovedLoose(t, u, pl, 0);
    forall n | n in u.mapInfo
      ensures u.mapInfo[n].nLastTry >= 0 && u.mapInfo[n].nLastSuccess >= 0 && (u.mapInfo[n].fInTried ==> u.mapInfo[n].nLastSuccess > 0)
    {
      assert Kept(t, u, n);
    }
  }
}
