/**
 The debug checker of the address manager: what exactly it accepts, and what it overlooks.
 */
module AddrCheck {
  import opened AddrTables
  import opened AddrInvariant
  import opened AddrMan
  import AddrDisk
  import AddrRuns
  import opened AddrStore

  predicate IsNull(k: Key) { forall i :: 0 <= i < |k| ==> k[i] == 0 }

  /** Looking an address up makes an entry of zero if there is none. */
  function LookedUp(mapAddr: map<NetAddr, int>, ip: NetAddr): int { if ip in mapAddr then mapAddr[ip] else 0 }

  predicate AllIndexed(t: Tables) { forall n :: n in t.mapInfo ==> t.mapInfo[n].service.ip in t.mapAddr }

  /** What is checked of one entry by itself. */
  ghost predicate EntryChecked(t: Tables, n: int)
    requires n in t.mapInfo
  {
    var info := t.mapInfo[n];
    && (if info.fInTried then info.nLastSuccess != 0 && info.nRefCount == 0 else 0 < info.nRefCount <= NEW_BUCKETS_PER_ADDRESS)
    && LookedUp(t.mapAddr, info.service.ip) == n
    && 0 <= info.nRandomPos < |t.vRandom| && t.vRandom[info.nRandomPos] == n
    && info.nLastTry >= 0 && info.nLastSuccess >= 0
  }

  /** What the checker accepts, but for the key. */
  ghost predicate Fitting(t: Tables, pl: Placement) {
    && |t.vRandom| == t.nTried + t.nNew
    && (forall n :: n in t.mapInfo ==> EntryChecked(t, n))
    && Counted(t, 0) && Placed(t, pl)
  }

  /** What the checker accepts. */
  ghost predicate Checked(t: Tables, pl: Placement) { Fitting(t, pl) && !IsNull(pl.key) }

  // ---------------------------------------------------------------- what each answer says

  ghost predicate EntryBlamed(t: Tables, n: int, err: int)
    requires n in t.mapInfo
  {
    var info := t.mapInfo[n];
    || (err == -1 && info.fInTried && info.nLastSuccess == 0)
    || (err == -2 && info.fInTried && info.nRefCount != 0)
    || (err == -3 && !info.fInTried && (info.nRefCount < 0 || info.nRefCount > 8))
    || (err == -4 && !info.fInTried && info.nRefCount == 0)
    || (err == -5 && LookedUp(t.mapAddr, info.service.ip) != n)
    || (err == -14 && (info.nRandomPos < 0 || info.nRandomPos >= |t.vRandom| || t.vRandom[info.nRandomPos] != n))
    || (err == -6 && info.nLastTry < 0)
    || (err == -8 && info.nLastSuccess < 0)
  }

  /** The occupant of a tried slot is no tried entry, or sits in another slot as well. */
  ghost predicate Crowded(t: Tables, k: Slot)
    requires k in t.triedSlots
  {
    t.triedSlots[k] !in TriedIds(t) || exists r :: r in t.triedSlots && r != k && t.triedSlots[r] == t.triedSlots[k]
  }

  /** The occupant of a new slot is no new entry, or sits in more slots than it counts. */
  ghost predicate Uncounted(t: Tables, s: Slot)
    requires s in t.newSlots
  {
    var n := t.newSlots[s];
    n !in NewIds(t) || |SlotsOf(t.newSlots, n)| > t.mapInfo[n].nRefCount
  }

  ghost predicate TriedBlamed(t: Tables, pl: Placement, k: Slot, err: int)
    requires k in t.triedSlots
  {
    var n := t.triedSlots[k];
    || (err == -11 && Crowded(t, k))
    || (err == -17 && n in t.mapInfo && pl.TriedBucket(t.mapInfo[n].service) != k.bucket)
    || (err == -18 && n in t.mapInfo && pl.BucketPosition(false, k.bucket, t.mapInfo[n].service) != k.pos)
  }

  ghost predicate NewBlamed(t: Tables, pl: Placement, s: Slot, err: int)
    requires s in t.newSlots
  {
    var n := t.newSlots[s];
    || (err == -12 && Uncounted(t, s))
    || (err == -19 && n in t.mapInfo && pl.BucketPosition(true, s.bucket, t.mapInfo[n].service) != s.pos)
  }

  /** What is wrong with a manager, answer by answer. */
  ghost predicate Blamed(t: Tables, pl: Placement, err: int) {
    || (err == -7 && |t.vRandom| != t.nTried + t.nNew)
    || (exists n :: n in t.mapInfo && EntryBlamed(t, n, err))
    || (err == -9 && |TriedIds(t)| != t.nTried)
    || (err == -10 && |NewIds(t)| != t.nNew)
    || (exists k :: k in t.triedSlots && TriedBlamed(t, pl, k, err))
    || (exists s :: s in t.newSlots && NewBlamed(t, pl, s, err))
    || (err == -13 && exists n :: n in TriedIds(t) && SlotsOf(t.triedSlots, n) == {})
    || (err == -15 && exists n :: n in NewIds(t) && |SlotsOf(t.newSlots, n)| < t.mapInfo[n].nRefCount)
    || (err == -16 && IsNull(pl.key))
  }

  /** What the checker does not look at: ids within range, every address indexed, and no address indexed that has no entry. */
  ghost predicate Overlooked(t: Tables) {
    && t.nIdCount >= 0
    && (forall n :: n in t.mapInfo ==> 0 <= n < t.nIdCount) && AllIndexed(t)
    && (forall a :: a in t.mapAddr ==> t.mapAddr[a] in t.mapInfo && t.mapInfo[t.mapAddr[a]].service.ip == a)
  }

  /** The places in `vRandom` of the entries. */
  lemma {:induction false} PositionCount(t: Tables, ids: set<int>, ps: set<int>)
    requires forall n :: n in ids ==> n in t.mapInfo && EntryChecked(t, n)
    requires ps == set n | n in ids :: t.mapInfo[n].nRandomPos
    ensures |ps| == |ids|
    decreases |ids|
  {
    var none: set<int> := {};
    if n :| n in ids {
      var p := t.mapInfo[n].nRandomPos;
      var rest := set k | k in ids - {n} :: t.mapInfo[k].nRandomPos;
      PositionCount(t, ids - {n}, rest);
      assert p !in rest;
      forall x ensures x in ps <==> x in rest + {p} {
        if x in ps { var k :| k in ids && t.mapInfo[k].nRandomPos == x; assert k != n ==> k in ids - {n}; }
      }
      assert ps == rest + {p};
    } else {
      assert forall n :: n in ids <==> n in none;
      assert forall n :: n in ps <==> n in none;
    }
  }

  lemma {:induction false} RangeFull(s: set<int>, n: nat)
    requires |s| == n && forall x :: x in s ==> 0 <= x < n
    ensures forall x :: 0 <= x < n ==> x in s
  {
    if n > 0 {
      if n - 1 in s {
        RangeFull(s - {n - 1}, n - 1);
      } else {
        RangeSize(s, n - 1);
      }
    }
  }

  lemma {:induction false} RangeSize(s: set<int>, n: nat)
    requires forall x :: x in s ==> 0 <= x < n
    ensures |s| <= n
  {
    var none: set<int> := {};
    if n > 0 {
      RangeSize(s - {n - 1}, n - 1);
    } else {
      assert forall x :: x in s <==> x in none;
    }
  }

  /** As many places as entries, and every entry at its own: `vRandom` is a permutation. */
  lemma PermutationFollows(t: Tables)
    requires |t.vRandom| == t.nTried + t.nNew && Counted(t, 0) && forall n :: n in t.mapInfo ==> EntryChecked(t, n)
    ensures forall i :: 0 <= i < |t.vRandom| ==> t.vRandom[i] in t.mapInfo && t.mapInfo[t.vRandom[i]].nRandomPos == i
  {
    assert forall n :: n in t.mapInfo.Keys <==> n in TriedIds(t) + NewIds(t);
    assert t.mapInfo.Keys == TriedIds(t) + NewIds(t);
    assert TriedIds(t) !! NewIds(t);
    var ps := set n | n in t.mapInfo.Keys :: t.mapInfo[n].nRandomPos;
    PositionCount(t, t.mapInfo.Keys, ps);
    assert forall x :: x in ps ==> 0 <= x < |t.vRandom|;
    RangeFull(ps, |t.vRandom|);
    forall i | 0 <= i < |t.vRandom| ensures t.vRandom[i] in t.mapInfo && t.mapInfo[t.vRandom[i]].nRandomPos == i {
      assert i in ps;
      var n :| n in t.mapInfo.Keys && t.mapInfo[n].nRandomPos == i;
      assert EntryChecked(t, n);
    }
  }

  /** The invariant is what the checker accepts together with what it overlooks. */
  lemma CheckedAndOverlooked(t: Tables, pl: Placement)
    ensures Consistent(t, pl) && !IsNull(pl.key) <==> Checked(t, pl) && Overlooked(t)
  {
    hide Counted, Placed, IsNull;
    if Consistent(t, pl) && !IsNull(pl.key) { ConsistentChecked(t, pl); }
    if Checked(t, pl) && Overlooked(t) { CheckedConsistent(t, pl); }
  }

  lemma ConsistentChecked(t: Tables, pl: Placement)
    requires Consistent(t, pl)
    ensures Fitting(t, pl) && Overlooked(t)
  {
    hide IsNull, Placement.TriedSlot, Placement.NewSlot, SlotsOf, TriedIds, NewIds;
    AddrRuns.CountsAgree(t, pl);
    forall n | n in t.mapInfo ensures EntryChecked(t, n) {
      assert EntryIndexed(t, n) && EntryPlaced(t, pl, n) && n !in Orphans(t);
      if t.mapInfo[n].fInTried { TriedNotNew(t, pl, n); }
    }
    forall n | n in t.mapInfo ensures 0 <= n < t.nIdCount && t.mapInfo[n].service.ip in t.mapAddr { assert EntryIndexed(t, n); }
  }

  lemma CheckedConsistent(t: Tables, pl: Placement)
    requires Checked(t, pl) && Overlooked(t)
    ensures Consistent(t, pl)
  {
    hide IsNull, Placed, Counted;
    PermutationFollows(t);
    forall n | n in t.mapInfo ensures EntryIndexed(t, n) { assert EntryChecked(t, n); }
    forall n ensures n !in Orphans(t) { if n in t.mapInfo { assert EntryChecked(t, n); } }
    assert Orphans(t) == {};
    assert forall n :: n in t.mapInfo ==> EntryChecked(t, n);
  }

  // ---------------------------------------------------------------- the three scans

  /** The first `i` entries have been looked at. */
  ghost predicate EntryScan(t: Tables, order: seq<int>, i: nat, setTried: set<int>, mapNew: map<int, int>)
    requires i <= |order| && forall n :: n in order ==> n in t.mapInfo
  {
    && (forall n :: n in setTried <==> n in order[..i] && t.mapInfo[n].fInTried)
    && (forall n :: n in mapNew <==> n in order[..i] && !t.mapInfo[n].fInTried)
    && (forall n :: n in mapNew ==> mapNew[n] == t.mapInfo[n].nRefCount)
    && (forall n :: n in order[..i] ==> EntryChecked(t, n))
  }

  lemma EntryScanned(t: Tables, order: seq<int>, i: nat, setTried: set<int>, mapNew: map<int, int>)
    requires i < |order| && (forall n :: n in order ==> n in t.mapInfo) && EntryScan(t, order, i, setTried, mapNew) && EntryChecked(t, order[i])
    ensures var n := order[i];
            EntryScan(t, order, i + 1, if t.mapInfo[n].fInTried then setTried + {n} else setTried,
                      if t.mapInfo[n].fInTried then mapNew else mapNew[n := t.mapInfo[n].nRefCount])
  {
    hide EntryChecked;
    assert order[..i + 1] == order[..i] + [order[i]];
  }

  lemma EntriesScanned(t: Tables, order: seq<int>, setTried: set<int>, mapNew: map<int, int>)
    requires (forall n :: n in order <==> n in t.mapInfo) && EntryScan(t, order, |order|, setTried, mapNew)
    ensures setTried == TriedIds(t) && mapNew.Keys == NewIds(t)
    ensures (forall n :: n in mapNew ==> mapNew[n] == t.mapInfo[n].nRefCount) && forall n :: n in t.mapInfo ==> EntryChecked(t, n)
  {
    hide EntryChecked;
    assert order[..|order|] == order;
    assert forall n :: n in setTried <==> n in TriedIds(t);
    assert forall n :: n in mapNew.Keys <==> n in NewIds(t);
  }

  /** The slots of an entry before a given one. */
  ghost function SlotsBefore(table: map<Slot, int>, n: int, b: nat, p: nat): set<Slot> {
    set s | s in table && table[s] == n && Before(s, b, p)
  }

  /** The tried slots before a given one have been looked at; their occupants are crossed off. */
  ghost predicate TriedScan(t: Tables, pl: Placement, b: nat, p: nat, setTried: set<int>) {
    && (forall s :: s in t.triedSlots && Before(s, b, p) ==> TriedPlaced(t, pl, s))
    && (forall n :: n in setTried <==> n in TriedIds(t) && SlotsBefore(t.triedSlots, n, b, p) == {})
  }

  lemma TriedScanStart(t: Tables, pl: Placement)
    ensures TriedScan(t, pl, 0, 0, TriedIds(t))
  {
    forall n ensures SlotsBefore(t.triedSlots, n, 0, 0) == {} { }
  }

  lemma SlotsBeforeNext(table: map<Slot, int>, n: int, b: nat, p: nat)
    ensures SlotsBefore(table, n, b, p + 1)
         == SlotsBefore(table, n, b, p) + if Slot(b, p) in table && table[Slot(b, p)] == n then {Slot(b, p)} else {}
  {
    BeforeNext(b, p);
  }

  lemma SlotsBeforeRow(table: map<Slot, int>, n: int, b: nat)
    requires forall s :: s in table ==> s.pos < BUCKET_SIZE
    ensures SlotsBefore(table, n, b, BUCKET_SIZE) == SlotsBefore(table, n, b + 1, 0)
  {
  }

  lemma TriedStep(t: Tables, pl: Placement, b: nat, p: nat, setTried: set<int>)
    requires TriedScan(t, pl, b, p, setTried)
    ensures var s := Slot(b, p);
            && (s !in t.triedSlots ==> TriedScan(t, pl, b, p + 1, setTried))
            && (s in t.triedSlots && TriedPlaced(t, pl, s) ==> TriedScan(t, pl, b, p + 1, setTried - {t.triedSlots[s]}))
            && (s in t.triedSlots && t.triedSlots[s] !in setTried ==> !Placed(t, pl) && Crowded(t, s))
  {
    hide Placement.TriedSlot;
    var s := Slot(b, p);
    forall n ensures SlotsBefore(t.triedSlots, n, b, p + 1)
                  == SlotsBefore(t.triedSlots, n, b, p) + if s in t.triedSlots && t.triedSlots[s] == n then {s} else {} {
      SlotsBeforeNext(t.triedSlots, n, b, p);
    }
    BeforeNext(b, p);
    if s in t.triedSlots && t.triedSlots[s] !in setTried {
      TwiceSeated(t, pl, s, b, p, setTried);
    }
  }

  lemma TwiceSeated(t: Tables, pl: Placement, s: Slot, b: nat, p: nat, setTried: set<int>)
    requires TriedScan(t, pl, b, p, setTried) && s == Slot(b, p) && s in t.triedSlots && t.triedSlots[s] !in setTried
    ensures !Placed(t, pl) && Crowded(t, s)
  {
    hide Placement.TriedSlot;
    var n := t.triedSlots[s];
    var before := SlotsBefore(t.triedSlots, n, b, p);
    if r :| r in before {
      assert TriedPlaced(t, pl, r);
      assert TriedPlaced(t, pl, s) ==> r == s;
    } else {
      assert before == {};
      assert n !in TriedIds(t);
    }
  }

  lemma TriedRow(t: Tables, pl: Placement, b: nat, setTried: set<int>)
    requires TriedScan(t, pl, b, BUCKET_SIZE, setTried) && forall s :: s in t.triedSlots ==> s.pos < BUCKET_SIZE
    ensures TriedScan(t, pl, b + 1, 0, setTried)
  {
    forall n ensures SlotsBefore(t.triedSlots, n, b, BUCKET_SIZE) == SlotsBefore(t.triedSlots, n, b + 1, 0) { SlotsBeforeRow(t.triedSlots, n, b); }
  }

  /** The new slots before a given one have been looked at; each counts its occupant down. */
  ghost predicate NewScan(t: Tables, pl: Placement, b: nat, p: nat, mapNew: map<int, int>) {
    && (forall s :: s in t.newSlots && Before(s, b, p) ==> NewPlaced(t, pl, s))
    && (forall n :: n in mapNew ==> n in NewIds(t))
    && (forall n :: n in NewIds(t) ==> LeftOver(t, b, p, mapNew, n))
  }

  ghost predicate LeftOver(t: Tables, b: nat, p: nat, mapNew: map<int, int>, n: int)
    requires n in t.mapInfo
  {
    var left := t.mapInfo[n].nRefCount - |SlotsBefore(t.newSlots, n, b, p)|;
    left >= 0 && (n in mapNew <==> left > 0) && (n in mapNew ==> mapNew[n] == left)
  }

  lemma NewScanStart(t: Tables, pl: Placement, mapNew: map<int, int>)
    requires mapNew.Keys == NewIds(t) && (forall n :: n in mapNew ==> mapNew[n] == t.mapInfo[n].nRefCount) && forall n :: n in t.mapInfo ==> EntryChecked(t, n)
    ensures NewScan(t, pl, 0, 0, mapNew)
  {
    forall n | n in NewIds(t) ensures LeftOver(t, 0, 0, mapNew, n) {
      assert SlotsBefore(t.newSlots, n, 0, 0) == {};
      assert EntryChecked(t, n) && n in mapNew.Keys;
    }
    assert forall n :: n in mapNew ==> n in mapNew.Keys;
  }

  /** One more slot counted down. */
  function Down(mapNew: map<int, int>, n: int): map<int, int>
    requires n in mapNew
  {
    if mapNew[n] == 1 then mapNew - {n} else mapNew[n := mapNew[n] - 1]
  }

  lemma NewStep(t: Tables, pl: Placement, b: nat, p: nat, mapNew: map<int, int>)
    requires NewScan(t, pl, b, p, mapNew)
    ensures var s := Slot(b, p);
            && (s !in t.newSlots ==> NewScan(t, pl, b, p + 1, mapNew))
            && (s in t.newSlots && t.newSlots[s] in mapNew && NewPlaced(t, pl, s) ==> NewScan(t, pl, b, p + 1, Down(mapNew, t.newSlots[s])))
            && (s in t.newSlots && t.newSlots[s] !in mapNew ==> !Placed(t, pl) && Uncounted(t, s))
  {
    hide NewScan, NewPlaced, Placed, Down;
    var s := Slot(b, p);
    if s !in t.newSlots {
      EmptySlotStep(t, pl, b, p, mapNew);
    } else if t.newSlots[s] !in mapNew {
      OneSlotTooMany(t, pl, b, p, mapNew);
    } else if NewPlaced(t, pl, s) {
      CountDownStep(t, pl, b, p, mapNew);
    }
  }

  lemma EmptySlotStep(t: Tables, pl: Placement, b: nat, p: nat, mapNew: map<int, int>)
    requires NewScan(t, pl, b, p, mapNew) && Slot(b, p) !in t.newSlots
    ensures NewScan(t, pl, b, p + 1, mapNew)
  {
    hide NewPlaced, SlotsBefore;
    BeforeNext(b, p);
    forall n | n in NewIds(t) ensures LeftOver(t, b, p + 1, mapNew, n) { assert LeftOver(t, b, p, mapNew, n); SlotsBeforeNext(t.newSlots, n, b, p); }
  }

  lemma CountDownStep(t: Tables, pl: Placement, b: nat, p: nat, mapNew: map<int, int>)
    requires NewScan(t, pl, b, p, mapNew) && Slot(b, p) in t.newSlots && t.newSlots[Slot(b, p)] in mapNew && NewPlaced(t, pl, Slot(b, p))
    ensures NewScan(t, pl, b, p + 1, Down(mapNew, t.newSlots[Slot(b, p)]))
  {
    hide NewPlaced;
    var s := Slot(b, p);
    var down := Down(mapNew, t.newSlots[s]);
    BeforeNext(b, p);
    forall n | n in NewIds(t) ensures LeftOver(t, b, p + 1, down, n) {
      assert LeftOver(t, b, p, mapNew, n);
      SlotsBeforeNext(t.newSlots, n, b, p);
      assert s !in SlotsBefore(t.newSlots, n, b, p);
    }
  }

  lemma OneSlotTooMany(t: Tables, pl: Placement, b: nat, p: nat, mapNew: map<int, int>)
    requires NewScan(t, pl, b, p, mapNew) && Slot(b, p) in t.newSlots && t.newSlots[Slot(b, p)] !in mapNew
    ensures !Placed(t, pl) && Uncounted(t, Slot(b, p))
  {
    var s := Slot(b, p);
    var n := t.newSlots[s];
    if n in NewIds(t) {
      assert LeftOver(t, b, p, mapNew, n);
      MoreSlots(SlotsBefore(t.newSlots, n, b, p), s, SlotsOf(t.newSlots, n));
      assert !EntryPlaced(t, pl, n);
    } else {
      assert !NewPlaced(t, pl, s);
    }
  }

  lemma NewRow(t: Tables, pl: Placement, b: nat, mapNew: map<int, int>)
    requires NewScan(t, pl, b, BUCKET_SIZE, mapNew) && forall s :: s in t.newSlots ==> s.pos < BUCKET_SIZE
    ensures NewScan(t, pl, b + 1, 0, mapNew)
  {
    forall n | n in NewIds(t) ensures LeftOver(t, b + 1, 0, mapNew, n) {
      assert LeftOver(t, b, BUCKET_SIZE, mapNew, n);
      SlotsBeforeRow(t.newSlots, n, b);
    }
  }

  lemma AnyOf<T>(s: set<T>) returns (x: T)
    requires s != {}
    ensures x in s
  {
    x :| x in s;
  }

  /** After all three scans: nothing is left over if and only if every entry is placed. */
  lemma ScansDone(t: Tables, pl: Placement, setTried: set<int>, mapNew: map<int, int>)
    requires TriedScan(t, pl, TRIED_BUCKET_COUNT, 0, setTried) && NewScan(t, pl, NEW_BUCKET_COUNT, 0, mapNew)
    requires forall s :: s in t.triedSlots ==> s.bucket < TRIED_BUCKET_COUNT
    requires forall s :: s in t.newSlots ==> s.bucket < NEW_BUCKET_COUNT
    requires forall n :: n in t.mapInfo ==> EntryChecked(t, n)
    ensures Placed(t, pl) <==> setTried == {} && mapNew == map[]
    ensures setTried != {} ==> exists n :: n in TriedIds(t) && SlotsOf(t.triedSlots, n) == {}
    ensures mapNew != map[] ==> exists n :: n in NewIds(t) && |SlotsOf(t.newSlots, n)| < t.mapInfo[n].nRefCount
  {
    hide Placement.TriedSlot, Placement.NewSlot, EntryChecked;
    forall n ensures SlotsBefore(t.newSlots, n, NEW_BUCKET_COUNT, 0) == SlotsOf(t.newSlots, n) { }
    forall n ensures SlotsBefore(t.triedSlots, n, TRIED_BUCKET_COUNT, 0) == SlotsOf(t.triedSlots, n) { }
    if setTried != {} {
      var n := AnyOf(setTried);
      assert n in TriedIds(t) && SlotsOf(t.triedSlots, n) == {};
    }
    if mapNew != map[] {
      assert mapNew.Keys != {};
      var n := AnyOf(mapNew.Keys);
      assert n in NewIds(t) && LeftOver(t, NEW_BUCKET_COUNT, 0, mapNew, n);
    }
    if setTried == {} && mapNew == map[] {
      forall n | n in t.mapInfo ensures EntryPlaced(t, pl, n) { NothingLeft(t, pl, setTried, mapNew, n); }
    }
    if Placed(t, pl) {
      forall n | n in TriedIds(t) ensures SlotsOf(t.triedSlots, n) != {} {
        assert EntryPlaced(t, pl, n);
        assert pl.TriedSlot(t.mapInfo[n].service) in SlotsOf(t.triedSlots, n);
      }
      assert forall n :: n !in setTried;
      forall n ensures n !in mapNew {
        if n in NewIds(t) { assert LeftOver(t, NEW_BUCKET_COUNT, 0, mapNew, n); assert EntryPlaced(t, pl, n); }
      }
      assert setTried == {};
      assert mapNew == map[];
    }
  }

  lemma NothingLeft(t: Tables, pl: Placement, setTried: set<int>, mapNew: map<int, int>, n: int)
    requires TriedScan(t, pl, TRIED_BUCKET_COUNT, 0, setTried) && NewScan(t, pl, NEW_BUCKET_COUNT, 0, mapNew)
    requires SlotsBefore(t.newSlots, n, NEW_BUCKET_COUNT, 0) == SlotsOf(t.newSlots, n)
    requires SlotsBefore(t.triedSlots, n, TRIED_BUCKET_COUNT, 0) == SlotsOf(t.triedSlots, n)
    requires forall s :: s in t.triedSlots ==> s.bucket < TRIED_BUCKET_COUNT
    requires forall s :: s in t.newSlots ==> s.bucket < NEW_BUCKET_COUNT
    requires n in t.mapInfo && EntryChecked(t, n) && setTried == {} && mapNew == map[]
    ensures EntryPlaced(t, pl, n)
  {
    hide Placement.TriedSlot, Placement.NewSlot;
    if t.mapInfo[n].fInTried {
      assert n in TriedIds(t);
      var own := SlotsOf(t.triedSlots, n);
      assert own != {};
      var s :| s in own;
      assert TriedPlaced(t, pl, s);
      assert forall r :: r in t.newSlots ==> NewPlaced(t, pl, r);
      assert SlotsOf(t.newSlots, n) == {};
    } else {
      assert n in NewIds(t);
      assert LeftOver(t, NEW_BUCKET_COUNT, 0, mapNew, n);
    }
  }

  // ---------------------------------------------------------------- the checker

  /** Zero if all entries pass, with the sets of tried and new ids; looking up an address may add it to the index. */
  method CheckEntries(m: AddrMan) returns (err: int, setTried: set<int>, mapNew: map<int, int>)
    modifies m`mapAddr
    ensures forall ip :: LookedUp(m.mapAddr, ip) == LookedUp(old(m.mapAddr), ip)
    ensures AllIndexed(old(m.View())) ==> m.mapAddr == old(m.mapAddr)
    ensures err == 0 <==> forall n :: n in m.mapInfo ==> EntryChecked(old(m.View()), n)
    ensures err != 0 ==> exists n :: n in m.mapInfo && EntryBlamed(old(m.View()), n, err)
    ensures err == 0 ==> setTried == TriedIds(old(m.View())) && mapNew.Keys == NewIds(old(m.View()))
    ensures err == 0 ==> forall n :: n in mapNew ==> mapNew[n] == m.mapInfo[n].nRefCount
  {
    hide Occupied, EntryScan, LookedUp;
    ghost var t := m.View();
    setTried, mapNew := {}, map[];
    var order := AddrDisk.IdsInOrder(m.mapInfo);
    assert EntryScan(t, order, 0, {}, map[]) by { NoneScanned(t, order); }
    for i := 0 to |order|
      invariant m.View() == t.(mapAddr := m.mapAddr)
      invariant forall ip :: LookedUp(m.mapAddr, ip) == LookedUp(t.mapAddr, ip)
      invariant AllIndexed(t) ==> m.mapAddr == t.mapAddr
      invariant EntryScan(t, order, i, setTried, mapNew)
    {
      var n := order[i];
      assert n in order;
      var info := m.mapInfo[n];
      assert AllIndexed(t) ==> info.service.ip in t.mapAddr;
      if info.fInTried {
        if info.nLastSuccess == 0 { assert EntryBlamed(t, n, -1); return -1, setTried, mapNew; }
        if info.nRefCount != 0 { assert EntryBlamed(t, n, -2); return -2, setTried, mapNew; }
      } else {
        if info.nRefCount < 0 || info.nRefCount > NEW_BUCKETS_PER_ADDRESS { assert EntryBlamed(t, n, -3); return -3, setTried, mapNew; }
        if info.nRefCount == 0 { assert EntryBlamed(t, n, -4); return -4, setTried, mapNew; }
      }
      Probe(m, info.service.ip);
      if m.mapAddr[info.service.ip] != n {
        assert LookedUp(t.mapAddr, info.service.ip) != n;
        assert !EntryChecked(t, n) && EntryBlamed(t, n, -5);
        return -5, setTried, mapNew;
      }
      if info.nRandomPos < 0 || info.nRandomPos >= |m.vRandom| || m.vRandom[info.nRandomPos] != n { assert !EntryChecked(t, n) && EntryBlamed(t, n, -14); return -14, setTried, mapNew; }
      if info.nLastTry < 0 { assert !EntryChecked(t, n) && EntryBlamed(t, n, -6); return -6, setTried, mapNew; }
      if info.nLastSuccess < 0 { assert !EntryChecked(t, n) && EntryBlamed(t, n, -8); return -8, setTried, mapNew; }
      assert LookedUp(t.mapAddr, info.service.ip) == n;
      EntryScanned(t, order, i, setTried, mapNew);
      if info.fInTried { setTried := setTried + {n}; } else { mapNew := mapNew[n := info.nRefCount]; }
    }
    EntriesScanned(t, order, setTried, mapNew);
    return 0, setTried, mapNew;
  }

  lemma NoneScanned(t: Tables, order: seq<int>)
    requires forall n :: n in order ==> n in t.mapInfo
    ensures EntryScan(t, order, 0, {}, map[])
  {
  }

  /** Looking an address up as the map's index operator does. */
  method Probe(m: AddrMan, ip: NetAddr)
    modifies m`mapAddr
    ensures ip in m.mapAddr && m.mapAddr[ip] == LookedUp(old(m.mapAddr), ip)
    ensures m.mapAddr == if ip in old(m.mapAddr) then old(m.mapAddr) else old(m.mapAddr)[ip := 0]
    ensures forall a :: LookedUp(m.mapAddr, a) == LookedUp(old(m.mapAddr), a)
  {
    if ip !in m.mapAddr { m.mapAddr := m.mapAddr[ip := 0]; }
  }

  /** Zero if every occupied tried slot is its occupant's; what is left are tried entries without a slot. */
  method CheckTried(m: AddrMan, ghost t: Tables, all: set<int>) returns (err: int, setTried: set<int>)
    requires m.Shaped() && m.View() == t.(mapAddr := m.mapAddr) && all == TriedIds(t)
    ensures err == 0 ==> TriedScan(t, m.Pl(), TRIED_BUCKET_COUNT, 0, setTried)
    ensures err != 0 ==> !Placed(t, m.Pl()) && exists k :: k in t.triedSlots && TriedBlamed(t, m.Pl(), k, err)
  {
    hide Occupied, Crowded, TriedScan, Placed, Placement.TriedBucket, Placement.BucketPosition;
    ghost var pl := m.Pl();
    setTried := all;
    OccupiedRange(m.vvTried);
    TriedScanStart(t, pl);
    for n := 0 to TRIED_BUCKET_COUNT
      invariant TriedScan(t, pl, n, 0, setTried)
    {
      for i := 0 to BUCKET_SIZE
        invariant TriedScan(t, pl, n, i, setTried)
      {
        OccupiedAt(m.vvTried, n, i);
        TriedStep(t, pl, n, i, setTried);
        var id := m.vvTried[n, i];
        if id != -1 {
          if id !in setTried { assert TriedBlamed(t, pl, Slot(n, i), -11); return -11, setTried; }
          CrossedOffExists(t, pl, n, i, setTried, id);
          var info := m.mapInfo[id];
          if m.Pl().TriedBucket(info.service) != n { Misplaced(t, pl, Slot(n, i)); assert TriedBlamed(t, pl, Slot(n, i), -17); return -17, setTried; }
          if m.Pl().BucketPosition(false, n, info.service) != i { Misplaced(t, pl, Slot(n, i)); assert TriedBlamed(t, pl, Slot(n, i), -18); return -18, setTried; }
          setTried := setTried - {id};
        }
      }
      TriedRow(t, pl, n, setTried);
    }
    return 0, setTried;
  }

  lemma CrossedOffExists(t: Tables, pl: Placement, b: nat, p: nat, setTried: set<int>, id: int)
    requires TriedScan(t, pl, b, p, setTried) && id in setTried
    ensures id in t.mapInfo && t.mapInfo[id].fInTried
  {
  }

  lemma Misplaced(t: Tables, pl: Placement, s: Slot)
    requires s in t.triedSlots && t.triedSlots[s] in t.mapInfo && s != pl.TriedSlot(t.mapInfo[t.triedSlots[s]].service)
    ensures !Placed(t, pl)
  {
    assert !TriedPlaced(t, pl, s);
  }

  /** Zero if every occupied new slot is its occupant's and counted; what is left are counts of slots not found. */
  method CheckNew(m: AddrMan, ghost t: Tables, all: map<int, int>) returns (err: int, mapNew: map<int, int>)
    requires m.Shaped() && m.View() == t.(mapAddr := m.mapAddr) && NewScan(t, m.Pl(), 0, 0, all)
    ensures err == 0 ==> NewScan(t, m.Pl(), NEW_BUCKET_COUNT, 0, mapNew)
    ensures err != 0 ==> !Placed(t, m.Pl()) && exists s :: s in t.newSlots && NewBlamed(t, m.Pl(), s, err)
  {
    hide Occupied, Uncounted, NewScan, Placed, Placement.BucketPosition;
    ghost var pl := m.Pl();
    mapNew := all;
    OccupiedRange(m.vvNew);
    for n := 0 to NEW_BUCKET_COUNT
      invariant NewScan(t, pl, n, 0, mapNew)
    {
      for i := 0 to BUCKET_SIZE
        invariant NewScan(t, pl, n, i, mapNew)
      {
        OccupiedAt(m.vvNew, n, i);
        NewStep(t, pl, n, i, mapNew);
        var id := m.vvNew[n, i];
        if id != -1 {
          if id !in mapNew { assert NewBlamed(t, pl, Slot(n, i), -12); return -12, mapNew; }
          CountedExists(t, pl, n, i, mapNew, id);
          var info := m.mapInfo[id];
          if m.Pl().BucketPosition(true, n, info.service) != i { MisplacedNew(t, pl, Slot(n, i)); assert NewBlamed(t, pl, Slot(n, i), -19); return -19, mapNew; }
          mapNew := Down(mapNew, id);
        }
      }
      NewRow(t, pl, n, mapNew);
    }
    return 0, mapNew;
  }

  lemma CountedExists(t: Tables, pl: Placement, b: nat, p: nat, mapNew: map<int, int>, id: int)
    requires NewScan(t, pl, b, p, mapNew) && id in mapNew
    ensures id in t.mapInfo && !t.mapInfo[id].fInTried
  {
    assert id in NewIds(t);
  }

  lemma MisplacedNew(t: Tables, pl: Placement, s: Slot)
    requires s in t.newSlots && t.newSlots[s] in t.mapInfo && s != pl.NewSlot(t.mapInfo[t.newSlots[s]].service, s.bucket)
    ensures !Placed(t, pl)
  {
    assert !NewPlaced(t, pl, s);
  }

  lemma ConsistentIsChecked(t: Tables, pl: Placement)
    ensures Consistent(t, pl) ==> (Checked(t, pl) <==> !IsNull(pl.key)) && AllIndexed(t)
  {
    hide IsNull, Placed, Counted;
    CheckedAndOverlooked(t, pl);
    if Consistent(t, pl) {
      forall n | n in t.mapInfo ensures t.mapInfo[n].service.ip in t.mapAddr { assert EntryIndexed(t, n); }
    }
  }

  lemma CountedSizes(t: Tables)
    ensures Counted(t, 0) <==> |TriedIds(t)| == t.nTried && |NewIds(t)| == t.nNew
  {
  }

  /** Zero exactly for what `Checked` says; in particular for every manager that keeps the invariant. Any other answer names a fault. */
  method Check(m: AddrMan) returns (err: int)
    requires m.Shaped()
    modifies m`mapAddr
    ensures err == 0 <==> Checked(old(m.View()), m.Pl())
    ensures err != 0 ==> Blamed(old(m.View()), m.Pl(), err)
    ensures old(m.Valid()) ==> m.View() == old(m.View()) && (err == 0 <==> !IsNull(m.nKey))
  {
    hide Occupied, Placed, Counted, IsNull, Overlooked;
    ghost var t := m.View();
    ConsistentIsChecked(t, m.Pl());
    if |m.vRandom| != m.nTried + m.nNew { return -7; }
    var setTried, mapNew;
    err, setTried, mapNew := CheckEntries(m);
    if err != 0 { return; }
    CountedSizes(t);
    if |setTried| != m.nTried { return -9; }
    if |mapNew| != m.nNew { assert |mapNew| == |mapNew.Keys|; return -10; }
    NewScanStart(t, m.Pl(), mapNew);
    err, setTried := CheckTried(m, t, setTried);
    if err != 0 { return; }
    err, mapNew := CheckNew(m, t, mapNew);
    if err != 0 { return; }
    OccupiedRange(m.vvTried);
    OccupiedRange(m.vvNew);
    ScansDone(t, m.Pl(), setTried, mapNew);
    if setTried != {} { return -13; }
    if mapNew != map[] { return -15; }
    if IsNull(m.nKey) { return -16; }
    return 0;
  }
}
