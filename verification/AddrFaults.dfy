/**
 The answers of the debug checker of the address manager: what each number says is wrong, and
 that it is wrong whenever it is answered.
 */
module AddrFaults {
  import opened AddrTables
  import opened AddrInvariant
  import opened AddrCheck
  import AddrRuns

  /** The null key is the one of zeroes. */
  lemma NullKey(k: Key)
    ensures IsNull(k) <==> k == seq(|k|, i => 0)
  {
  }

  lemma OfEntry(t: Tables, pl: Placement, err: int)
    requires err in [-1, -2, -3, -4, -5, -14, -6, -8]
    ensures Blamed(t, pl, err) <==> exists n :: n in t.mapInfo && EntryBlamed(t, n, err)
  {
    hide EntryBlamed, TriedIds, NewIds, SlotsOf, Crowded, Uncounted, IsNull;
  }

  lemma OfTried(t: Tables, pl: Placement, err: int)
    requires err in [-11, -17, -18]
    ensures Blamed(t, pl, err) <==> exists k :: k in t.triedSlots && TriedBlamed(t, pl, k, err)
  {
    hide TriedBlamed, TriedIds, NewIds, SlotsOf, Uncounted, IsNull;
  }

  lemma OfNew(t: Tables, pl: Placement, err: int)
    requires err in [-12, -19]
    ensures Blamed(t, pl, err) <==> exists s :: s in t.newSlots && NewBlamed(t, pl, s, err)
  {
    hide NewBlamed, TriedIds, NewIds, SlotsOf, Crowded, IsNull;
  }

  /** The answers about the success and the reference count of one entry. */
  lemma EntryFaults(t: Tables, pl: Placement)
    ensures Blamed(t, pl, -1) <==> exists n :: n in t.mapInfo && t.mapInfo[n].fInTried && t.mapInfo[n].nLastSuccess == 0
    ensures Blamed(t, pl, -2) <==> exists n :: n in t.mapInfo && t.mapInfo[n].fInTried && t.mapInfo[n].nRefCount != 0
    ensures Blamed(t, pl, -3) <==> exists n :: n in t.mapInfo && !t.mapInfo[n].fInTried && !(0 <= t.mapInfo[n].nRefCount <= 8)
    ensures Blamed(t, pl, -4) <==> exists n :: n in t.mapInfo && !t.mapInfo[n].fInTried && t.mapInfo[n].nRefCount == 0
  {
    hide Blamed, LookedUp;
    OfEntry(t, pl, -1);
    OfEntry(t, pl, -2);
    OfEntry(t, pl, -3);
    OfEntry(t, pl, -4);
  }

  /** The answers about where one entry is, and about its times. */
  lemma PlaceFaults(t: Tables, pl: Placement)
    ensures Blamed(t, pl, -5) <==> exists n :: n in t.mapInfo && Misnamed(t, n)
    ensures Blamed(t, pl, -14) <==> exists n :: n in t.mapInfo && Misplaced(t, n)
    ensures Blamed(t, pl, -6) <==> exists n :: n in t.mapInfo && t.mapInfo[n].nLastTry < 0
    ensures Blamed(t, pl, -8) <==> exists n :: n in t.mapInfo && t.mapInfo[n].nLastSuccess < 0
  {
    hide Blamed, LookedUp;
    OfEntry(t, pl, -5);
    OfEntry(t, pl, -14);
    OfEntry(t, pl, -6);
    OfEntry(t, pl, -8);
    forall n | n in t.mapInfo ensures LookedUp(t.mapAddr, t.mapInfo[n].service.ip) != n <==> Misnamed(t, n) { NamedBy(t, n); }
  }

  lemma NamedBy(t: Tables, n: int)
    requires n in t.mapInfo
    ensures LookedUp(t.mapAddr, t.mapInfo[n].service.ip) != n <==> Misnamed(t, n)
  {
  }

  /** The address leads to another entry, or to none, which counts as entry zero. */
  ghost predicate Misnamed(t: Tables, n: int)
    requires n in t.mapInfo
  {
    var ip := t.mapInfo[n].service.ip;
    if ip in t.mapAddr then t.mapAddr[ip] != n else n != 0
  }

  /** The entry is not where it claims to be in the random order. */
  ghost predicate Misplaced(t: Tables, n: int)
    requires n in t.mapInfo
  {
    !exists i :: 0 <= i < |t.vRandom| && i == t.mapInfo[n].nRandomPos && t.vRandom[i] == n
  }

  /** The answers about the counters and the key. */
  lemma CountFaults(t: Tables, pl: Placement)
    ensures Blamed(t, pl, -7) <==> |t.vRandom| - t.nTried != t.nNew
    ensures Blamed(t, pl, -9) <==> t.nTried != |set n | n in t.mapInfo && t.mapInfo[n].fInTried|
    ensures Blamed(t, pl, -10) <==> t.nNew != |set n | n in t.mapInfo && !t.mapInfo[n].fInTried|
    ensures Blamed(t, pl, -16) <==> forall i :: 0 <= i < |pl.key| ==> pl.key[i] == 0
  {
    hide EntryBlamed, TriedBlamed, NewBlamed, SlotsOf;
    NotOne(t, pl, -7);
    NotOne(t, pl, -9);
    NotOne(t, pl, -10);
    NotOne(t, pl, -16);
  }

  /** The answers about the slots. */
  lemma SlotFaults(t: Tables, pl: Placement)
    ensures Blamed(t, pl, -11) <==> exists k :: k in t.triedSlots && NoneOrTwice(t, k)
    ensures Blamed(t, pl, -17) <==> exists k :: k in t.triedSlots && t.triedSlots[k] in t.mapInfo && k.bucket != pl.TriedBucket(t.mapInfo[t.triedSlots[k]].service)
    ensures Blamed(t, pl, -18) <==> exists k :: k in t.triedSlots && t.triedSlots[k] in t.mapInfo && k.pos != pl.BucketPosition(false, k.bucket, t.mapInfo[t.triedSlots[k]].service)
    ensures Blamed(t, pl, -12) <==> exists s :: s in t.newSlots && NoneOrTooOften(t, s)
    ensures Blamed(t, pl, -19) <==> exists s :: s in t.newSlots && t.newSlots[s] in t.mapInfo && s.pos != pl.BucketPosition(true, s.bucket, t.mapInfo[t.newSlots[s]].service)
  {
    hide Blamed, Crowded, Uncounted;
    OfTried(t, pl, -11);
    OfTried(t, pl, -17);
    OfTried(t, pl, -18);
    OfNew(t, pl, -12);
    OfNew(t, pl, -19);
    forall k | k in t.triedSlots ensures Crowded(t, k) <==> NoneOrTwice(t, k) { CrowdedIs(t, k); }
    forall s | s in t.newSlots ensures Uncounted(t, s) <==> NoneOrTooOften(t, s) { UncountedIs(t, s); }
  }

  /** The answers about entries left over. */
  lemma LeftFaults(t: Tables, pl: Placement)
    ensures Blamed(t, pl, -13) <==> exists n :: n in t.mapInfo && t.mapInfo[n].fInTried && Seatless(t, n)
    ensures Blamed(t, pl, -15) <==> exists n :: n in t.mapInfo && !t.mapInfo[n].fInTried && t.mapInfo[n].nRefCount > |set s | s in t.newSlots && t.newSlots[s] == n|
  {
    hide EntryBlamed, TriedBlamed, NewBlamed;
    NotOne(t, pl, -13);
    NotOne(t, pl, -15);
    forall n ensures SlotsOf(t.triedSlots, n) == {} <==> Seatless(t, n) { SeatlessIs(t, n); }
  }

  /** No tried slot holds the entry. */
  ghost predicate Seatless(t: Tables, n: int) { forall k :: k in t.triedSlots ==> t.triedSlots[k] != n }

  lemma SeatlessIs(t: Tables, n: int)
    ensures SlotsOf(t.triedSlots, n) == {} <==> Seatless(t, n)
  {
    if SlotsOf(t.triedSlots, n) == {} {
      forall k | k in t.triedSlots ensures t.triedSlots[k] != n { assert k !in SlotsOf(t.triedSlots, n); }
    }
  }

  lemma NotOne(t: Tables, pl: Placement, err: int)
    requires err in [-7, -9, -10, -13, -15, -16]
    ensures !exists n :: n in t.mapInfo && EntryBlamed(t, n, err)
    ensures !exists k :: k in t.triedSlots && TriedBlamed(t, pl, k, err)
    ensures !exists s :: s in t.newSlots && NewBlamed(t, pl, s, err)
  {
    hide LookedUp, Crowded, Uncounted, Placement.TriedBucket, Placement.BucketPosition;
  }

  /** A tried slot whose occupant is no tried entry, or is in another tried slot too. */
  ghost predicate NoneOrTwice(t: Tables, k: Slot)
    requires k in t.triedSlots
  {
    var n := t.triedSlots[k];
    n !in t.mapInfo || !t.mapInfo[n].fInTried || |set r | r in t.triedSlots && t.triedSlots[r] == n| > 1
  }

  /** A new slot whose occupant is no new entry, or is in more slots than it counts. */
  ghost predicate NoneOrTooOften(t: Tables, s: Slot)
    requires s in t.newSlots
  {
    var n := t.newSlots[s];
    n !in t.mapInfo || t.mapInfo[n].fInTried || |set r | r in t.newSlots && t.newSlots[r] == n| > t.mapInfo[n].nRefCount
  }

  lemma CrowdedIs(t: Tables, k: Slot)
    requires k in t.triedSlots
    ensures Crowded(t, k) <==> NoneOrTwice(t, k)
  {
    var own := set r | r in t.triedSlots && t.triedSlots[r] == t.triedSlots[k];
    var rest := own - {k};
    assert k in own && |rest| == |own| - 1;
    if rest != {} {
      var r :| r in rest;
      assert r in t.triedSlots && r != k && t.triedSlots[r] == t.triedSlots[k];
    } else {
      forall r | r in t.triedSlots && t.triedSlots[r] == t.triedSlots[k] ensures r == k { assert r in own && r !in rest; }
      assert |own| == 1;
    }
  }

  lemma UncountedIs(t: Tables, s: Slot)
    requires s in t.newSlots
    ensures Uncounted(t, s) <==> NoneOrTooOften(t, s)
  {
  }

  /** There are no other answers. */
  lemma AnswersAre(t: Tables, pl: Placement, err: int)
    requires Blamed(t, pl, err)
    ensures -19 <= err <= -1
  {
  }

  lemma NotBlamed(t: Tables, pl: Placement, err: int)
    requires Fitting(t, pl) && Blamed(t, pl, err)
    ensures err == -16 && IsNull(pl.key)
  {
    hide IsNull, Placement.TriedSlot, Placement.NewSlot, TriedIds, NewIds, SlotsOf, LookedUp, TriedBlamed, NewBlamed;
    forall n | n in t.mapInfo ensures !EntryBlamed(t, n, err) { assert EntryChecked(t, n); }
    forall k | k in t.triedSlots ensures !TriedBlamed(t, pl, k, err) { TriedNotBlamed(t, pl, k, err); }
    forall s | s in t.newSlots ensures !NewBlamed(t, pl, s, err) { NewNotBlamed(t, pl, s, err); }
    forall n | n in t.mapInfo ensures n in TriedIds(t) ==> SlotsOf(t.triedSlots, n) != {} { NotSeatless(t, pl, n); }
    forall n | n in NewIds(t) ensures n in t.mapInfo && |SlotsOf(t.newSlots, n)| == t.mapInfo[n].nRefCount { CountIs(t, pl, n); }
    assert forall n :: n in TriedIds(t) ==> n in t.mapInfo by { TriedAre(t); }
  }

  lemma TriedAre(t: Tables)
    ensures forall n :: n in TriedIds(t) ==> n in t.mapInfo
  {
  }

  lemma TriedNotBlamed(t: Tables, pl: Placement, k: Slot, err: int)
    requires Placed(t, pl) && k in t.triedSlots
    ensures !TriedBlamed(t, pl, k, err)
  {
    hide Placement.TriedBucket, Placement.BucketPosition;
    assert TriedPlaced(t, pl, k);
    forall r | r in t.triedSlots && t.triedSlots[r] == t.triedSlots[k] ensures r == k { assert TriedPlaced(t, pl, r); }
  }

  lemma NewNotBlamed(t: Tables, pl: Placement, s: Slot, err: int)
    requires Placed(t, pl) && s in t.newSlots
    ensures !NewBlamed(t, pl, s, err)
  {
    hide Placement.BucketPosition, Placement.TriedSlot;
    assert NewPlaced(t, pl, s) && EntryPlaced(t, pl, t.newSlots[s]);
  }

  lemma NotSeatless(t: Tables, pl: Placement, n: int)
    requires Placed(t, pl) && n in t.mapInfo
    ensures n in TriedIds(t) ==> SlotsOf(t.triedSlots, n) != {}
  {
    hide Placement.TriedSlot;
    assert EntryPlaced(t, pl, n);
    if n in TriedIds(t) { assert pl.TriedSlot(t.mapInfo[n].service) in SlotsOf(t.triedSlots, n); }
  }

  lemma CountIs(t: Tables, pl: Placement, n: int)
    requires Placed(t, pl) && n in NewIds(t)
    ensures n in t.mapInfo && |SlotsOf(t.newSlots, n)| == t.mapInfo[n].nRefCount
  {
    hide Placement.TriedSlot;
    assert EntryPlaced(t, pl, n);
  }

  /** A manager that is blamed for anything but its key is not consistent, and no state that the checker accepts is blamed. */
  lemma BlamedIsBroken(t: Tables, pl: Placement, err: int)
    requires Blamed(t, pl, err)
    ensures !Checked(t, pl) && (err != -16 ==> !Consistent(t, pl))
  {
    hide Blamed, Fitting, Consistent;
    if Fitting(t, pl) { NotBlamed(t, pl, err); }
    if Consistent(t, pl) { ConsistentChecked(t, pl); }
  }
}
