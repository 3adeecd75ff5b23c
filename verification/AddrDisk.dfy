/**
 Writing the address manager to a stream and reading it back, in place.
 */
module AddrDisk {
  import opened Common
  import opened AddrTables
  import opened AddrInvariant
  import opened AddrMan
  import opened AddrStore

  class TokenStream {
    var tokens: seq<Token>

    constructor (tokens: seq<Token>)
      ensures this.tokens == tokens
    {
      this.tokens := tokens;
    }

    method Write(t: Token)
      modifies this
      ensures tokens == old(tokens) + [t]
    {
      tokens := tokens + [t];
    }

    /** None where the program throws at the end of the stream. */
    method Take() returns (r: Option<Token>)
      modifies this
      ensures r == if old(tokens) == [] then None else Some(old(tokens)[0])
      ensures tokens == if r.Some? then old(tokens)[1..] else old(tokens)
    {
      if tokens == [] { return None; }
      r := Some(tokens[0]);
      tokens := tokens[1..];
    }

    method TakeNum() returns (r: Option<int>)
      modifies this
      ensures r == if old(tokens) == [] || !old(tokens)[0].Num? then None else Some(old(tokens)[0].n)
      ensures r.Some? ==> tokens == old(tokens)[1..]
    {
      var t := Take();
      r := if t.None? || !t.value.Num? then None else Some(t.value.n);
    }

    method TakeRecord() returns (r: Option<Record>)
      modifies this
      ensures r == if old(tokens) == [] || !old(tokens)[0].Entry? then None else Some(old(tokens)[0].record)
      ensures r.Some? ==> tokens == old(tokens)[1..]
    {
      var t := Take();
      r := if t.None? || !t.value.Entry? then None else Some(t.value.record);
    }
  }

  // ---------------------------------------------------------------- writing

  lemma {:induction false} PickedConcat(t: Tables, a: seq<int>, b: seq<int>, tried: bool)
    ensures Picked(t, a + b, tried) == Picked(t, a, tried) + Picked(t, b, tried)
  {
    if a == [] {
      assert a + b == b;
    } else {
      assert (a + b)[1..] == a[1..] + b;
      PickedConcat(t, a[1..], b, tried);
    }
  }

  lemma {:induction false} EntriesSnoc(t: Tables, ids: seq<int>, n: int)
    requires n in t.mapInfo && forall i :: 0 <= i < |ids| ==> ids[i] in t.mapInfo
    ensures Entries(t, ids + [n]) == Entries(t, ids) + [Entry(Saved(t.mapInfo[n]))]
  {
    if ids == [] {
      assert ids + [n] == [n];
      assert Entries(t, [n][1..]) == [];
    } else {
      assert (ids + [n])[1..] == ids[1..] + [n];
      EntriesSnoc(t, ids[1..], n);
    }
  }

  /** The ids in the order in which a map visits them: ascending. */
  method IdsInOrder(m: map<int, AddrInfo>) returns (order: seq<int>)
    ensures forall i, j :: 0 <= i < j < |order| ==> order[i] < order[j]
    ensures forall n :: n in order <==> n in m
  {
    order := [];
    var left := m.Keys;
    while left != {}
      invariant left <= m.Keys && forall n :: n in order <==> n in m && n !in left
      invariant forall i, j :: 0 <= i < j < |order| ==> order[i] < order[j]
      invariant forall i, n :: 0 <= i < |order| && n in left ==> order[i] < n
      decreases |left|
    {
      Least(left);
      var n :| n in left && forall k :: k in left ==> n <= k;
      ghost var was := order;
      order := order + [n];
      left := left - {n};
      forall k ensures k in order <==> k in m && k !in left { assert k in order <==> k in was || k == n; }
    }
  }

  lemma {:induction false} Least(s: set<int>)
    requires s != {}
    ensures exists n :: n in s && forall k :: k in s ==> n <= k
    decreases |s|
  {
    var none: set<int> := {};
    if x :| x in s {
      if s - {x} != {} {
        Least(s - {x});
        var y :| y in s - {x} && forall k :: k in s - {x} ==> y <= k;
        var n := if x < y then x else y;
        forall k | k in s ensures n <= k { if k != x { assert k in s - {x}; } }
        assert n in s;
      } else {
        assert forall k :: k in s && k != x ==> k in s - {x};
      }
    } else {
      assert forall n :: n in s <==> n in none;
    }
  }

  /** The first `i` entries have been visited, and `nIds` of them written. */
  ghost predicate Numbered(t: Tables, order: seq<int>, i: nat, tried: bool, nIds: nat, ids: map<int, int>)
    requires i <= |order|
  {
    var done, all := Picked(t, order[..i], tried), Picked(t, order, tried);
    && |done| == nIds && done + Picked(t, order[i..], tried) == all
    && (forall n :: n in order[..i] ==> n in ids)
    && (forall k :: 0 <= k < nIds ==> all[k] in ids && ids[all[k]] == k)
  }

  lemma NumberedStart(t: Tables, order: seq<int>, tried: bool)
    ensures Numbered(t, order, 0, tried, 0, map[])
  {
    assert order[..0] == [] && order[0..] == order;
    assert [] + Picked(t, order, tried) == Picked(t, order, tried);
  }

  lemma NumberedStep(t: Tables, order: seq<int>, i: nat, tried: bool, nIds: nat, ids: map<int, int>)
    requires Distinct(order) && i < |order| && order[i] in t.mapInfo && Numbered(t, order, i, tried, nIds, ids)
    ensures var picked := IsPicked(t.mapInfo[order[i]], tried);
            && Numbered(t, order, i + 1, tried, if picked then nIds + 1 else nIds, ids[order[i] := nIds])
            && (picked ==> nIds < |Picked(t, order, tried)|)
    ensures Entries(t, Picked(t, order[..i + 1], tried))
         == Entries(t, Picked(t, order[..i], tried)) + if IsPicked(t.mapInfo[order[i]], tried) then [Entry(Saved(t.mapInfo[order[i]]))] else []
  {
    hide IsPicked, Picked, Entries;
    var n, all := order[i], Picked(t, order, tried);
    var done, rest := Picked(t, order[..i], tried), Picked(t, order[i + 1..], tried);
    PickedNext(t, order, i, tried);
    PickedWithin(t, order[..i], tried);
    PickedElsewhere(t, order, i, tried);
    assert forall k :: 0 <= k < nIds ==> all[k] == done[k] && done[k] in done;
    if IsPicked(t.mapInfo[n], tried) {
      assert done + ([n] + rest) == (done + [n]) + rest;
      assert all[nIds] == n;
      EntriesSnoc(t, done, n);
    } else {
      assert done + ([] + rest) == done + rest;
      assert Entries(t, done) + [] == Entries(t, done);
      assert done + [] == done;
    }
    assert order[..i + 1] == order[..i] + [n];
  }

  lemma NumberedEnd(t: Tables, order: seq<int>, tried: bool, nIds: nat, ids: map<int, int>)
    requires Numbered(t, order, |order|, tried, nIds, ids)
    ensures order[..|order|] == order && nIds == |Picked(t, order, tried)|
    ensures forall n :: n in order ==> n in ids
    ensures forall k :: 0 <= k < nIds ==> Picked(t, order, tried)[k] in ids && ids[Picked(t, order, tried)[k]] == k
  {
    assert order[..|order|] == order;
  }

  /** The new or the tried entries in order, and for each id how many were written before it. */
  method WriteEntries(m: AddrMan, s: TokenStream, order: seq<int>, tried: bool) returns (ids: map<int, int>)
    requires Consistent(m.View(), m.Pl()) && Ordered(m.View(), order)
    modifies s
    ensures s.tokens == old(s.tokens) + Entries(m.View(), Picked(m.View(), order, tried))
    ensures forall n :: n in m.mapInfo ==> n in ids
    ensures forall k :: 0 <= k < |Picked(m.View(), order, tried)| ==>
              Picked(m.View(), order, tried)[k] in ids && ids[Picked(m.View(), order, tried)[k]] == k
  {
    hide Indexed, Placed, Counted, Occupied, Numbered, Picked, Entries, IsPicked;
    ghost var t := m.View();
    ids := map[];
    var nIds := 0;
    EverythingPicked(t, m.Pl(), order);
    NumberedStart(t, order, tried);
    assert order[..0] == [];
    assert Entries(t, Picked(t, [], tried)) == [] by { NothingPicked(t, tried); }
    for i := 0 to |order|
      invariant m.View() == t && Numbered(t, order, i, tried, nIds, ids)
      invariant s.tokens == old(s.tokens) + Entries(t, Picked(t, order[..i], tried))
    {
      var n := order[i];
      assert n in order;
      NumberedStep(t, order, i, tried, nIds, ids);
      ids := ids[n := nIds];
      var info := m.mapInfo[n];
      if IsPicked(info, tried) {
        assert nIds != (if tried then m.nTried else m.nNew);
        s.Write(Entry(Saved(info)));
        nIds := nIds + 1;
      }
    }
    NumberedEnd(t, order, tried, nIds, ids);
  }

  lemma NothingPicked(t: Tables, tried: bool)
    ensures Entries(t, Picked(t, [], tried)) == []
  {
  }

  lemma PickedNext(t: Tables, order: seq<int>, i: nat, tried: bool)
    requires i < |order| && order[i] in t.mapInfo
    ensures Picked(t, order[..i + 1], tried) == Picked(t, order[..i], tried) + (if IsPicked(t.mapInfo[order[i]], tried) then [order[i]] else [])
    ensures Picked(t, order[i..], tried) == (if IsPicked(t.mapInfo[order[i]], tried) then [order[i]] else []) + Picked(t, order[i + 1..], tried)
  {
    hide IsPicked;
    assert order[..i + 1] == order[..i] + [order[i]];
    PickedConcat(t, order[..i], [order[i]], tried);
    assert [order[i]][1..] == [];
    assert order[i..][1..] == order[i + 1..];
  }

  lemma {:induction false} PickedWithin(t: Tables, order: seq<int>, tried: bool)
    ensures forall n :: n in Picked(t, order, tried) ==> n in order && n in t.mapInfo
  {
    hide IsPicked;
    if order != [] {
      PickedWithin(t, order[1..], tried);
      assert order == [order[0]] + order[1..];
    }
  }

  lemma PickedElsewhere(t: Tables, order: seq<int>, i: nat, tried: bool)
    requires Distinct(order) && i < |order|
    ensures order[i] !in Picked(t, order[..i], tried)
  {
    PickedWithin(t, order[..i], tried);
  }

  /** The table of numbers gives each new entry its place in the list. */
  ghost predicate NumbersNews(t: Tables, news: seq<int>, ids: map<int, int>) {
    forall s :: s in t.newSlots ==> t.newSlots[s] in ids && ids[t.newSlots[s]] == IndexOf(news, t.newSlots[s])
  }

  lemma NewsNumbered(t: Tables, pl: Placement, order: seq<int>, ids: map<int, int>)
    requires Consistent(t, pl) && Ordered(t, order)
    requires forall k :: 0 <= k < |Picked(t, order, false)| ==> Picked(t, order, false)[k] in ids && ids[Picked(t, order, false)[k]] == k
    ensures NumbersNews(t, Picked(t, order, false), ids)
  {
    hide Indexed, Counted, Picked, IndexOf, Enumerated;
    EverythingPicked(t, pl, order);
    var all, m := AllPicked(t, order), |Picked(t, order, false)|;
    AllPickedParts(t, order);
    assert all[..m] == Picked(t, order, false);
    forall s | s in t.newSlots ensures t.newSlots[s] in ids && ids[t.newSlots[s]] == IndexOf(all[..m], t.newSlots[s]) {
      var k := OccupantListed(t, pl, all, m, s);
      assert all[..m][k] == t.newSlots[s];
    }
  }

  method WriteBucket(m: AddrMan, s: TokenStream, b: nat, ids: map<int, int>, ghost news: seq<int>)
    requires m.Shaped() && b < NEW_BUCKET_COUNT && NumbersNews(m.View(), news, ids)
    modifies s
    ensures s.tokens == old(s.tokens) + ([Num(|BucketIds(m.View(), b, 0)|)] + Indices(news, BucketIds(m.View(), b, 0)))
  {
    hide Occupied, BucketIds, Indices, IndexOf;
    ghost var t := m.View();
    NoMoreIds(t, b, news);
    var nSize := 0;
    for i := 0 to BUCKET_SIZE
      invariant m.View() == t && s.tokens == old(s.tokens) && nSize + |BucketIds(t, b, i)| == |BucketIds(t, b, 0)|
    {
      OccupiedAt(m.vvNew, b, i);
      BucketNext(t, b, i, news);
      if m.vvNew[b, i] != -1 { nSize := nSize + 1; }
    }
    s.Write(Num(nSize));
    ghost var start := s.tokens;
    for i := 0 to BUCKET_SIZE
      invariant m.View() == t && s.tokens + Indices(news, BucketIds(t, b, i)) == start + Indices(news, BucketIds(t, b, 0))
    {
      OccupiedAt(m.vvNew, b, i);
      BucketNext(t, b, i, news);
      if m.vvNew[b, i] != -1 {
        assert Slot(b, i) in t.newSlots;
        var nIndex := ids[m.vvNew[b, i]];
        s.Write(Num(nIndex));
      }
    }
    assert s.tokens + [] == s.tokens;
  }

  /** What is written can be read back into a fresh manager, and nothing is lost. */
  method Serialize(m: AddrMan, s: TokenStream) returns (ghost order: seq<int>)
    requires m.Valid()
    modifies s
    ensures Ordered(m.View(), order) && forall i, j :: 0 <= i < j < |order| ==> order[i] < order[j]
    ensures s.tokens == old(s.tokens) + Written(m.View(), m.nKey, order)
    ensures forall rest :: Restores(m.net, m.View(), m.nKey, order, rest)
  {
    hide Indexed, Placed, Counted, Occupied, Picked, Entries, Buckets, BucketIds, Restores, Written, Header;
    ghost var t := m.View();
    var ids := IdsInOrder(m.mapInfo);
    order := ids;
    forall rest ensures Restores(m.net, t, m.nKey, order, rest) { StoreRestores(m.net, t, m.nKey, order, rest); }
    ghost var news := Picked(t, order, false);
    WriteHeader(m, s);
    assert m.View() == t;
    ghost var head := s.tokens;
    assert m.View() == t;
    var mapUnkIds := WriteEntries(m, s, ids, false);
    NewsNumbered(t, m.Pl(), order, mapUnkIds);
    assert m.View() == t;
    var unused := WriteEntries(m, s, ids, true);
    ghost var before := s.tokens;
    for bucket := 0 to NEW_BUCKET_COUNT
      invariant m.View() == t && s.tokens + Buckets(t, news, bucket) == before + Buckets(t, news, 0)
    {
      BucketsNext(t, news, bucket);
      WriteBucket(m, s, bucket, mapUnkIds, news);
    }
    BucketsOver(t, news);
    assert s.tokens + [] == s.tokens;
    WrittenParts(t, m.nKey, order);
    Regrouped(old(s.tokens), Header(t, m.nKey), Entries(t, news), Entries(t, Picked(t, order, true)), Buckets(t, news, 0));
  }

  lemma Regrouped(a: seq<Token>, b: seq<Token>, c: seq<Token>, d: seq<Token>, e: seq<Token>)
    ensures a + b + c + d + e == a + (b + (c + (d + e)))
  {
  }

  function Header(t: Tables, key: Key): seq<Token> {
    [Num(1), Num(32), KeyToken(key), Num(t.nNew), Num(t.nTried), Num(FlipBit30(NEW_BUCKET_COUNT))]
  }

  method WriteHeader(m: AddrMan, s: TokenStream)
    modifies s
    ensures s.tokens == old(s.tokens) + Header(m.View(), m.nKey)
  {
    hide Occupied;
    s.Write(Num(1));
    s.Write(Num(32));
    s.Write(KeyToken(m.nKey));
    s.Write(Num(m.nNew));
    s.Write(Num(m.nTried));
    s.Write(Num(FlipBit30(NEW_BUCKET_COUNT)));
  }

  lemma BucketsNext(t: Tables, news: seq<int>, b: nat)
    requires b < NEW_BUCKET_COUNT
    ensures Buckets(t, news, b) == [Num(|BucketIds(t, b, 0)|)] + Indices(news, BucketIds(t, b, 0)) + Buckets(t, news, b + 1)
  {
    hide BucketIds, Indices;
  }

  lemma BucketsOver(t: Tables, news: seq<int>)
    ensures Buckets(t, news, NEW_BUCKET_COUNT) == []
  {
  }

  lemma WrittenParts(t: Tables, key: Key, order: seq<int>)
    ensures Written(t, key, order)
         == Header(t, key) + (Entries(t, Picked(t, order, false)) + (Entries(t, Picked(t, order, true)) + Buckets(t, Picked(t, order, false), 0)))
  {
  }

  /** Reading the stream gives back the manager and leaves what follows it. */
  ghost predicate Restores(net: Network, t: Tables, key: Key, order: seq<int>, rest: seq<Token>) {
    var r := Load(net, Written(t, key, order) + rest);
    && r.Some? && r.value.1 == key && r.value.2 == rest
    && Renumbered(r.value.0, t, AllPicked(t, order)) && Consistent(r.value.0, Placement(net, key))
  }

  lemma {:induction false} StoreRestores(net: Network, t: Tables, key: Key, order: seq<int>, rest: seq<Token>)
    requires Consistent(t, Placement(net, key)) && Ordered(t, order)
    ensures Restores(net, t, key, order, rest)
  {
    hide Consistent, Renumbered, Load, Written, AllPicked;
    StoreRoundTrip(net, t, key, order, rest);
  }

  // ---------------------------------------------------------------- reading

  /** What the constructor does to the tables; the entries and the address index are left as they are. */
  method Clear(m: AddrMan, key: Key)
    requires m.Shaped()
    modifies m, m.vvNew, m.vvTried
    ensures m.View() == EMPTY.(mapInfo := old(m.mapInfo), mapAddr := old(m.mapAddr)) && m.nKey == key
    ensures m.nIdCount == 0 && m.vRandom == [] && m.nTried == 0 && m.nNew == 0
    ensures m.mapInfo == old(m.mapInfo) && m.mapAddr == old(m.mapAddr)
  {
    m.vRandom := [];
    m.nKey := key;
    ClearTable(m.vvNew);
    ClearTable(m.vvTried);
    m.nIdCount := 0;
    m.nTried := 0;
    m.nNew := 0;
  }

  method ClearTable(a: array2<int>)
    modifies a
    ensures Occupied(a) == map[]
  {
    for b := 0 to a.Length0
      invariant forall i, j :: 0 <= i < b && 0 <= j < a.Length1 ==> a[i, j] == -1
    {
      for p := 0 to a.Length1
        invariant forall i, j :: 0 <= i < b && 0 <= j < a.Length1 ==> a[i, j] == -1
        invariant forall j :: 0 <= j < p ==> a[b, j] == -1
      {
        a[b, p] := -1;
      }
    }
  }

  /** Enter new entry number `n` as read. */
  method EnterNew(m: AddrMan, n: nat, r: Record, usable: bool)
    requires m.Shaped()
    modifies m`mapInfo, m`mapAddr, m`vRandom, m.vvNew
    ensures m.View() == PushNew(old(m.View()), n, r, m.Pl(), usable)
  {
    hide Occupied, Placement.NewBucket, Placement.BucketPosition;
    ghost var before := m.View();
    var info := Restored(r);
    m.mapInfo := m.mapInfo[n := info];
    m.mapAddr := m.mapAddr[r.service.ip := n];
    m.mapInfo := m.mapInfo[n := m.mapInfo[n].(nRandomPos := |m.vRandom|)];
    m.vRandom := m.vRandom + [n];
    assert m.View() == PushNew(before, n, r, m.Pl(), true);
    if !usable {
      var nUBucket := m.Pl().NewBucket(r.service, r.source);
      var nUBucketPos := m.Pl().BucketPosition(true, nUBucket, r.service);
      OccupiedAt(m.vvNew, nUBucket, nUBucketPos);
      if m.vvNew[nUBucket, nUBucketPos] == -1 {
        Put(m.vvNew, nUBucket, nUBucketPos, n);
        m.mapInfo := m.mapInfo[n := m.mapInfo[n].(nRefCount := m.mapInfo[n].nRefCount + 1)];
      }
    }
  }

  /** Enter a tried entry as read; answers whether it was lost. */
  method EnterTried(m: AddrMan, r: Record) returns (lost: bool)
    requires m.Shaped() && m.nIdCount >= 0
    modifies m`mapInfo, m`mapAddr, m`vRandom, m`nIdCount, m.vvTried
    ensures lost <==> m.Pl().TriedSlot(r.service) in old(m.View()).triedSlots
    ensures m.View().(nTried := m.nTried - if lost then 1 else 0) == PushTried(old(m.View()), r, m.Pl())
    ensures m.nIdCount >= old(m.nIdCount)
  {
    hide Occupied, Placement.TriedBucket, Placement.BucketPosition;
    var nKBucket := m.Pl().TriedBucket(r.service);
    var nKBucketPos := m.Pl().BucketPosition(false, nKBucket, r.service);
    OccupiedAt(m.vvTried, nKBucket, nKBucketPos);
    if m.vvTried[nKBucket, nKBucketPos] != -1 { return true; }
    var id := m.nIdCount;
    var info := Restored(r).(nRandomPos := |m.vRandom|, fInTried := true);
    m.vRandom := m.vRandom + [id];
    m.mapInfo := m.mapInfo[id := info];
    m.mapAddr := m.mapAddr[r.service.ip := id];
    Put(m.vvTried, nKBucket, nKBucketPos, id);
    m.nIdCount := id + 1;
    return false;
  }

  /** Enter a new entry into one more bucket as read. */
  method EnterSlot(m: AddrMan, bucket: nat, nIndex: int, usable: bool)
    requires m.Shaped() && (usable ==> bucket < NEW_BUCKET_COUNT) && IdsBelow(m.View(), m.nIdCount) && m.nNew <= m.nIdCount
    modifies m`mapInfo, m.vvNew
    ensures m.View() == PutIndex(old(m.View()), bucket, nIndex, m.Pl(), usable)
  {
    hide Occupied, Placement.BucketPosition;
    if nIndex >= 0 && nIndex < m.nNew {
      var info := m.mapInfo[nIndex];
      var nUBucketPos := m.Pl().BucketPosition(true, bucket, info.service);
      if usable {
        OccupiedAt(m.vvNew, bucket, nUBucketPos);
        if m.vvNew[bucket, nUBucketPos] == -1 && info.nRefCount < NEW_BUCKETS_PER_ADDRESS {
          m.mapInfo := m.mapInfo[nIndex := info.(nRefCount := info.nRefCount + 1)];
          Put(m.vvNew, bucket, nUBucketPos, nIndex);
        }
      }
    }
  }

  /** What is true of the tables while they are read, whatever the stream holds. */
  ghost predicate Sound(u: Tables, k: int) { RandomOk(u) && IdsBelow(u, k) }

  method ReadNewEntries(m: AddrMan, s: TokenStream, count: nat, usable: bool) returns (ok: bool)
    requires m.Shaped() && Sound(m.View(), 0)
    modifies m`mapInfo, m`mapAddr, m`vRandom, m.vvNew, s
    ensures match ReadNews(old(m.View()), old(s.tokens), 0, count, m.Pl(), usable)
            case None => !ok
            case Some((u, rest)) => ok && m.View() == u && s.tokens == rest && Sound(u, count)
  {
    hide Occupied, RandomOk, IdsBelow, PushNew;
    ghost var pl := m.Pl();
    for n := 0 to count
      invariant m.Pl() == pl && Sound(m.View(), n)
      invariant ReadNews(m.View(), s.tokens, n, count, pl, usable) == ReadNews(old(m.View()), old(s.tokens), 0, count, pl, usable)
    {
      var r := s.TakeRecord();
      if r.None? { return false; }
      PushNewRandom(m.View(), n, r.value, pl, usable);
      EnterNew(m, n, r.value, usable);
    }
    return true;
  }

  method ReadTriedEntries(m: AddrMan, s: TokenStream) returns (ok: bool)
    requires m.Shaped() && m.nIdCount >= 0 && Sound(m.View(), m.nIdCount)
    modifies m`mapInfo, m`mapAddr, m`vRandom, m`nIdCount, m`nTried, m.vvTried, s
    ensures m.nIdCount >= old(m.nIdCount)
    ensures match ReadTrieds(old(m.View()), old(s.tokens), 0, old(m.nTried), m.Pl())
            case None => !ok
            case Some((u, rest)) => ok && m.View() == u && s.tokens == rest && Sound(u, u.nIdCount)
  {
    hide Occupied, RandomOk, IdsBelow, PushTried, Placement.TriedSlot;
    ghost var pl := m.Pl();
    var nLost, n := 0, 0;
    while n < m.nTried
      invariant m.Pl() == pl && m.nIdCount >= old(m.nIdCount) && Sound(m.View(), m.nIdCount) && m.nTried == old(m.nTried)
      invariant ReadTrieds(m.View().(nTried := m.nTried - nLost), s.tokens, n, m.nTried, pl)
             == ReadTrieds(old(m.View()), old(s.tokens), 0, old(m.nTried), pl)
    {
      ghost var u := m.View();
      var r := s.TakeRecord();
      if r.None? { return false; }
      PushTriedRandom(u, r.value, pl);
      LostLater(u, r.value, pl, m.nTried - nLost);
      var lost := EnterTried(m, r.value);
      SoundAside(m.View(), m.View().(nTried := m.nTried - if lost then 1 else 0));
      if lost { nLost := nLost + 1; }
      n := n + 1;
    }
    m.nTried := m.nTried - nLost;
    SoundAside(m.View(), m.View().(nTried := m.nTried + nLost));
    return true;
  }

  /** The count of tried entries plays no part in entering one. */
  lemma LostLater(u: Tables, r: Record, pl: Placement, k: int)
    ensures PushTried(u.(nTried := k), r, pl) == PushTried(u, r, pl).(nTried := k - if pl.TriedSlot(r.service) in u.triedSlots then 1 else 0)
  {
    hide Placement.TriedSlot;
  }

  lemma SoundAside(u: Tables, v: Tables)
    requires u == v.(nTried := u.nTried)
    ensures forall k :: Sound(u, k) <==> Sound(v, k)
  {
    assert forall n :: n in u.mapInfo ==> (RandomAt(u, n) <==> RandomAt(v, n));
  }

  method ReadOneBucket(m: AddrMan, s: TokenStream, bucket: nat, nSize: int, usable: bool) returns (ok: bool)
    requires m.Shaped() && (usable ==> bucket < NEW_BUCKET_COUNT) && Sound(m.View(), m.nIdCount) && m.nNew <= m.nIdCount
    modifies m`mapInfo, m.vvNew, s
    ensures match ReadBucket(old(m.View()), old(s.tokens), bucket, 0, nSize, m.Pl(), usable)
            case None => !ok
            case Some((u, rest)) => ok && m.View() == u && s.tokens == rest && Sound(u, u.nIdCount)
  {
    hide Occupied, RandomOk, IdsBelow, PutIndex;
    ghost var pl := m.Pl();
    var n := 0;
    while n < nSize
      invariant m.Pl() == pl && Sound(m.View(), m.nIdCount) && m.nNew <= m.nIdCount
      invariant ReadBucket(m.View(), s.tokens, bucket, n, nSize, pl, usable) == ReadBucket(old(m.View()), old(s.tokens), bucket, 0, nSize, pl, usable)
    {
      var nIndex := s.TakeNum();
      if nIndex.None? { return false; }
      PutIndexRandom(m.View(), bucket, nIndex.value, pl, usable);
      EnterSlot(m, bucket, nIndex.value, usable);
      n := n + 1;
    }
    return true;
  }

  method ReadAllBuckets(m: AddrMan, s: TokenStream, nUBuckets: int, usable: bool) returns (ok: bool)
    requires m.Shaped() && (usable ==> nUBuckets == NEW_BUCKET_COUNT) && Sound(m.View(), m.nIdCount) && m.nNew <= m.nIdCount
    modifies m`mapInfo, m.vvNew, s
    ensures match ReadBuckets(old(m.View()), old(s.tokens), 0, nUBuckets, m.Pl(), usable)
            case None => !ok
            case Some((u, rest)) => ok && m.View() == u && s.tokens == rest && Sound(u, u.nIdCount)
  {
    hide Occupied, Sound, ReadBucket;
    ghost var pl := m.Pl();
    var bucket := 0;
    while bucket < nUBuckets
      invariant m.Pl() == pl && Sound(m.View(), m.nIdCount) && m.nNew <= m.nIdCount
      invariant ReadBuckets(m.View(), s.tokens, bucket, nUBuckets, pl, usable) == ReadBuckets(old(m.View()), old(s.tokens), 0, nUBuckets, pl, usable)
    {
      var nSize := s.TakeNum();
      if nSize.None? { return false; }
      ok := ReadOneBucket(m, s, bucket, nSize.value, usable);
      if !ok { return; }
      bucket := bucket + 1;
    }
    return true;
  }

  /** Delete what has found no place. */
  method Prune(m: AddrMan)
    requires m.Shaped() && RandomOk(m.View())
    modifies m`mapInfo, m`mapAddr, m`vRandom, m`nNew
    ensures m.View() == Pruned(old(m.View()), 0, old(m.nIdCount)) && RandomOk(m.View())
  {
    hide Occupied, RandomOk, AddrTables.Delete, CanDelete;
    var n := 0;
    while n < m.nIdCount
      invariant RandomOk(m.View()) && m.nIdCount == old(m.nIdCount)
      invariant Pruned(m.View(), n, m.nIdCount) == Pruned(old(m.View()), 0, old(m.nIdCount))
    {
      if n in m.mapInfo && !m.mapInfo[n].fInTried && m.mapInfo[n].nRefCount == 0 {
        DeleteRandom(m.View(), n);
        m.Delete(n);
      }
      n := n + 1;
    }
  }

  predicate HasHeader(s: seq<Token>) {
    |s| >= 6 && s[0].Num? && s[1].Num? && s[1].n == 32 && s[2].KeyToken? && s[3].Num? && s[4].Num? && s[5].Num?
  }

  /** The header; answers the version and the number of buckets as written. */
  method TakeHeader(m: AddrMan, s: TokenStream) returns (r: Option<(int, int)>)
    modifies m`nKey, m`nNew, m`nTried, s
    ensures r.Some? <==> HasHeader(old(s.tokens))
    ensures r.Some? ==>
      && r.value == (old(s.tokens)[0].n, old(s.tokens)[5].n) && s.tokens == old(s.tokens)[6..]
      && m.nKey == old(s.tokens)[2].key && m.nNew == old(s.tokens)[3].n && m.nTried == old(s.tokens)[4].n
  {
    var nVersion := s.TakeNum();
    if nVersion.None? { return None; }
    var nKeySize := s.TakeNum();
    if nKeySize.None? || nKeySize.value != 32 { return None; }
    var nKey := s.Take();
    if nKey.None? || !nKey.value.KeyToken? { return None; }
    m.nKey := nKey.value.key;
    var nNew := s.TakeNum();
    if nNew.None? { return None; }
    m.nNew := nNew.value;
    var nTried := s.TakeNum();
    if nTried.None? { return None; }
    m.nTried := nTried.value;
    var nUBuckets := s.TakeNum();
    if nUBuckets.None? { return None; }
    return Some((nVersion.value, nUBuckets.value));
  }

  /**
   Read a manager from a stream into one that has not been used yet; answers false where the
   program throws. What was written from a consistent manager comes back consistent.
   */
  method Unserialize(m: AddrMan, s: TokenStream, randomKey: Key) returns (ok: bool)
    requires m.Shaped() && m.mapInfo == map[] && m.mapAddr == map[]
    modifies m, m.vvNew, m.vvTried, s
    ensures match Load(m.net, old(s.tokens))
            case None => !ok
            case Some((u, key, rest)) => ok && m.View() == u && m.nKey == key && s.tokens == rest && RandomOk(u)
  {
    hide Occupied, RandomOk, LoadTables, FlipBit30;
    Clear(m, randomKey);
    var header := TakeHeader(m, s);
    if header.None? { return false; }
    var (nVersion, nUBuckets) := header.value;
    if nVersion != 0 { nUBuckets := FlipBit30(nUBuckets); }
    if m.nNew > NEW_BUCKET_COUNT * BUCKET_SIZE { return false; }
    if m.nTried > TRIED_BUCKET_COUNT * BUCKET_SIZE { return false; }
    if m.nNew < 0 { return false; }
    var usable := nVersion == 1 && nUBuckets == NEW_BUCKET_COUNT;
    ok := ReadTables(m, s, nUBuckets, usable);
  }

  /** The part of the stream behind the header. */
  method ReadTables(m: AddrMan, s: TokenStream, nUBuckets: int, usable: bool) returns (ok: bool)
    requires m.Shaped() && m.View() == EMPTY.(nNew := m.nNew, nTried := m.nTried) && m.nNew >= 0
    requires usable ==> nUBuckets == NEW_BUCKET_COUNT
    modifies m`mapInfo, m`mapAddr, m`vRandom, m`nIdCount, m`nTried, m`nNew, m.vvNew, m.vvTried, s
    ensures match LoadTables(old(m.View()), old(s.tokens), nUBuckets, m.Pl(), usable)
            case None => !ok
            case Some((u, rest)) => ok && m.View() == u && s.tokens == rest && RandomOk(u)
  {
    hide Occupied, RandomOk, IdsBelow, ReadNews, ReadTrieds, ReadBuckets, Pruned;
    NothingYet(m.View());
    ok := ReadNewEntries(m, s, m.nNew, usable);
    if !ok { return; }
    m.nIdCount := m.nNew;
    IdCountAside(m.View(), m.nNew);
    ok := ReadTriedEntries(m, s);
    if !ok { return; }
    ok := ReadAllBuckets(m, s, nUBuckets, usable);
    if !ok { return; }
    Prune(m);
  }

  lemma NothingYet(u: Tables)
    requires u.mapInfo == map[] && u.vRandom == []
    ensures Sound(u, 0)
  {
  }

  lemma IdCountAside(u: Tables, k: int)
    ensures forall i :: Sound(u.(nIdCount := i), k) <==> Sound(u, k)
  {
    forall i ensures Sound(u.(nIdCount := i), k) <==> Sound(u, k) {
      assert forall n :: n in u.mapInfo ==> (RandomAt(u, n) <==> RandomAt(u.(nIdCount := i), n));
    }
  }
}
