/**
 The address manager on disk: which entries and slots are written, how tables are built
 up again from them, and that nothing is lost on the way.
 */
module AddrStore {
  import opened Common
  import opened AddrTables
  import opened AddrInvariant

  /** The fields of an entry that are written. */
  datatype Record = Record(service: Service, nServices: set<nat>, nTime: nat, source: NetAddr, nLastSuccess: int, nAttempts: int)

  /** One value in the stream. */
  datatype Token = Num(n: int) | KeyToken(key: Key) | Entry(record: Record)

  function Saved(i: AddrInfo): Record { Record(i.service, i.nServices, i.nTime, i.source, i.nLastSuccess, i.nAttempts) }

  function Restored(r: Record): AddrInfo {
    AddrInfo(r.service, r.nServices, r.nTime, r.source, 0, r.nLastSuccess, r.nAttempts, 0, false, -1)
  }

  const BIT30: int := 0x4000_0000

  /** Exclusive or of a 32-bit integer with its bit 30. */
  function FlipBit30(n: int): int { if (n / BIT30) % 2 == 0 then n + BIT30 else n - BIT30 }

  // ---------------------------------------------------------------- writing

  /** Which entries are written as new, and which as tried. */
  predicate IsPicked(i: AddrInfo, tried: bool) { if tried then i.fInTried else i.nRefCount != 0 }

  function Picked(t: Tables, order: seq<int>, tried: bool): seq<int> {
    if order == [] then []
    else (if order[0] in t.mapInfo && IsPicked(t.mapInfo[order[0]], tried) then [order[0]] else []) + Picked(t, order[1..], tried)
  }

  function Entries(t: Tables, ids: seq<int>): seq<Token> {
    if ids == [] || ids[0] !in t.mapInfo then [] else [Entry(Saved(t.mapInfo[ids[0]]))] + Entries(t, ids[1..])
  }

  function IndexOf(s: seq<int>, x: int): nat {
    if s == [] || s[0] == x then 0 else 1 + IndexOf(s[1..], x)
  }

  /** The occupants of a new bucket from position `p` on. */
  function BucketIds(t: Tables, b: nat, p: nat): seq<int>
    decreases BUCKET_SIZE - p
  {
    if p >= BUCKET_SIZE then []
    else (if Slot(b, p) in t.newSlots then [t.newSlots[Slot(b, p)]] else []) + BucketIds(t, b, p + 1)
  }

  /** Ids are written as places in the list of new entries. */
  function Indices(news: seq<int>, ids: seq<int>): seq<Token> {
    if ids == [] then [] else [Num(IndexOf(news, ids[0]))] + Indices(news, ids[1..])
  }

  function Buckets(t: Tables, news: seq<int>, b: nat): seq<Token>
    decreases NEW_BUCKET_COUNT - b
  {
    if b >= NEW_BUCKET_COUNT then []
    else [Num(|BucketIds(t, b, 0)|)] + (Indices(news, BucketIds(t, b, 0)) + Buckets(t, news, b + 1))
  }

  /** The stream written for tables whose entries come in the given order. */
  function Written(t: Tables, key: Key, order: seq<int>): seq<Token> {
    var news := Picked(t, order, false);
    [Num(1), Num(32), KeyToken(key), Num(t.nNew), Num(t.nTried), Num(FlipBit30(NEW_BUCKET_COUNT))]
    + (Entries(t, news) + (Entries(t, Picked(t, order, true)) + Buckets(t, news, 0)))
  }

  // ---------------------------------------------------------------- reading

  /** Tables read so far and what is left of the stream; the program throws where there is none. */
  type Reading = Option<(Tables, seq<Token>)>

  /** Enter new entry number `n`; without usable bucket data it goes to its primary bucket if there is room. */
  function PushNew(u: Tables, n: int, r: Record, pl: Placement, usable: bool): Tables {
    var info := Restored(r).(nRandomPos := |u.vRandom|);
    var v := u.(mapInfo := u.mapInfo[n := info], mapAddr := u.mapAddr[r.service.ip := n], vRandom := u.vRandom + [n]);
    var s := pl.NewSlot(r.service, pl.NewBucket(r.service, r.source));
    if usable || s in v.newSlots then v
    else v.(newSlots := v.newSlots[s := n], mapInfo := v.mapInfo[n := info.(nRefCount := 1)])
  }

  /** Enter a tried entry into its slot, or lose it if that is taken. */
  function PushTried(u: Tables, r: Record, pl: Placement): Tables {
    var s := pl.TriedSlot(r.service);
    if s in u.triedSlots then u.(nTried := u.nTried - 1)
    else
      var id := u.nIdCount;
      u.(mapInfo := u.mapInfo[id := Restored(r).(nRandomPos := |u.vRandom|, fInTried := true)],
         mapAddr := u.mapAddr[r.service.ip := id],
         vRandom := u.vRandom + [id],
         triedSlots := u.triedSlots[s := id],
         nIdCount := id + 1)
  }

  /** Enter a new entry into one more bucket if its slot there is free and it may have one more. */
  function PutIndex(u: Tables, b: nat, n: int, pl: Placement, usable: bool): Tables {
    if !(0 <= n < u.nNew) || n !in u.mapInfo then u
    else
      var info := u.mapInfo[n];
      var s := pl.NewSlot(info.service, b);
      if usable && s !in u.newSlots && info.nRefCount < NEW_BUCKETS_PER_ADDRESS then
        u.(newSlots := u.newSlots[s := n], mapInfo := u.mapInfo[n := info.(nRefCount := info.nRefCount + 1)])
      else u
  }

  function ReadNews(u: Tables, s: seq<Token>, n: int, count: int, pl: Placement, usable: bool): Reading
    decreases |s|
  {
    if n >= count then Some((u, s))
    else if s == [] || !s[0].Entry? then None
    else ReadNews(PushNew(u, n, s[0].record, pl, usable), s[1..], n + 1, count, pl, usable)
  }

  function ReadTrieds(u: Tables, s: seq<Token>, n: int, count: int, pl: Placement): Reading
    decreases |s|
  {
    if n >= count then Some((u, s))
    else if s == [] || !s[0].Entry? then None
    else ReadTrieds(PushTried(u, s[0].record, pl), s[1..], n + 1, count, pl)
  }

  function ReadBucket(u: Tables, s: seq<Token>, b: nat, n: int, size: int, pl: Placement, usable: bool): Reading
    decreases |s|
  {
    if n >= size then Some((u, s))
    else if s == [] || !s[0].Num? then None
    else ReadBucket(PutIndex(u, b, s[0].n, pl, usable), s[1..], b, n + 1, size, pl, usable)
  }

  lemma {:induction false} ReadBucketShrinks(u: Tables, s: seq<Token>, b: nat, n: int, size: int, pl: Placement, usable: bool)
    ensures var r := ReadBucket(u, s, b, n, size, pl, usable); r.Some? ==> |r.value.1| <= |s|
    decreases |s|
  {
    if n < size && s != [] && s[0].Num? {
      ReadBucketShrinks(PutIndex(u, b, s[0].n, pl, usable), s[1..], b, n + 1, size, pl, usable);
    }
  }

  function ReadBuckets(u: Tables, s: seq<Token>, b: nat, count: int, pl: Placement, usable: bool): Reading
    decreases |s|
  {
    if b >= count then Some((u, s))
    else if s == [] || !s[0].Num? then None
    else
      ReadBucketShrinks(u, s[1..], b, 0, s[0].n, pl, usable);
      match ReadBucket(u, s[1..], b, 0, s[0].n, pl, usable)
      case None => None
      case Some((v, rest)) => ReadBuckets(v, rest, b + 1, count, pl, usable)
  }

  /** Delete the entries with no slot, in the order of their ids from `n` on. */
  function Pruned(u: Tables, n: int, top: int): Tables
    decreases top - n
  {
    if n >= top then u
    else if n in u.mapInfo && !u.mapInfo[n].fInTried && u.mapInfo[n].nRefCount == 0 && CanDelete(u, n) then
      Pruned(Delete(u, n), n + 1, top)
    else Pruned(u, n + 1, top)
  }

  /** What is read from a stream into a manager fresh from its constructor: the tables, the key, the rest. */
  function Load(net: Network, s: seq<Token>): Option<(Tables, Key, seq<Token>)> {
    if |s| < 6 || !s[0].Num? || !s[1].Num? || s[1].n != 32 || !s[2].KeyToken? || !s[3].Num? || !s[4].Num? || !s[5].Num? then None
    else
      var nVersion, key, nNew, nTried := s[0].n, s[2].key, s[3].n, s[4].n;
      var nUBuckets := if nVersion != 0 then FlipBit30(s[5].n) else s[5].n;
      var usable := nVersion == 1 && nUBuckets == NEW_BUCKET_COUNT;
      var pl := Placement(net, key);
      if nNew > NEW_BUCKET_COUNT * BUCKET_SIZE || nTried > TRIED_BUCKET_COUNT * BUCKET_SIZE || nNew < 0 then None
      else
        match LoadTables(EMPTY.(nNew := nNew, nTried := nTried), s[6..], nUBuckets, pl, usable)
        case None => None
        case Some((u, rest)) => Some((u, key, rest))
  }

  /** The entries, the slots, and what is left after pruning, behind the header. */
  function LoadTables(u: Tables, s: seq<Token>, nUBuckets: int, pl: Placement, usable: bool): Reading {
    match Enter(u, s, nUBuckets, pl, usable)
    case None => None
    case Some((v, rest)) => Some((Pruned(v, 0, v.nIdCount), rest))
  }

  /** Everything entered from a stream behind its header, entries with no slot as well. */
  function Enter(u: Tables, s: seq<Token>, nUBuckets: int, pl: Placement, usable: bool): Reading {
    match ReadNews(u, s, 0, u.nNew, pl, usable)
    case None => None
    case Some((u1, s1)) =>
      match ReadTrieds(u1.(nIdCount := u.nNew), s1, 0, u.nTried, pl)
      case None => None
      case Some((u2, s2)) => ReadBuckets(u2, s2, 0, nUBuckets, pl, usable)
  }

  // ---------------------------------------------------------------- nothing is lost

  predicate Distinct(s: seq<int>) { forall i, j :: 0 <= i < j < |s| ==> s[i] != s[j] }

  /** All entries listed, the `m` new ones first. */
  ghost predicate Enumerated(t: Tables, all: seq<int>, m: nat) {
    && Distinct(all) && m <= |all|
    && (forall i :: 0 <= i < |all| ==> EnumeratedAt(t, all, m, i))
    && (forall n :: n in t.mapInfo ==> n in all)
  }

  ghost predicate EnumeratedAt(t: Tables, all: seq<int>, m: nat, i: int)
    requires 0 <= i < |all|
  {
    all[i] in t.mapInfo && (t.mapInfo[all[i]].fInTried <==> i >= m)
  }

  /** Entry `i` is the one listed there, as far as it is written. */
  ghost predicate EntryRestored(u: Tables, t: Tables, all: seq<int>, i: int) {
    && 0 <= i < |all| && all[i] in t.mapInfo && i in u.mapInfo
    && var info := t.mapInfo[all[i]];
       u.mapInfo[i] == Restored(Saved(info)).(nRandomPos := i, fInTried := info.fInTried, nRefCount := u.mapInfo[i].nRefCount)
  }

  ghost predicate AddrRestored(u: Tables, t: Tables, all: seq<int>, i: int) {
    0 <= i < |all| && all[i] in t.mapInfo &&
    var ip := t.mapInfo[all[i]].service.ip;
    ip in u.mapAddr && u.mapAddr[ip] == i
  }

  ghost predicate AddrListed(u: Tables, t: Tables, all: seq<int>, k: nat, a: NetAddr)
    requires a in u.mapAddr
  {
    var i := u.mapAddr[a];
    0 <= i < k <= |all| && all[i] in t.mapInfo && t.mapInfo[all[i]].service.ip == a
  }

  ghost predicate SeatRestored(u: Tables, t: Tables, all: seq<int>, k: nat, s: Slot)
    requires s in u.triedSlots
  {
    var i := u.triedSlots[s];
    0 <= i < k <= |all| && s in t.triedSlots && all[i] == t.triedSlots[s]
  }

  ghost predicate Seated(u: Tables, t: Tables, pl: Placement, all: seq<int>, i: int) {
    0 <= i < |all| && all[i] in t.mapInfo &&
    (t.mapInfo[all[i]].fInTried ==> pl.TriedSlot(t.mapInfo[all[i]].service) in u.triedSlots)
  }

  /** The first `k` entries listed have been entered, each under its place as its id. */
  ghost predicate Part(u: Tables, t: Tables, pl: Placement, all: seq<int>, k: nat) {
    && k <= |all| && u.nNew == t.nNew && u.nTried == t.nTried
    && (forall i :: i in u.mapInfo <==> 0 <= i < k)
    && (forall i :: 0 <= i < k ==> EntryRestored(u, t, all, i))
    && (forall i :: 0 <= i < k ==> AddrRestored(u, t, all, i))
    && (forall a :: a in u.mapAddr ==> AddrListed(u, t, all, k, a))
    && |u.vRandom| == k && (forall i :: 0 <= i < k ==> u.vRandom[i] == i)
    && (forall s :: s in u.triedSlots ==> SeatRestored(u, t, all, k, s))
    && (forall i :: 0 <= i < k ==> Seated(u, t, pl, all, i))
  }

  /** No new slot has been filled yet. */
  ghost predicate NoSlots(u: Tables) {
    u.newSlots == map[] && forall i :: i in u.mapInfo ==> u.mapInfo[i].nRefCount == 0
  }

  /** Entries listed at different places have different addresses. */
  lemma AddrNotYet(u: Tables, t: Tables, pl: Placement, all: seq<int>, m: nat, k: nat)
    requires Indexed(t) && Enumerated(t, all, m) && Part(u, t, pl, all, k) && k < |all|
    ensures all[k] in t.mapInfo && t.mapInfo[all[k]].service.ip !in u.mapAddr
  {
    assert EnumeratedAt(t, all, m, k);
    var a := t.mapInfo[all[k]].service.ip;
    assert EntryIndexed(t, all[k]);
    forall i | 0 <= i < k ensures all[i] in t.mapInfo && t.mapInfo[all[i]].service.ip != a {
      assert EnumeratedAt(t, all, m, i);
      assert EntryIndexed(t, all[i]);
    }
    assert a in u.mapAddr ==> AddrListed(u, t, all, k, a);
  }

  lemma NewEntered(u: Tables, t: Tables, pl: Placement, all: seq<int>, m: nat, k: nat)
    requires Indexed(t) && Enumerated(t, all, m) && Part(u, t, pl, all, k) && NoSlots(u) && k < m
    ensures all[k] in t.mapInfo
    ensures var v := PushNew(u, k, Saved(t.mapInfo[all[k]]), pl, true);
            Part(v, t, pl, all, k + 1) && NoSlots(v) && v.nIdCount == u.nIdCount
  {
    hide Indexed;
    AddrNotYet(u, t, pl, all, m, k);
    assert EnumeratedAt(t, all, m, k);
    var v := PushNew(u, k, Saved(t.mapInfo[all[k]]), pl, true);
    PartGrows(u, v, t, pl, all, k);
  }

  /** Entering one more entry, seated or not. */
  lemma PartGrows(u: Tables, v: Tables, t: Tables, pl: Placement, all: seq<int>, k: nat)
    requires Part(u, t, pl, all, k) && k < |all| && all[k] in t.mapInfo && t.mapInfo[all[k]].service.ip !in u.mapAddr
    requires v.nNew == u.nNew && v.nTried == u.nTried && v.vRandom == u.vRandom + [k]
    requires k in v.mapInfo && v.mapInfo == u.mapInfo[k := v.mapInfo[k]] && EntryRestored(v, t, all, k)
    requires v.mapAddr == u.mapAddr[t.mapInfo[all[k]].service.ip := k]
    requires v.triedSlots == u.triedSlots || exists s :: s in v.triedSlots && v.triedSlots == u.triedSlots[s := k] && s in t.triedSlots && t.triedSlots[s] == all[k]
    requires Seated(v, t, pl, all, k)
    ensures Part(v, t, pl, all, k + 1)
  {
    forall i | 0 <= i < k + 1 ensures EntryRestored(v, t, all, i) { if i < k { assert EntryRestored(u, t, all, i); } }
    forall i | 0 <= i < k + 1 ensures AddrRestored(v, t, all, i) { if i < k { assert AddrRestored(u, t, all, i); } }
    forall a | a in v.mapAddr ensures AddrListed(v, t, all, k + 1, a) { if a in u.mapAddr { assert AddrListed(u, t, all, k, a); } }
    forall s | s in v.triedSlots ensures SeatRestored(v, t, all, k + 1, s) { if s in u.triedSlots { assert SeatRestored(u, t, all, k, s); } }
    forall i | 0 <= i < k + 1 ensures Seated(v, t, pl, all, i) { if i < k { assert Seated(u, t, pl, all, i); } }
  }

  lemma TriedEntered(u: Tables, t: Tables, pl: Placement, all: seq<int>, m: nat, k: nat)
    requires Indexed(t) && Placed(t, pl) && Enumerated(t, all, m) && Part(u, t, pl, all, k) && NoSlots(u) && m <= k < |all| && u.nIdCount == k
    ensures all[k] in t.mapInfo
    ensures var v := PushTried(u, Saved(t.mapInfo[all[k]]), pl);
            Part(v, t, pl, all, k + 1) && NoSlots(v) && v.nIdCount == k + 1
  {
    hide Indexed, Placement.TriedSlot;
    AddrNotYet(u, t, pl, all, m, k);
    assert EnumeratedAt(t, all, m, k) && EntryPlaced(t, pl, all[k]);
    var s := pl.TriedSlot(t.mapInfo[all[k]].service);
    assert s in u.triedSlots ==> SeatRestored(u, t, all, k, s);
    var v := PushTried(u, Saved(t.mapInfo[all[k]]), pl);
    PartGrows(u, v, t, pl, all, k);
  }

  lemma {:induction false} NewsRead(u: Tables, t: Tables, pl: Placement, all: seq<int>, m: nat, k: nat, rest: seq<Token>) returns (v: Tables)
    requires Indexed(t) && Enumerated(t, all, m) && Part(u, t, pl, all, k) && NoSlots(u) && k <= m
    ensures ReadNews(u, Entries(t, all[k..m]) + rest, k, m, pl, true) == Some((v, rest))
    ensures Part(v, t, pl, all, m) && NoSlots(v)
    decreases m - k
  {
    hide Indexed, Enumerated, Part, NoSlots, PushNew;
    ListedParts(t, all, m);
    var s := Entries(t, all[k..m]) + rest;
    if k == m {
      assert s == rest;
      v := u;
    } else {
      NewEntered(u, t, pl, all, m, k);
      assert all[k..m][1..] == all[k + 1..m];
      var w := PushNew(u, k, Saved(t.mapInfo[all[k]]), pl, true);
      assert s[1..] == Entries(t, all[k + 1..m]) + rest;
      v := NewsRead(w, t, pl, all, m, k + 1, rest);
    }
  }

  lemma {:induction false} TriedsRead(u: Tables, t: Tables, pl: Placement, all: seq<int>, m: nat, k: nat, rest: seq<Token>) returns (v: Tables)
    requires Indexed(t) && Placed(t, pl) && Enumerated(t, all, m) && Part(u, t, pl, all, k) && NoSlots(u) && m <= k <= |all| && u.nIdCount == k
    ensures ReadTrieds(u, Entries(t, all[k..]) + rest, k - m, |all| - m, pl) == Some((v, rest))
    ensures Part(v, t, pl, all, |all|) && NoSlots(v) && v.nIdCount == |all|
    decreases |all| - k
  {
    hide Indexed, Placed, Enumerated, Part, NoSlots, PushTried;
    ListedParts(t, all, m);
    var s := Entries(t, all[k..]) + rest;
    if k == |all| {
      assert s == rest;
      v := u;
    } else {
      TriedEntered(u, t, pl, all, m, k);
      assert all[k..][1..] == all[k + 1..];
      var w := PushTried(u, Saved(t.mapInfo[all[k]]), pl);
      assert s[1..] == Entries(t, all[k + 1..]) + rest;
      v := TriedsRead(w, t, pl, all, m, k + 1, rest);
    }
  }

  lemma ListedParts(t: Tables, all: seq<int>, m: nat)
    requires Enumerated(t, all, m)
    ensures m <= |all|
  {
  }

  // ---------------------------------------------------------------- the new slots

  predicate Before(s: Slot, b: nat, p: nat) { s.bucket < b || (s.bucket == b && s.pos < p) }

  lemma BeforeNext(b: nat, p: nat)
    ensures forall s :: Before(s, b, p + 1) <==> Before(s, b, p) || s == Slot(b, p)
  {
    hide Before;
    forall s ensures Before(s, b, p + 1) <==> Before(s, b, p) || s == Slot(b, p) { BeforeOne(s, b, p); }
  }

  lemma BeforeOne(s: Slot, b: nat, p: nat)
    ensures Before(s, b, p + 1) <==> Before(s, b, p) || s == Slot(b, p)
  {
    if s.bucket == b && s.pos == p { assert s == Slot(b, p); }
  }

  ghost predicate SlotRestored(u: Tables, t: Tables, all: seq<int>, s: Slot)
    requires s in u.newSlots
  {
    0 <= u.newSlots[s] < |all| && s in t.newSlots && all[u.newSlots[s]] == t.newSlots[s]
  }

  ghost predicate Counts(u: Tables, i: int)
    requires i in u.mapInfo
  {
    u.mapInfo[i].nRefCount == |SlotsOf(u.newSlots, i)|
  }

  /** The new slots before a given one are filled, and the reference counts agree. */
  ghost predicate Linked(u: Tables, t: Tables, all: seq<int>, b: nat, p: nat) {
    && (forall s :: s in u.newSlots <==> s in t.newSlots && Before(s, b, p))
    && (forall s :: s in u.newSlots ==> SlotRestored(u, t, all, s))
    && (forall i :: i in u.mapInfo ==> Counts(u, i))
  }

  /** All that holds while the buckets are read. */
  ghost predicate Linking(u: Tables, t: Tables, pl: Placement, all: seq<int>, m: nat, b: nat, p: nat) {
    && Indexed(t) && Placed(t, pl) && Enumerated(t, all, m) && t.nNew == m
    && Part(u, t, pl, all, |all|) && u.nIdCount == |all| && Linked(u, t, all, b, p)
  }

  lemma {:induction false} IndexFound(s: seq<int>, k: nat)
    requires Distinct(s) && k < |s|
    ensures IndexOf(s, s[k]) == k
  {
    if k > 0 {
      assert s[0] != s[k];
      assert Distinct(s[1..]) by { forall i, j | 0 <= i < j < |s[1..]| ensures s[1..][i] != s[1..][j] { assert s[i + 1] != s[j + 1]; } }
      IndexFound(s[1..], k - 1);
    }
  }

  /** The occupant of a new slot is among the new entries listed. */
  lemma OccupantListed(t: Tables, pl: Placement, all: seq<int>, m: nat, s: Slot) returns (k: nat)
    requires Placed(t, pl) && Enumerated(t, all, m) && s in t.newSlots
    ensures k < m && all[k] == t.newSlots[s] && IndexOf(all[..m], t.newSlots[s]) == k
  {
    assert NewPlaced(t, pl, s);
    k :| 0 <= k < |all| && all[k] == t.newSlots[s];
    assert EnumeratedAt(t, all, m, k);
    assert Distinct(all[..m]);
    IndexFound(all[..m], k);
  }

  lemma SlotFilled(u: Tables, t: Tables, pl: Placement, all: seq<int>, m: nat, b: nat, p: nat, k: nat)
    requires Linking(u, t, pl, all, m, b, p) && Slot(b, p) in t.newSlots && k < m && all[k] == t.newSlots[Slot(b, p)]
    ensures Linking(PutIndex(u, b, k, pl, true), t, pl, all, m, b, p + 1)
  {
    hide Indexed, Part, Linked, PutIndex;
    var s := Slot(b, p);
    SlotFree(u, t, pl, all, m, b, p, k);
    var v := PutIndex(u, b, k, pl, true);
    PartRecounted(u, v, t, pl, all, |all|);
    LinkedOneMore(u, v, t, all, b, p, k);
  }

  lemma SlotFree(u: Tables, t: Tables, pl: Placement, all: seq<int>, m: nat, b: nat, p: nat, k: nat)
    requires Linking(u, t, pl, all, m, b, p) && Slot(b, p) in t.newSlots && k < m && all[k] == t.newSlots[Slot(b, p)]
    ensures k in u.mapInfo
    ensures PutIndex(u, b, k, pl, true)
         == u.(newSlots := u.newSlots[Slot(b, p) := k], mapInfo := u.mapInfo[k := u.mapInfo[k].(nRefCount := u.mapInfo[k].nRefCount + 1)])
  {
    hide Indexed;
    var s := Slot(b, p);
    assert NewPlaced(t, pl, s) && EntryPlaced(t, pl, all[k]) && EntryRestored(u, t, all, k) && Counts(u, k);
    forall r | r in SlotsOf(u.newSlots, k) ensures r in SlotsOf(t.newSlots, all[k]) && r != s { assert SlotRestored(u, t, all, r); }
    MoreSlots(SlotsOf(u.newSlots, k), s, SlotsOf(t.newSlots, all[k]));
  }

  lemma MoreSlots(a: set<Slot>, s: Slot, b: set<Slot>)
    requires s !in a && s in b && forall r :: r in a ==> r in b
    ensures |a| < |b|
  {
    assert a <= b - {s};
    SubsetSize(a, b - {s});
  }

  lemma {:induction false} SubsetSize(a: set<Slot>, b: set<Slot>)
    requires a <= b
    ensures |a| <= |b|
  {
    assert b == a + (b - a);
  }

  /** Reference counts play no part in what has been entered. */
  lemma PartRecounted(u: Tables, v: Tables, t: Tables, pl: Placement, all: seq<int>, k: nat)
    requires Part(u, t, pl, all, k) && v == u.(newSlots := v.newSlots, mapInfo := v.mapInfo)
    requires forall i :: i in v.mapInfo <==> i in u.mapInfo
    requires forall i :: i in v.mapInfo ==> v.mapInfo[i] == u.mapInfo[i].(nRefCount := v.mapInfo[i].nRefCount)
    ensures Part(v, t, pl, all, k)
  {
    forall i | 0 <= i < k ensures EntryRestored(v, t, all, i) { assert EntryRestored(u, t, all, i); }
    forall i | 0 <= i < k ensures AddrRestored(v, t, all, i) { assert AddrRestored(u, t, all, i); }
    forall a | a in v.mapAddr ensures AddrListed(v, t, all, k, a) { assert AddrListed(u, t, all, k, a); }
    forall s | s in v.triedSlots ensures SeatRestored(v, t, all, k, s) { assert SeatRestored(u, t, all, k, s); }
    forall i | 0 <= i < k ensures Seated(v, t, pl, all, i) { assert Seated(u, t, pl, all, i); }
  }

  lemma LinkedOneMore(u: Tables, v: Tables, t: Tables, all: seq<int>, b: nat, p: nat, k: int)
    requires Linked(u, t, all, b, p) && k in u.mapInfo && 0 <= k < |all|
    requires Slot(b, p) in t.newSlots && all[k] == t.newSlots[Slot(b, p)]
    requires v == u.(newSlots := u.newSlots[Slot(b, p) := k], mapInfo := u.mapInfo[k := u.mapInfo[k].(nRefCount := u.mapInfo[k].nRefCount + 1)])
    ensures Linked(v, t, all, b, p + 1)
  {
    var s := Slot(b, p);
    BeforeNext(b, p);
    forall r | r in v.newSlots ensures SlotRestored(v, t, all, r) { if r != s { assert SlotRestored(u, t, all, r); } }
    forall i | i in v.mapInfo ensures Counts(v, i) {
      assert Counts(u, i);
      if i == k {
        assert SlotsOf(v.newSlots, k) == SlotsOf(u.newSlots, k) + {s};
      } else {
        assert SlotsOf(v.newSlots, i) == SlotsOf(u.newSlots, i);
      }
    }
  }

  lemma SlotSkipped(u: Tables, t: Tables, all: seq<int>, b: nat, p: nat)
    requires Linked(u, t, all, b, p) && Slot(b, p) !in t.newSlots
    ensures Linked(u, t, all, b, p + 1)
  {
    BeforeNext(b, p);
  }

  lemma BucketNext(t: Tables, b: nat, p: nat, news: seq<int>)
    requires p < BUCKET_SIZE
    ensures Slot(b, p) !in t.newSlots ==> BucketIds(t, b, p) == BucketIds(t, b, p + 1)
    ensures Slot(b, p) in t.newSlots ==>
              && |BucketIds(t, b, p)| == 1 + |BucketIds(t, b, p + 1)|
              && Indices(news, BucketIds(t, b, p)) == [Num(IndexOf(news, t.newSlots[Slot(b, p)]))] + Indices(news, BucketIds(t, b, p + 1))
  {
    hide IndexOf;
    var rest := BucketIds(t, b, p + 1);
    if Slot(b, p) in t.newSlots {
      assert BucketIds(t, b, p) == [t.newSlots[Slot(b, p)]] + rest;
      assert BucketIds(t, b, p)[1..] == rest;
    } else {
      assert BucketIds(t, b, p) == [] + rest == rest;
    }
  }

  lemma NoMoreIds(t: Tables, b: nat, news: seq<int>)
    ensures BucketIds(t, b, BUCKET_SIZE) == [] && Indices(news, []) == []
  {
  }

  lemma {:induction false} BucketRead(u: Tables, t: Tables, pl: Placement, all: seq<int>, m: nat, b: nat, p: nat, n: int, rest: seq<Token>) returns (v: Tables)
    requires Linking(u, t, pl, all, m, b, p) && p <= BUCKET_SIZE
    ensures var ids := BucketIds(t, b, p);
            ReadBucket(u, Indices(all[..m], ids) + rest, b, n, n + |ids|, pl, true) == Some((v, rest))
    ensures Linking(v, t, pl, all, m, b, BUCKET_SIZE)
    decreases BUCKET_SIZE - p
  {
    hide Indexed, Placed, Enumerated, Part, Linked, PutIndex, IndexOf, ReadBucket, BucketIds, Indices;
    ListedParts(t, all, m);
    var news, ids := all[..m], BucketIds(t, b, p);
    if p == BUCKET_SIZE {
      NoMoreIds(t, b, news);
      assert [] + rest == rest;
      BucketOver(u, rest, b, n, pl);
      v := u;
    } else {
      BucketNext(t, b, p, news);
      if Slot(b, p) in t.newSlots {
        var k := OccupantListed(t, pl, all, m, Slot(b, p));
        SlotFilled(u, t, pl, all, m, b, p, k);
        var more := Indices(news, BucketIds(t, b, p + 1));
        assert ([Num(k)] + more) + rest == [Num(k)] + (more + rest);
        ReadOneIndex(u, k, more + rest, b, n, n + |ids|, pl);
        v := BucketRead(PutIndex(u, b, k, pl, true), t, pl, all, m, b, p + 1, n + 1, rest);
      } else {
        SlotSkipped(u, t, all, b, p);
        v := BucketRead(u, t, pl, all, m, b, p + 1, n, rest);
      }
    }
  }

  lemma ReadOneIndex(u: Tables, x: int, s: seq<Token>, b: nat, n: int, size: int, pl: Placement)
    requires n < size
    ensures ReadBucket(u, [Num(x)] + s, b, n, size, pl, true) == ReadBucket(PutIndex(u, b, x, pl, true), s, b, n + 1, size, pl, true)
  {
    hide PutIndex;
    assert ([Num(x)] + s)[1..] == s;
  }

  lemma BucketOver(u: Tables, s: seq<Token>, b: nat, n: int, pl: Placement)
    ensures ReadBucket(u, s, b, n, n, pl, true) == Some((u, s))
  {
  }

  lemma BucketDone(u: Tables, t: Tables, pl: Placement, all: seq<int>, b: nat)
    requires Placed(t, pl) && Linked(u, t, all, b, BUCKET_SIZE)
    ensures Linked(u, t, all, b + 1, 0)
  {
    forall s | s in t.newSlots ensures Before(s, b, BUCKET_SIZE) <==> Before(s, b + 1, 0) { assert NewPlaced(t, pl, s); }
  }

  lemma {:induction false} BucketsRead(u: Tables, t: Tables, pl: Placement, all: seq<int>, m: nat, b: nat, rest: seq<Token>) returns (v: Tables)
    requires Linking(u, t, pl, all, m, b, 0) && b <= NEW_BUCKET_COUNT
    ensures ReadBuckets(u, Buckets(t, all[..m], b) + rest, b, NEW_BUCKET_COUNT, pl, true) == Some((v, rest))
    ensures Linking(v, t, pl, all, m, NEW_BUCKET_COUNT, 0)
    decreases NEW_BUCKET_COUNT - b
  {
    hide Indexed, Placed, Enumerated, Part, Linked, ReadBucket, BucketIds;
    ListedParts(t, all, m);
    var s := Buckets(t, all[..m], b) + rest;
    if b == NEW_BUCKET_COUNT {
      assert s == rest;
      v := u;
    } else {
      var ids, more := BucketIds(t, b, 0), Buckets(t, all[..m], b + 1);
      assert s == [Num(|ids|)] + (Indices(all[..m], ids) + (more + rest));
      assert s[1..] == Indices(all[..m], ids) + (more + rest);
      var w := BucketRead(u, t, pl, all, m, b, 0, 0, more + rest);
      BucketDone(w, t, pl, all, b);
      v := BucketsRead(w, t, pl, all, m, b + 1, rest);
    }
  }

  // ---------------------------------------------------------------- the whole

  /** One order of iteration over the entries. */
  ghost predicate Ordered(t: Tables, order: seq<int>) {
    Distinct(order) && forall n :: n in order <==> n in t.mapInfo
  }

  function AllPicked(t: Tables, order: seq<int>): seq<int> { Picked(t, order, false) + Picked(t, order, true) }

  lemma {:induction false} PickedExactly(t: Tables, order: seq<int>, tried: bool)
    requires Distinct(order)
    ensures var s := Picked(t, order, tried);
            Distinct(s) && forall n :: n in s <==> n in order && n in t.mapInfo && IsPicked(t.mapInfo[n], tried)
  {
    hide IsPicked, Distinct;
    if order != [] {
      var x, rest := order[0], order[1..];
      DistinctRest(order);
      PickedExactly(t, rest, tried);
      var p, s := Picked(t, rest, tried), Picked(t, order, tried);
      assert order == [x] + rest;
      if x in t.mapInfo && IsPicked(t.mapInfo[x], tried) {
        assert s == [x] + p;
        DistinctCons(x, p);
      } else {
        assert s == p;
      }
    }
  }

  lemma DistinctRest(s: seq<int>)
    requires Distinct(s) && s != []
    ensures Distinct(s[1..]) && s[0] !in s[1..]
  {
    forall i, j | 0 <= i < j < |s[1..]| ensures s[1..][i] != s[1..][j] { assert s[i + 1] != s[j + 1]; }
    forall j | 0 <= j < |s[1..]| ensures s[1..][j] != s[0] { assert s[j + 1] == s[1..][j]; }
  }

  lemma DistinctCons(x: int, p: seq<int>)
    requires Distinct(p) && x !in p
    ensures Distinct([x] + p)
  {
    var s := [x] + p;
    forall i, j | 0 <= i < j < |s| ensures s[i] != s[j] { assert s[j] == p[j - 1] && p[j - 1] in p; if i > 0 { assert s[i] == p[i - 1]; } }
  }

  /** In a consistent manager every entry is written exactly once, as new or as tried. */
  lemma EverythingPicked(t: Tables, pl: Placement, order: seq<int>)
    requires Consistent(t, pl) && Ordered(t, order)
    ensures Enumerated(t, AllPicked(t, order), |Picked(t, order, false)|)
    ensures |Picked(t, order, false)| == t.nNew && |Picked(t, order, true)| == t.nTried
  {
    hide Indexed, Placed, Counted, Orphans, Distinct, Enumerated, Picked, IsPicked, TriedIds, NewIds;
    var a, b := Picked(t, order, false), Picked(t, order, true);
    PickedExactly(t, order, false);
    PickedExactly(t, order, true);
    NewIsPicked(t, pl);
    assert forall n :: n in a <==> n in t.mapInfo && !t.mapInfo[n].fInTried;
    assert forall n :: n in b <==> n in t.mapInfo && t.mapInfo[n].fInTried by { TriedIsPicked(); }
    ListedParted(t, a, b);
    PickedCounts(t, a, b);
  }

  lemma TriedIsPicked()
    ensures forall i: AddrInfo :: IsPicked(i, true) <==> i.fInTried
  {
  }

  /** New entries are those with a slot in the new table. */
  lemma NewIsPicked(t: Tables, pl: Placement)
    requires Placed(t, pl) && Orphans(t) == {}
    ensures forall n :: n in t.mapInfo ==> (IsPicked(t.mapInfo[n], false) <==> !t.mapInfo[n].fInTried)
  {
    forall n | n in t.mapInfo ensures IsPicked(t.mapInfo[n], false) <==> !t.mapInfo[n].fInTried {
      assert n in Orphans(t) <==> !t.mapInfo[n].fInTried && t.mapInfo[n].nRefCount == 0;
      if t.mapInfo[n].fInTried { TriedNotNew(t, pl, n); }
    }
  }

  /** New entries first, then tried ones: a list of all entries. */
  lemma ListedParted(t: Tables, a: seq<int>, b: seq<int>)
    requires Distinct(a) && Distinct(b)
    requires forall n :: n in a <==> n in t.mapInfo && !t.mapInfo[n].fInTried
    requires forall n :: n in b <==> n in t.mapInfo && t.mapInfo[n].fInTried
    ensures Enumerated(t, a + b, |a|)
  {
    var all := a + b;
    forall i, j | 0 <= i < j < |all| ensures all[i] != all[j] {
      assert i < |a| ==> all[i] in a;
      assert j >= |a| ==> all[j] in b;
    }
    forall i | 0 <= i < |all| ensures EnumeratedAt(t, all, |a|, i) {
      var n := all[i];
      if i < |a| { assert n == a[i] && n in a; } else { assert n == b[i - |a|] && n in b; }
    }
    forall n | n in t.mapInfo ensures n in all { assert n in a || n in b; }
  }

  lemma PickedCounts(t: Tables, a: seq<int>, b: seq<int>)
    requires Counted(t, 0) && Distinct(a) && Distinct(b)
    requires forall n :: n in a <==> n in t.mapInfo && !t.mapInfo[n].fInTried
    requires forall n :: n in b <==> n in t.mapInfo && t.mapInfo[n].fInTried
    ensures |a| == t.nNew && |b| == t.nTried
  {
    hide Distinct;
    assert forall n :: n in a <==> n in NewIds(t);
    assert forall n :: n in b <==> n in TriedIds(t);
    DistinctSize(a, NewIds(t));
    DistinctSize(b, TriedIds(t));
  }

  lemma TriedNotNew(t: Tables, pl: Placement, n: int)
    requires Placed(t, pl) && n in t.mapInfo && t.mapInfo[n].fInTried
    ensures t.mapInfo[n].nRefCount == 0
  {
    assert EntryPlaced(t, pl, n);
    assert forall s :: s in t.newSlots ==> NewPlaced(t, pl, s);
    assert SlotsOf(t.newSlots, n) == {};
  }

  lemma {:induction false} DistinctSize(s: seq<int>, ids: set<int>)
    requires Distinct(s) && forall n :: n in s <==> n in ids
    ensures |s| == |ids|
  {
    if s == [] {
      assert ids == {} by { forall n ensures n !in ids { assert n !in s; } }
    } else {
      var k := |s| - 1;
      var r := s[..k];
      assert s == r + [s[k]];
      assert s[k] !in r;
      forall n ensures n in r <==> n in ids - {s[k]} { }
      DistinctSize(r, ids - {s[k]});
    }
  }

  /**
   The same manager under other ids: entry `i` of `u` is entry `all[i]` of `t` with its counts
   and its table, less the time of the last try; every slot has the same occupant.
   */
  ghost predicate Renumbered(u: Tables, t: Tables, all: seq<int>) {
    && Distinct(all) && (forall n :: n in all <==> n in t.mapInfo)
    && (forall i :: i in u.mapInfo <==> 0 <= i < |all|)
    && (forall i :: 0 <= i < |all| ==> SameSaved(u, t, all, i))
    && (forall s :: s in u.triedSlots <==> s in t.triedSlots)
    && (forall s :: s in u.newSlots <==> s in t.newSlots)
    && (forall s :: s in u.triedSlots ==> SameSeat(u, t, all, s))
    && (forall s :: s in u.newSlots ==> SlotRestored(u, t, all, s))
    && u.nNew == t.nNew && u.nTried == t.nTried && u.nIdCount == |all|
  }

  ghost predicate SameSeat(u: Tables, t: Tables, all: seq<int>, s: Slot)
    requires s in u.triedSlots
  {
    0 <= u.triedSlots[s] < |all| && s in t.triedSlots && all[u.triedSlots[s]] == t.triedSlots[s]
  }

  ghost predicate SameSaved(u: Tables, t: Tables, all: seq<int>, i: int) {
    && 0 <= i < |all| && all[i] in t.mapInfo && i in u.mapInfo
    && u.mapInfo[i] == t.mapInfo[all[i]].(nLastTry := 0, nRandomPos := i)
  }

  lemma StartPart(t: Tables, pl: Placement, all: seq<int>)
    ensures var u := EMPTY.(nNew := t.nNew, nTried := t.nTried); Part(u, t, pl, all, 0) && NoSlots(u)
  {
  }

  lemma StartLinked(u: Tables, t: Tables, all: seq<int>)
    requires NoSlots(u)
    ensures Linked(u, t, all, 0, 0)
  {
    forall i | i in u.mapInfo ensures Counts(u, i) { assert SlotsOf(u.newSlots, i) == {}; }
  }

  /** With all slots linked, the manager is the same but for the ids. */
  lemma LinkedIsSame(u: Tables, t: Tables, pl: Placement, all: seq<int>, m: nat)
    requires Linking(u, t, pl, all, m, NEW_BUCKET_COUNT, 0)
    ensures Renumbered(u, t, all) && Reindexed(u, t, all)
  {
    hide Indexed, Placed, Enumerated, Part, Linked, SameSaved, SameSeat, SlotRestored, Distinct, Reindexed;
    SameNewSlots(u, t, pl, all);
    SameRecords(u, t, pl, all, m);
    SameSeats(u, t, pl, all, m);
    PartIndexes(u, t, pl, all);
    ListedIds(t, all, m);
  }

  lemma SameNewSlots(u: Tables, t: Tables, pl: Placement, all: seq<int>)
    requires Placed(t, pl) && Linked(u, t, all, NEW_BUCKET_COUNT, 0)
    ensures forall s :: s in u.newSlots <==> s in t.newSlots
    ensures forall s :: s in u.newSlots ==> SlotRestored(u, t, all, s)
  {
    forall s ensures s in u.newSlots <==> s in t.newSlots { if s in t.newSlots { assert NewPlaced(t, pl, s); } }
  }

  lemma PartIndexes(u: Tables, t: Tables, pl: Placement, all: seq<int>)
    requires Part(u, t, pl, all, |all|)
    ensures Reindexed(u, t, all) && u.nNew == t.nNew && u.nTried == t.nTried && forall i :: i in u.mapInfo <==> 0 <= i < |all|
  {
  }

  lemma ListedIds(t: Tables, all: seq<int>, m: nat)
    requires Enumerated(t, all, m)
    ensures Distinct(all) && forall n :: n in all <==> n in t.mapInfo
  {
    forall n | n in all ensures n in t.mapInfo { var i :| 0 <= i < |all| && all[i] == n; assert EnumeratedAt(t, all, m, i); }
  }

  lemma SameRecords(u: Tables, t: Tables, pl: Placement, all: seq<int>, m: nat)
    requires Linking(u, t, pl, all, m, NEW_BUCKET_COUNT, 0)
    requires forall s :: s in u.newSlots <==> s in t.newSlots
    ensures forall i :: 0 <= i < |all| ==> SameSaved(u, t, all, i)
  {
    hide Indexed;
    forall i | 0 <= i < |all| ensures SameSaved(u, t, all, i) {
      assert EntryRestored(u, t, all, i) && EnumeratedAt(t, all, m, i) && Counts(u, i);
      SameSlots(u, t, all, i);
      assert EntryPlaced(t, pl, all[i]);
    }
  }

  lemma SameSeats(u: Tables, t: Tables, pl: Placement, all: seq<int>, m: nat)
    requires Placed(t, pl) && Enumerated(t, all, m) && Part(u, t, pl, all, |all|)
    ensures forall s :: s in u.triedSlots <==> s in t.triedSlots
    ensures forall s :: s in u.triedSlots ==> SameSeat(u, t, all, s)
  {
    forall s ensures s in u.triedSlots <==> s in t.triedSlots {
      if s in u.triedSlots { assert SeatRestored(u, t, all, |all|, s); }
      if s in t.triedSlots {
        assert TriedPlaced(t, pl, s);
        var i :| 0 <= i < |all| && all[i] == t.triedSlots[s];
        assert Seated(u, t, pl, all, i);
      }
    }
    forall s | s in u.triedSlots ensures SameSeat(u, t, all, s) { assert SeatRestored(u, t, all, |all|, s); }
  }

  lemma SameSlots(u: Tables, t: Tables, all: seq<int>, i: int)
    requires Distinct(all) && 0 <= i < |all|
    requires forall s :: s in u.newSlots <==> s in t.newSlots
    requires forall s :: s in u.newSlots ==> SlotRestored(u, t, all, s)
    ensures SlotsOf(u.newSlots, i) == SlotsOf(t.newSlots, all[i])
  {
    forall s ensures s in SlotsOf(u.newSlots, i) <==> s in SlotsOf(t.newSlots, all[i]) {
      if s in u.newSlots { assert SlotRestored(u, t, all, s); }
    }
  }

  /** Nothing is pruned where every entry has a place. */
  lemma {:induction false} NothingPruned(u: Tables, n: int, top: int)
    requires forall i :: i in u.mapInfo ==> u.mapInfo[i].fInTried || u.mapInfo[i].nRefCount != 0
    ensures Pruned(u, n, top) == u
    decreases top - n
  {
    hide Delete, CanDelete;
    if n < top { NothingPruned(u, n + 1, top); }
  }

  lemma PlacesKept(u: Tables, t: Tables, pl: Placement, all: seq<int>)
    requires Renumbered(u, t, all) && Orphans(t) == {}
    ensures forall i :: i in u.mapInfo ==> u.mapInfo[i].fInTried || u.mapInfo[i].nRefCount != 0
  {
    forall i | i in u.mapInfo ensures u.mapInfo[i].fInTried || u.mapInfo[i].nRefCount != 0 {
      assert SameSaved(u, t, all, i);
      assert all[i] !in Orphans(t);
    }
  }

  /**
   Writing a consistent manager and reading it into a fresh one consumes exactly what was
   written and gives the same manager up to ids, the order of `vRandom` and the times of the
   last tries; nothing is lost and nothing pruned.
   */
  lemma {:induction false} StoreRoundTrip(net: Network, t: Tables, key: Key, order: seq<int>, rest: seq<Token>)
    requires Consistent(t, Placement(net, key)) && Ordered(t, order)
    ensures var r := Load(net, Written(t, key, order) + rest);
            && r.Some? && r.value.1 == key && r.value.2 == rest
            && Renumbered(r.value.0, t, AllPicked(t, order)) && Consistent(r.value.0, Placement(net, key))
  {
    hide Indexed, Placed, Counted, Enumerated, Renumbered, Reindexed, ReadNews, ReadTrieds, ReadBuckets, Written, Load, Pruned, AllPicked, Picked, Entries, Buckets;
    var pl := Placement(net, key);
    var all, m := AllPicked(t, order), |Picked(t, order, false)|;
    AllPickedParts(t, order);
    EverythingPicked(t, pl, order);
    assert all[..m] == Picked(t, order, false) && all[m..] == Picked(t, order, true);
    var u1, u2, u3 := ReadAll(t, pl, all, m, rest);
    PlacesKept(u3, t, pl, all);
    RenumberedConsistent(u3, t, pl, all);
    NothingPruned(u3, 0, u3.nIdCount);
    BoundedCounts(t, pl);
    LoadParts(net, t, key, order, rest, u1, u2, u3);
  }

  /** The three parts of the stream, read one after the other. */
  lemma {:induction false} ReadAll(t: Tables, pl: Placement, all: seq<int>, m: nat, rest: seq<Token>) returns (u1: Tables, u2: Tables, u3: Tables)
    requires Indexed(t) && Placed(t, pl) && Enumerated(t, all, m) && t.nNew == m && |all| == m + t.nTried
    ensures var s2 := Buckets(t, all[..m], 0) + rest;
            var s1 := Entries(t, all[m..]) + s2;
            && ReadNews(EMPTY.(nNew := t.nNew, nTried := t.nTried), Entries(t, all[..m]) + s1, 0, t.nNew, pl, true) == Some((u1, s1))
            && ReadTrieds(u1.(nIdCount := t.nNew), s1, 0, t.nTried, pl) == Some((u2, s2))
            && ReadBuckets(u2, s2, 0, NEW_BUCKET_COUNT, pl, true) == Some((u3, rest))
    ensures Renumbered(u3, t, all) && Reindexed(u3, t, all)
  {
    hide Indexed, Placed, Enumerated, Part, Linked, NoSlots, Renumbered, Reindexed, ReadNews, ReadTrieds, ReadBuckets, Entries, Buckets;
    ListedParts(t, all, m);
    assert all[0..m] == all[..m];
    StartPart(t, pl, all);
    var s2 := Buckets(t, all[..m], 0) + rest;
    var s1 := Entries(t, all[m..]) + s2;
    u1 := NewsRead(EMPTY.(nNew := t.nNew, nTried := t.nTried), t, pl, all, m, 0, s1);
    PartIds(u1, u1.(nIdCount := t.nNew), t, pl, all, m);
    u2 := TriedsRead(u1.(nIdCount := t.nNew), t, pl, all, m, m, s2);
    StartLinked(u2, t, all);
    u3 := BucketsRead(u2, t, pl, all, m, 0, rest);
    LinkedIsSame(u3, t, pl, all, m);
  }

  lemma AllPickedParts(t: Tables, order: seq<int>)
    ensures AllPicked(t, order) == Picked(t, order, false) + Picked(t, order, true)
  {
  }

  lemma PartIds(u: Tables, v: Tables, t: Tables, pl: Placement, all: seq<int>, k: nat)
    requires Part(u, t, pl, all, k) && NoSlots(u) && v == u.(nIdCount := v.nIdCount)
    ensures Part(v, t, pl, all, k) && NoSlots(v)
  {
    forall i | 0 <= i < k ensures EntryRestored(v, t, all, i) { assert EntryRestored(u, t, all, i); }
    forall i | 0 <= i < k ensures AddrRestored(v, t, all, i) { assert AddrRestored(u, t, all, i); }
    forall a | a in v.mapAddr ensures AddrListed(v, t, all, k, a) { assert AddrListed(u, t, all, k, a); }
    forall s | s in v.triedSlots ensures SeatRestored(v, t, all, k, s) { assert SeatRestored(u, t, all, k, s); }
    forall i | 0 <= i < k ensures Seated(v, t, pl, all, i) { assert Seated(u, t, pl, all, i); }
  }

  /** There are no more entries than slots. */
  lemma BoundedCounts(t: Tables, pl: Placement)
    requires Consistent(t, pl)
    ensures 0 <= t.nNew <= NEW_BUCKET_COUNT * BUCKET_SIZE && 0 <= t.nTried <= TRIED_BUCKET_COUNT * BUCKET_SIZE
  {
    hide Indexed;
    forall s | s in t.newSlots.Keys ensures s.bucket < NEW_BUCKET_COUNT && s.pos < BUCKET_SIZE { assert NewPlaced(t, pl, s); }
    forall s | s in t.triedSlots.Keys ensures s.bucket < TRIED_BUCKET_COUNT && s.pos < BUCKET_SIZE { assert TriedPlaced(t, pl, s); }
    GridSize(t.newSlots.Keys, NEW_BUCKET_COUNT);
    GridSize(t.triedSlots.Keys, TRIED_BUCKET_COUNT);
    forall n | n in NewIds(t) ensures n in t.newSlots.Values {
      assert EntryPlaced(t, pl, n);
      assert n !in Orphans(t);
      if SlotsOf(t.newSlots, n) != {} { var s :| s in SlotsOf(t.newSlots, n); }
    }
    forall n | n in TriedIds(t) ensures n in t.triedSlots.Values { assert EntryPlaced(t, pl, n); }
    Occupants(NewIds(t), t.newSlots);
    Occupants(TriedIds(t), t.triedSlots);
  }

  lemma {:induction false} Occupants(ids: set<int>, m: map<Slot, int>)
    requires ids <= m.Values
    ensures |ids| <= |m.Keys|
    decreases |ids|
  {
    if n :| n in ids {
      var s :| s in m && m[s] == n;
      var r := map k | k in m && m[k] != n :: m[k];
      forall x | x in ids - {n} ensures x in r.Values { var k :| k in m && m[k] == x; assert r[k] == x; }
      Occupants(ids - {n}, r);
      SubsetSize(r.Keys, m.Keys - {s});
    } else {
      var none: set<int> := {};
      assert forall n :: n in ids <==> n in none;
    }
  }

  lemma {:induction false} GridSize(a: set<Slot>, n: nat)
    requires forall s :: s in a ==> s.bucket < n && s.pos < BUCKET_SIZE
    ensures |a| <= n * BUCKET_SIZE
    decreases n
  {
    if n == 0 {
      assert a == {} by { forall s ensures s !in a { } }
    } else {
      var low := set s | s in a && s.bucket < n - 1;
      GridSize(low, n - 1);
      RowSize(a - low, n - 1, BUCKET_SIZE);
      assert a == low + (a - low);
    }
  }

  lemma {:induction false} RowSize(a: set<Slot>, b: nat, p: nat)
    requires forall s :: s in a ==> s.bucket == b && s.pos < p
    ensures |a| <= p
    decreases p
  {
    if p == 0 {
      assert a == {} by { forall s ensures s !in a { } }
    } else {
      RowSize(a - {Slot(b, p - 1)}, b, p - 1);
      SubsetSize(a, (a - {Slot(b, p - 1)}) + {Slot(b, p - 1)});
    }
  }

  lemma {:induction false} LoadParts(net: Network, t: Tables, key: Key, order: seq<int>, rest: seq<Token>, u1: Tables, u2: Tables, u3: Tables)
    requires 0 <= t.nNew <= NEW_BUCKET_COUNT * BUCKET_SIZE && t.nTried <= TRIED_BUCKET_COUNT * BUCKET_SIZE
    requires var pl := Placement(net, key);
             var news, tried := Picked(t, order, false), Picked(t, order, true);
             var s2 := Buckets(t, news, 0) + rest;
             var s1 := Entries(t, tried) + s2;
             && ReadNews(EMPTY.(nNew := t.nNew, nTried := t.nTried), Entries(t, news) + s1, 0, t.nNew, pl, true) == Some((u1, s1))
             && ReadTrieds(u1.(nIdCount := t.nNew), s1, 0, t.nTried, pl) == Some((u2, s2))
             && ReadBuckets(u2, s2, 0, NEW_BUCKET_COUNT, pl, true) == Some((u3, rest))
             && Pruned(u3, 0, u3.nIdCount) == u3
    ensures Load(net, Written(t, key, order) + rest) == Some((u3, key, rest))
  {
    hide ReadNews, ReadTrieds, ReadBuckets, Pruned, Picked, Entries, Buckets;
    var news, tried := Picked(t, order, false), Picked(t, order, true);
    var s := Written(t, key, order) + rest;
    assert s[6..] == Entries(t, news) + (Entries(t, tried) + (Buckets(t, news, 0) + rest));
  }

  // ---------------------------------------------------------------- what is read is consistent

  /** The random order and the address index, as reading builds them. */
  ghost predicate Reindexed(u: Tables, t: Tables, all: seq<int>) {
    && |u.vRandom| == |all| && (forall i :: 0 <= i < |all| ==> u.vRandom[i] == i)
    && (forall i :: 0 <= i < |all| ==> AddrRestored(u, t, all, i))
    && (forall a :: a in u.mapAddr ==> AddrListed(u, t, all, |all|, a))
  }

  lemma RenumberedIndexed(u: Tables, t: Tables, all: seq<int>)
    requires Renumbered(u, t, all) && Reindexed(u, t, all)
    ensures Indexed(u)
  {
    forall i | i in u.mapInfo ensures EntryIndexed(u, i) { assert SameSaved(u, t, all, i) && AddrRestored(u, t, all, i); }
    forall a | a in u.mapAddr ensures u.mapAddr[a] in u.mapInfo && u.mapInfo[u.mapAddr[a]].service.ip == a {
      assert AddrListed(u, t, all, |all|, a);
      assert SameSaved(u, t, all, u.mapAddr[a]);
    }
    forall i | 0 <= i < |u.vRandom| ensures u.vRandom[i] in u.mapInfo && u.mapInfo[u.vRandom[i]].nRandomPos == i { assert SameSaved(u, t, all, i); }
  }

  lemma RenumberedPlaced(u: Tables, t: Tables, pl: Placement, all: seq<int>)
    requires Renumbered(u, t, all) && Placed(t, pl)
    ensures Placed(u, pl)
  {
    hide Placement.TriedSlot, Placement.NewSlot;
    forall s | s in u.triedSlots ensures TriedPlaced(u, pl, s) {
      assert SameSeat(u, t, all, s) && TriedPlaced(t, pl, s) && SameSaved(u, t, all, u.triedSlots[s]);
    }
    forall s | s in u.newSlots ensures NewPlaced(u, pl, s) {
      assert SlotRestored(u, t, all, s) && NewPlaced(t, pl, s) && SameSaved(u, t, all, u.newSlots[s]);
    }
    forall i | i in u.mapInfo ensures EntryPlaced(u, pl, i) {
      assert SameSaved(u, t, all, i) && EntryPlaced(t, pl, all[i]);
      SameSlots(u, t, all, i);
      var k := pl.TriedSlot(t.mapInfo[all[i]].service);
      if u.mapInfo[i].fInTried { assert SameSeat(u, t, all, k); }
    }
  }

  /** Ids correspond one to one, so there are as many of each kind. */
  lemma {:induction false} SameSize(all: seq<int>, a: set<int>, b: set<int>)
    requires Distinct(all)
    requires forall i :: i in a ==> 0 <= i < |all| && all[i] in b
    requires forall n :: n in b ==> exists i :: i in a && 0 <= i < |all| && all[i] == n
    ensures |a| == |b|
    decreases |a|
  {
    if i :| i in a {
      forall n | n in b - {all[i]} ensures exists j :: j in a - {i} && 0 <= j < |all| && all[j] == n {
        var j :| j in a && 0 <= j < |all| && all[j] == n;
        assert j in a - {i};
      }
      SameSize(all, a - {i}, b - {all[i]});
    } else {
      var none: set<int> := {};
      assert forall n :: n in a <==> n in none;
      assert forall n :: n in b <==> n in none;
    }
  }

  lemma RenumberedCounted(u: Tables, t: Tables, all: seq<int>)
    requires Renumbered(u, t, all) && Counted(t, 0)
    ensures Counted(u, 0)
  {
    assert forall i :: i in u.mapInfo ==> SameSaved(u, t, all, i);
    SameSize(all, TriedIds(u), TriedIds(t)) by {
      forall n | n in TriedIds(t) ensures exists i :: i in TriedIds(u) && 0 <= i < |all| && all[i] == n {
        var i :| 0 <= i < |all| && all[i] == n;
        assert SameSaved(u, t, all, i);
        assert i in TriedIds(u);
      }
    }
    SameSize(all, NewIds(u), NewIds(t)) by {
      forall n | n in NewIds(t) ensures exists i :: i in NewIds(u) && 0 <= i < |all| && all[i] == n {
        var i :| 0 <= i < |all| && all[i] == n;
        assert SameSaved(u, t, all, i);
        assert i in NewIds(u);
      }
    }
  }

  /** The manager that was read keeps the full invariant. */
  lemma RenumberedConsistent(u: Tables, t: Tables, pl: Placement, all: seq<int>)
    requires Consistent(t, pl) && Renumbered(u, t, all) && Reindexed(u, t, all)
    ensures Consistent(u, pl)
  {
    hide Indexed, Placed, Counted, Reindexed;
    RenumberedIndexed(u, t, all);
    RenumberedPlaced(u, t, pl, all);
    RenumberedCounted(u, t, all);
    forall i ensures i !in Orphans(u) {
      if i in u.mapInfo { assert SameSaved(u, t, all, i); assert all[i] !in Orphans(t); }
    }
    assert Orphans(u) == {};
    assert forall i :: i in u.mapInfo ==> SameSaved(u, t, all, i);
  }

  // ---------------------------------------------------------------- any stream

  /** `vRandom` is a permutation of the ids, whatever was read. */
  ghost predicate RandomOk(u: Tables) {
    && (forall n :: n in u.mapInfo ==> RandomAt(u, n))
    && (forall i :: 0 <= i < |u.vRandom| ==> u.vRandom[i] in u.mapInfo && u.mapInfo[u.vRandom[i]].nRandomPos == i)
  }

  ghost predicate RandomAt(u: Tables, n: int)
    requires n in u.mapInfo
  {
    0 <= u.mapInfo[n].nRandomPos < |u.vRandom| && u.vRandom[u.mapInfo[n].nRandomPos] == n
  }

  /** Ids are given out in order. */
  ghost predicate IdsBelow(u: Tables, k: int) { forall i :: i in u.mapInfo <==> 0 <= i < k }

  lemma PushNewRandom(u: Tables, n: nat, r: Record, pl: Placement, usable: bool)
    requires RandomOk(u) && IdsBelow(u, n)
    ensures RandomOk(PushNew(u, n, r, pl, usable)) && IdsBelow(PushNew(u, n, r, pl, usable), n + 1)
  {
    var v := PushNew(u, n, r, pl, usable);
    forall i | i in v.mapInfo ensures RandomAt(v, i) { if i != n { assert RandomAt(u, i); } }
  }

  lemma PushTriedRandom(u: Tables, r: Record, pl: Placement)
    requires RandomOk(u) && IdsBelow(u, u.nIdCount) && u.nIdCount >= 0
    ensures var v := PushTried(u, r, pl); RandomOk(v) && IdsBelow(v, v.nIdCount) && v.nIdCount >= u.nIdCount
  {
    hide Placement.TriedSlot;
    var v := PushTried(u, r, pl);
    forall i | i in v.mapInfo ensures RandomAt(v, i) { if i in u.mapInfo { assert RandomAt(u, i); } }
  }

  lemma PutIndexRandom(u: Tables, b: nat, n: int, pl: Placement, usable: bool)
    requires RandomOk(u) && IdsBelow(u, u.nIdCount)
    ensures RandomOk(PutIndex(u, b, n, pl, usable)) && IdsBelow(PutIndex(u, b, n, pl, usable), u.nIdCount)
    ensures PutIndex(u, b, n, pl, usable).nIdCount == u.nIdCount && PutIndex(u, b, n, pl, usable).nNew == u.nNew
  {
    hide Placement.NewSlot;
    var v := PutIndex(u, b, n, pl, usable);
    forall i | i in v.mapInfo ensures RandomAt(v, i) { assert RandomAt(u, i); }
  }

  lemma DeleteRandom(u: Tables, n: int)
    requires RandomOk(u) && n in u.mapInfo
    ensures CanDelete(u, n) && RandomOk(Delete(u, n)) && Delete(u, n).nIdCount == u.nIdCount
  {
    assert RandomAt(u, n);
    var last := |u.vRandom| - 1;
    var v := Delete(u, n);
    forall i | i in v.mapInfo ensures RandomAt(v, i) { assert RandomAt(u, i); }
  }
}
