/**
 Values of the stochastic address manager: entries, bucket placement, the
 six cross-linked tables, and what each operation does to them.  The class in
 AddrMan.dfy edits the tables in place and is proved equal to these functions;
 the invariant and what every run keeps are proved in AddrInvariant.dfy.
 */
module AddrTables {

  const TRIED_BUCKET_COUNT: nat := 256
  const NEW_BUCKET_COUNT: nat := 1024
  const BUCKET_SIZE: nat := 64
  const TRIED_BUCKETS_PER_GROUP: nat := 8
  const NEW_BUCKETS_PER_SOURCE_GROUP: nat := 64
  const NEW_BUCKETS_PER_ADDRESS: nat := 8
  const HORIZON_DAYS: nat := 30
  const RETRIES: nat := 3
  const MAX_FAILURES: nat := 10
  const MIN_FAIL_DAYS: nat := 7
  const GETADDR_MAX_PCT: nat := 23
  const GETADDR_MAX: nat := 2500

  type NetAddr = seq<bv8>
  type Key = seq<bv8>

  /** An address with its port: what two entries are compared by. */
  datatype Service = Service(ip: NetAddr, port: nat)

  /** An address as gossiped by a peer; `nTime` is a 32-bit field and `nServices` the set of its service bits. */
  datatype Address = Address(service: Service, nServices: set<nat>, nTime: nat)

  datatype AddrInfo = AddrInfo(
    service: Service,
    nServices: set<nat>,
    nTime: nat,
    source: NetAddr,
    nLastTry: int,
    nLastSuccess: int,
    nAttempts: int,
    nRefCount: int,
    fInTried: bool,
    nRandomPos: int)

  datatype Slot = Slot(bucket: nat, pos: nat)

  /** What is fed, after the secret key, to the hash behind a bucket choice. */
  datatype HashInput =
    | OfService(service: Service)
    | OfGroup(group: seq<bv8>, n: nat)
    | OfGroups(group: seq<bv8>, sourceGroup: seq<bv8>)
    | OfSourceGroup(sourceGroup: seq<bv8>, m: nat)
    | OfPosition(fNew: bool, bucket: nat, service: Service)

  /** Address classification and hashing, which the manager only calls. */
  datatype Network = Network(
    group: NetAddr -> seq<bv8>,
    routable: NetAddr -> bool,
    cheapHash: (Key, HashInput) -> nat)

  /** Bucket choice of one manager: the network functions under its secret key. */
  datatype Placement = Placement(net: Network, key: Key) {

    function TriedBucket(s: Service): (b: nat)
      ensures b < TRIED_BUCKET_COUNT
    {
      var hash1 := net.cheapHash(key, OfService(s));
      var hash2 := net.cheapHash(key, OfGroup(net.group(s.ip), hash1 % TRIED_BUCKETS_PER_GROUP));
      hash2 % TRIED_BUCKET_COUNT
    }

    function NewBucket(s: Service, src: NetAddr): (b: nat)
      ensures b < NEW_BUCKET_COUNT
    {
      var hash1 := net.cheapHash(key, OfGroups(net.group(s.ip), net.group(src)));
      var hash2 := net.cheapHash(key, OfSourceGroup(net.group(src), hash1 % NEW_BUCKETS_PER_SOURCE_GROUP));
      hash2 % NEW_BUCKET_COUNT
    }

    function BucketPosition(fNew: bool, bucket: nat, s: Service): (p: nat)
      ensures p < BUCKET_SIZE
    {
      net.cheapHash(key, OfPosition(fNew, bucket, s)) % BUCKET_SIZE
    }

    /** The one tried slot of a service. */
    function TriedSlot(s: Service): Slot {
      Slot(TriedBucket(s), BucketPosition(false, TriedBucket(s), s))
    }

    /** The slot of a service in a given new bucket. */
    function NewSlot(s: Service, bucket: nat): Slot {
      Slot(bucket, BucketPosition(true, bucket, s))
    }
  }

  /** The tables; a slot holding -1 is absent from `triedSlots` or `newSlots`. */
  datatype Tables = Tables(
    nIdCount: int,
    mapInfo: map<int, AddrInfo>,
    mapAddr: map<NetAddr, int>,
    vRandom: seq<int>,
    nTried: int,
    triedSlots: map<Slot, int>,
    nNew: int,
    newSlots: map<Slot, int>)

  const EMPTY := Tables(0, map[], map[], [], 0, map[], 0, map[])

  function Max0(x: int): nat { if x < 0 then 0 else x }

  function Uint32(x: int): nat { x % 0x1_0000_0000 }

  predicate IsTerrible(info: AddrInfo, now: int) {
    if info.nLastTry != 0 && info.nLastTry >= now - 60 then false
    else
      || info.nTime > now + 10 * 60
      || info.nTime == 0
      || now - info.nTime > HORIZON_DAYS * 24 * 60 * 60
      || (info.nLastSuccess == 0 && info.nAttempts >= RETRIES)
      || (now - info.nLastSuccess > MIN_FAIL_DAYS * 24 * 60 * 60 && info.nAttempts >= MAX_FAILURES)
  }

  function NewInfo(addr: Address, source: NetAddr): AddrInfo {
    AddrInfo(addr.service, addr.nServices, addr.nTime, source, 0, 0, 0, 0, false, -1)
  }

  /** The entry known under an address, if any. */
  predicate Found(t: Tables, ip: NetAddr) {
    ip in t.mapAddr && t.mapAddr[ip] in t.mapInfo
  }

  /** The entry known under an address has exactly this address and port. */
  predicate Matches(t: Tables, s: Service) {
    Found(t, s.ip) && t.mapInfo[t.mapAddr[s.ip]].service == s
  }

  function Create(t: Tables, addr: Address, source: NetAddr): Tables {
    var info := NewInfo(addr, source).(nRandomPos := |t.vRandom|);
    t.(nIdCount := t.nIdCount + 1,
       mapInfo := t.mapInfo[t.nIdCount := info],
       mapAddr := t.mapAddr[addr.service.ip := t.nIdCount],
       vRandom := t.vRandom + [t.nIdCount])
  }

  predicate CanSwap(t: Tables, p1: int, p2: int) {
    p1 == p2 ||
    (0 <= p1 < |t.vRandom| && 0 <= p2 < |t.vRandom| && t.vRandom[p1] in t.mapInfo && t.vRandom[p2] in t.mapInfo)
  }

  function SwapRandom(t: Tables, p1: int, p2: int): Tables
    requires CanSwap(t, p1, p2)
  {
    if p1 == p2 then t
    else
      var (id1, id2) := (t.vRandom[p1], t.vRandom[p2]);
      var m1 := t.mapInfo[id1 := t.mapInfo[id1].(nRandomPos := p2)];
      t.(mapInfo := m1[id2 := m1[id2].(nRandomPos := p1)],
         vRandom := t.vRandom[p1 := id2][p2 := id1])
  }

  predicate CanDelete(t: Tables, id: int) {
    id in t.mapInfo && |t.vRandom| > 0 && CanSwap(t, t.mapInfo[id].nRandomPos, |t.vRandom| - 1)
  }

  function Delete(t: Tables, id: int): Tables
    requires CanDelete(t, id)
  {
    var u := SwapRandom(t, t.mapInfo[id].nRandomPos, |t.vRandom| - 1);
    u.(vRandom := u.vRandom[..|u.vRandom| - 1],
       mapAddr := u.mapAddr - {t.mapInfo[id].service.ip},
       mapInfo := u.mapInfo - {id},
       nNew := u.nNew - 1)
  }

  /** Release one new slot held by an entry. */
  function Release(t: Tables, s: Slot): Tables
    requires s in t.newSlots && t.newSlots[s] in t.mapInfo
  {
    var id := t.newSlots[s];
    t.(mapInfo := t.mapInfo[id := t.mapInfo[id].(nRefCount := t.mapInfo[id].nRefCount - 1)],
       newSlots := t.newSlots - {s})
  }

  predicate CanClear(t: Tables, s: Slot) {
    s in t.newSlots ==>
      && t.newSlots[s] in t.mapInfo
      && (t.mapInfo[t.newSlots[s]].nRefCount == 1 ==> CanDelete(Release(t, s), t.newSlots[s]))
  }

  function ClearNew(t: Tables, s: Slot): Tables
    requires CanClear(t, s)
  {
    if s !in t.newSlots then t
    else
      var id := t.newSlots[s];
      if t.mapInfo[id].nRefCount == 1 then Delete(Release(t, s), id) else Release(t, s)
  }

  /** Enter an entry into one more new slot. */
  function Attach(t: Tables, id: int, s: Slot): Tables
    requires id in t.mapInfo
  {
    t.(mapInfo := t.mapInfo[id := t.mapInfo[id].(nRefCount := t.mapInfo[id].nRefCount + 1)],
       newSlots := t.newSlots[s := id])
  }

  /** The slots of a table that hold an entry. */
  function SlotsOf(table: map<Slot, int>, id: int): set<Slot> {
    set s | s in table && table[s] == id
  }

  /** The new slots that hold an entry at the position its own hash gives there. */
  function OwnSlots(t: Tables, pl: Placement, id: int): set<Slot>
    requires id in t.mapInfo
  {
    set s | s in t.newSlots && t.newSlots[s] == id && s == pl.NewSlot(t.mapInfo[id].service, s.bucket)
  }

  /** Take an entry out of every new bucket. */
  function Detach(t: Tables, pl: Placement, id: int): Tables
    requires id in t.mapInfo
  {
    var own := OwnSlots(t, pl, id);
    t.(mapInfo := t.mapInfo[id := t.mapInfo[id].(nRefCount := t.mapInfo[id].nRefCount - |own|)],
       newSlots := t.newSlots - own)
  }

  /** Take the occupant of a tried slot out of the tried table. */
  function Unseat(t: Tables, k: Slot): Tables
    requires k in t.triedSlots && t.triedSlots[k] in t.mapInfo
  {
    var out := t.triedSlots[k];
    t.(mapInfo := t.mapInfo[out := t.mapInfo[out].(fInTried := false)],
       triedSlots := t.triedSlots - {k},
       nTried := t.nTried - 1)
  }

  /** The new slot an entry goes back to when it is evicted from tried. */
  function HomeSlot(pl: Placement, info: AddrInfo): Slot {
    pl.NewSlot(info.service, pl.NewBucket(info.service, info.source))
  }

  /** Put an unseated entry back into its home new slot. */
  function Rehome(t: Tables, out: int, s: Slot): Tables
    requires out in t.mapInfo
  {
    t.(mapInfo := t.mapInfo[out := t.mapInfo[out].(nRefCount := 1)],
       newSlots := t.newSlots[s := out],
       nNew := t.nNew + 1)
  }

  predicate CanEvict(t: Tables, pl: Placement, k: Slot) {
    k in t.triedSlots ==>
      && t.triedSlots[k] in t.mapInfo
      && var home := HomeSlot(pl, t.mapInfo[t.triedSlots[k]]);
      && CanClear(Unseat(t, k), home)
      && t.triedSlots[k] in ClearNew(Unseat(t, k), home).mapInfo
  }

  /** Move the occupant of a tried slot back to the new table. */
  function Evict(t: Tables, pl: Placement, k: Slot): Tables
    requires CanEvict(t, pl, k)
  {
    if k !in t.triedSlots then t
    else
      var out := t.triedSlots[k];
      var home := HomeSlot(pl, t.mapInfo[out]);
      Rehome(ClearNew(Unseat(t, k), home), out, home)
  }

  /** Seat an entry in a tried slot. */
  function Seat(t: Tables, id: int, k: Slot): Tables
    requires id in t.mapInfo
  {
    t.(mapInfo := t.mapInfo[id := t.mapInfo[id].(fInTried := true)],
       triedSlots := t.triedSlots[k := id],
       nTried := t.nTried + 1)
  }

  /** The tables of MakeTried between taking an entry from new and seating it in tried. */
  function Unlisted(t: Tables, pl: Placement, id: int): Tables
    requires id in t.mapInfo
  {
    var u := Detach(t, pl, id);
    u.(nNew := u.nNew - 1)
  }

  predicate CanPromote(t: Tables, pl: Placement, id: int) {
    && id in t.mapInfo
    && var k := pl.TriedSlot(t.mapInfo[id].service);
    && CanEvict(Unlisted(t, pl, id), pl, k)
    && id in Evict(Unlisted(t, pl, id), pl, k).mapInfo
  }

  function MakeTried(t: Tables, pl: Placement, id: int): Tables
    requires CanPromote(t, pl, id)
  {
    var k := pl.TriedSlot(t.mapInfo[id].service);
    Seat(Evict(Unlisted(t, pl, id), pl, k), id, k)
  }

  function MarkGood(t: Tables, id: int, time: int): Tables
    requires id in t.mapInfo
  {
    t.(mapInfo := t.mapInfo[id := t.mapInfo[id].(nLastSuccess := time, nLastTry := time, nAttempts := 0)])
  }

  predicate CanGood(t: Tables, pl: Placement, s: Service, time: int) {
    Matches(t, s) && !t.mapInfo[t.mapAddr[s.ip]].fInTried && OwnSlots(MarkGood(t, t.mapAddr[s.ip], time), pl, t.mapAddr[s.ip]) != {}
    ==> CanPromote(MarkGood(t, t.mapAddr[s.ip], time), pl, t.mapAddr[s.ip])
  }

  function Good(t: Tables, pl: Placement, s: Service, time: int): Tables
    requires CanGood(t, pl, s, time)
  {
    if !Matches(t, s) then t
    else
      var id := t.mapAddr[s.ip];
      var u := MarkGood(t, id, time);
      if u.mapInfo[id].fInTried || OwnSlots(u, pl, id) == {} then u
      else MakeTried(u, pl, id)
  }

  /** An entry after hearing its address again: newer time, more services. */
  function Refreshed(info: AddrInfo, addr: Address, penalty: int, now: int): AddrInfo {
    var interval := if now - addr.nTime < 24 * 60 * 60 then 60 * 60 else 24 * 60 * 60;
    var i := if addr.nTime != 0 && (info.nTime == 0 || info.nTime < addr.nTime - interval - penalty)
             then info.(nTime := Uint32(Max0(addr.nTime - penalty))) else info;
    i.(nServices := i.nServices + addr.nServices)
  }

  function Pow2(n: nat): (r: nat)
    ensures r >= 1
  { if n == 0 then 1 else 2 * Pow2(n - 1) }

  /** Whether a known entry is left alone when its address is heard again. */
  predicate LeftAlone(info: AddrInfo, addr: Address, draw: nat) {
    || addr.nTime == 0
    || (info.nTime != 0 && addr.nTime <= info.nTime)
    || info.fInTried
    || info.nRefCount == NEW_BUCKETS_PER_ADDRESS
    || (info.nRefCount > 0 && draw % Pow2(info.nRefCount) != 0)
  }

  /** The tables once the entry for an address exists, before it gets a slot. */
  function Registered(t: Tables, addr: Address, source: NetAddr, penalty: int, now: int): Tables {
    if Found(t, addr.service.ip) then
      var id := t.mapAddr[addr.service.ip];
      t.(mapInfo := t.mapInfo[id := Refreshed(t.mapInfo[id], addr, penalty, now)])
    else
      var u := Create(t, addr, source);
      var info := u.mapInfo[t.nIdCount];
      u.(mapInfo := u.mapInfo[t.nIdCount := info.(nTime := Uint32(Max0(info.nTime - penalty)))],
         nNew := u.nNew + 1)
  }

  /** Whether an entry may take a new slot from its present occupant. */
  predicate MayTake(t: Tables, id: int, s: Slot, now: int)
    requires id in t.mapInfo
  {
    s !in t.newSlots ||
    (t.newSlots[s] in t.mapInfo &&
     (IsTerrible(t.mapInfo[t.newSlots[s]], now) || (t.mapInfo[t.newSlots[s]].nRefCount > 1 && t.mapInfo[id].nRefCount == 0)))
  }

  predicate CanPlace(t: Tables, id: int, s: Slot, now: int) {
    && id in t.mapInfo
    && (!(s in t.newSlots && t.newSlots[s] == id) ==>
          if MayTake(t, id, s, now)
          then CanClear(t, s) && id in ClearNew(t, s).mapInfo
          else t.mapInfo[id].nRefCount == 0 ==> CanDelete(t, id))
  }

  /** Give an entry a new slot, or drop it if it has none and may not take this one. */
  function Place(t: Tables, id: int, s: Slot, now: int): Tables
    requires CanPlace(t, id, s, now)
  {
    if s in t.newSlots && t.newSlots[s] == id then t
    else if MayTake(t, id, s, now) then Attach(ClearNew(t, s), id, s)
    else if t.mapInfo[id].nRefCount == 0 then Delete(t, id)
    else t
  }

  /** The entry an announcement is about, and the new slot its source points at. */
  function Target(t: Tables, addr: Address): int {
    if Found(t, addr.service.ip) then t.mapAddr[addr.service.ip] else t.nIdCount
  }

  function TargetSlot(t: Tables, pl: Placement, id: int, source: NetAddr): Slot
    requires id in t.mapInfo
  {
    var s := t.mapInfo[id].service;
    pl.NewSlot(s, pl.NewBucket(s, source))
  }

  predicate Stops(t: Tables, addr: Address, penalty: int, now: int, draw: nat) {
    Found(t, addr.service.ip) &&
    LeftAlone(Refreshed(t.mapInfo[t.mapAddr[addr.service.ip]], addr, penalty, now), addr, draw)
  }

  predicate CanAdd(t: Tables, pl: Placement, addr: Address, source: NetAddr, penalty: int, now: int, draw: nat) {
    pl.net.routable(addr.service.ip) && !Stops(t, addr, penalty, now, draw) ==>
      var u := Registered(t, addr, source, penalty, now);
      Target(t, addr) in u.mapInfo && CanPlace(u, Target(t, addr), TargetSlot(u, pl, Target(t, addr), source), now)
  }

  function Add(t: Tables, pl: Placement, addr: Address, source: NetAddr, penalty: int, now: int, draw: nat): Tables
    requires CanAdd(t, pl, addr, source, penalty, now, draw)
  {
    if !pl.net.routable(addr.service.ip) then t
    else
      var u := Registered(t, addr, source, penalty, now);
      if Stops(t, addr, penalty, now, draw) then u
      else Place(u, Target(t, addr), TargetSlot(u, pl, Target(t, addr), source), now)
  }

  /** Add_ reports an address as new when it had no entry before the call. */
  predicate AddReports(t: Tables, pl: Placement, addr: Address) {
    pl.net.routable(addr.service.ip) && !Found(t, addr.service.ip)
  }

  function Attempt(t: Tables, s: Service, time: int): Tables {
    if !Matches(t, s) then t
    else
      var id := t.mapAddr[s.ip];
      t.(mapInfo := t.mapInfo[id := t.mapInfo[id].(nLastTry := time, nAttempts := t.mapInfo[id].nAttempts + 1)])
  }

  function Connected(t: Tables, s: Service, time: int): Tables {
    if !Matches(t, s) then t
    else
      var id := t.mapAddr[s.ip];
      if time - t.mapInfo[id].nTime > 20 * 60
      then t.(mapInfo := t.mapInfo[id := t.mapInfo[id].(nTime := Uint32(time))])
      else t
  }
}
