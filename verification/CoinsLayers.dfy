/**
 Values of the layered coins view: coins, cache entries with their DIRTY and FRESH
 flags, stacks of cache layers over a database, and what reading, modifying and
 flushing do to a stack.
 */
module CoinsLayers {
  import opened Common

  type Uint256 = nat

  const NULL_HASH: Uint256 := 0

  /** An output; a spent one is null. */
  datatype TxOut = Null | Out(nValue: int, script: Bytes)

  /** The unspent outputs of one transaction. */
  datatype Coins = Coins(fCoinBase: bool, vout: seq<TxOut>, nHeight: int, nVersion: int)

  const NO_COINS := Coins(false, [], 0, 0)

  predicate IsPruned(c: Coins) {
    forall i :: 0 <= i < |c.vout| ==> c.vout[i].Null?
  }

  /** Spent outputs at the end are dropped. */
  function Trimmed(vout: seq<TxOut>): seq<TxOut> {
    if vout != [] && vout[|vout| - 1].Null? then Trimmed(vout[..|vout| - 1]) else vout
  }

  function Cleanup(c: Coins): Coins { c.(vout := Trimmed(c.vout)) }

  /** A view's answer with pruned coins counted as absent. */
  function Live(o: Option<Coins>): Option<Coins> {
    if o.Some? && IsPruned(o.value) then None else o
  }

  datatype Entry = Entry(coins: Coins, dirty: bool, freshFlag: bool)

  datatype Mark = Mark(entered: bool, dirty: bool)

  /** Sprout and Sapling nullifiers are kept apart. */
  datatype Nullifier = Sprout(hash: Uint256) | Sapling(hash: Uint256)

  /** A modification under way: which coins, and the memory counted for them before it. */
  datatype Session = NoSession | Modifying(id: Uint256, counted: int)

  datatype Layer = Layer(
    coins: map<Uint256, Entry>,
    nullifiers: map<Nullifier, Mark>,
    hashBlock: Uint256,
    usage: int,
    session: Session)

  const EMPTY_LAYER := Layer(map[], map[], NULL_HASH, 0, NoSession)

  /** What the bottom database holds. */
  datatype Store = Store(coins: map<Uint256, Coins>, nullifiers: set<Nullifier>, bestBlock: Uint256)

  /** Layers are listed from the one next to the database to the top one. */
  datatype Stack = Stack(store: Store, layers: seq<Layer>) {

    function Top(): Layer requires layers != [] { layers[|layers| - 1] }

    function Below(): Stack requires layers != [] { Stack(store, layers[..|layers| - 1]) }

    function Push(l: Layer): Stack { Stack(store, layers + [l]) }

    function WithTop(l: Layer): Stack requires layers != [] { Below().Push(l) }
  }

  // ---------------------------------------------------------------- views

  /** What GetCoins answers. */
  function CoinsView(s: Stack, id: Uint256): Option<Coins>
    decreases |s.layers|
  {
    if s.layers == [] then (if id in s.store.coins then Some(s.store.coins[id]) else None)
    else if id in s.Top().coins then Some(s.Top().coins[id].coins)
    else CoinsView(s.Below(), id)
  }

  /** What GetNullifier answers. */
  function NullifierView(s: Stack, n: Nullifier): bool
    decreases |s.layers|
  {
    if s.layers == [] then n in s.store.nullifiers
    else if n in s.Top().nullifiers then s.Top().nullifiers[n].entered
    else NullifierView(s.Below(), n)
  }

  /** What GetBestBlock answers: a layer without a hash of its own asks the one below. */
  function BestBlock(s: Stack): Uint256
    decreases |s.layers|
  {
    if s.layers == [] then s.store.bestBlock
    else if s.Top().hashBlock != NULL_HASH then s.Top().hashBlock
    else BestBlock(s.Below())
  }

  // ---------------------------------------------------------------- operations

  /** The entry a layer makes from the answer of the view below. */
  function Pulled(c: Coins): Entry { Entry(c, false, IsPruned(c)) }

  /** FetchCoins: pull coins into every layer down to the one that knows them. */
  function Fetch(s: Stack, id: Uint256, mem: Coins -> nat): Stack
    decreases |s.layers|
  {
    if s.layers == [] || id in s.Top().coins then s
    else
      var below := Fetch(s.Below(), id, mem);
      match CoinsView(s.Below(), id)
      case None => below.Push(s.Top())
      case Some(c) => below.Push(s.Top().(coins := s.Top().coins[id := Pulled(c)], usage := s.Top().usage + mem(c)))
  }

  /** GetNullifier: every layer asked remembers the answer. */
  function FetchNullifier(s: Stack, n: Nullifier): Stack
    decreases |s.layers|
  {
    if s.layers == [] || n in s.Top().nullifiers then s
    else
      FetchNullifier(s.Below(), n).Push(
        s.Top().(nullifiers := s.Top().nullifiers[n := Mark(NullifierView(s.Below(), n), false)]))
  }

  /** GetBestBlock: every layer asked remembers the answer. */
  function FetchBest(s: Stack): Stack
    decreases |s.layers|
  {
    if s.layers == [] || s.Top().hashBlock != NULL_HASH then s
    else FetchBest(s.Below()).Push(s.Top().(hashBlock := BestBlock(s.Below())))
  }

  /** The entry ModifyCoins hands out for modification. */
  function Opened(s: Stack, id: Uint256): Entry
    requires s.layers != []
  {
    if id in s.Top().coins then s.Top().coins[id].(dirty := true)
    else match CoinsView(s.Below(), id)
      case None => Entry(NO_COINS, true, true)
      case Some(c) => Entry(c, true, IsPruned(c))
  }

  /** ModifyCoins: open a session on some coins of the top layer. */
  function Open(s: Stack, id: Uint256, mem: Coins -> nat): Stack
    requires s.layers != []
  {
    var known := id in s.Top().coins;
    var below := if known then s.Below() else Fetch(s.Below(), id, mem);
    below.Push(s.Top().(
      coins := s.Top().coins[id := Opened(s, id)],
      session := Modifying(id, if known then mem(s.Top().coins[id].coins) else 0)))
  }

  /** The end of a session that leaves the coins at `c`. */
  function Close(s: Stack, c: Coins, mem: Coins -> nat): Stack
    requires s.layers != [] && s.Top().session.Modifying? && s.Top().session.id in s.Top().coins
  {
    s.WithTop(ClosedLayer(s.Top(), c, mem))
  }

  /** A layer after its session: coins that are gone and unknown below are forgotten. */
  function ClosedLayer(l: Layer, c: Coins, mem: Coins -> nat): Layer
    requires l.session.Modifying? && l.session.id in l.coins
  {
    var e := l.coins[l.session.id].(coins := Cleanup(c));
    var rest := l.usage - l.session.counted;
    if e.freshFlag && IsPruned(e.coins)
    then l.(coins := l.coins - {l.session.id}, usage := rest, session := NoSession)
    else l.(coins := l.coins[l.session.id := e], usage := rest + mem(e.coins), session := NoSession)
  }

  function SetNullifier(s: Stack, n: Nullifier, spent: bool): Stack
    requires s.layers != []
  {
    s.WithTop(s.Top().(nullifiers := s.Top().nullifiers[n := Mark(spent, true)]))
  }

  /** What becomes of one entry of a parent layer when a child entry is written into it. */
  function MergedEntry(parent: map<Uint256, Entry>, id: Uint256, child: Entry): Option<Entry> {
    if !child.dirty then (if id in parent then Some(parent[id]) else None)
    else if id !in parent then (if IsPruned(child.coins) then None else Some(Entry(child.coins, true, true)))
    else if parent[id].freshFlag && IsPruned(child.coins) then None
    else Some(Entry(child.coins, true, parent[id].freshFlag))
  }

  /** A parent layer's coins after a child's have been written into it. */
  ghost function Merged(parent: map<Uint256, Entry>, child: map<Uint256, Entry>): map<Uint256, Entry> {
    map id | id in parent.Keys + child.Keys && (id in child ==> MergedEntry(parent, id, child[id]).Some?)
      :: if id in child then MergedEntry(parent, id, child[id]).value else parent[id]
  }

  function MergedMark(parent: map<Nullifier, Mark>, n: Nullifier, child: Mark): Option<Mark> {
    if !child.dirty then (if n in parent then Some(parent[n]) else None)
    else if n !in parent then Some(Mark(child.entered, true))
    else if parent[n].entered != child.entered then Some(Mark(child.entered, true))
    else Some(parent[n])
  }

  ghost function MergedMarks(parent: map<Nullifier, Mark>, child: map<Nullifier, Mark>): map<Nullifier, Mark> {
    map n | n in parent.Keys + child.Keys && (n in child ==> MergedMark(parent, n, child[n]).Some?)
      :: if n in child then MergedMark(parent, n, child[n]).value else parent[n]
  }

  /** The database after a batch of entries is written to it. */
  ghost function Written(store: Store, l: Layer): Store {
    Store(
      map id | id in store.coins.Keys + l.coins.Keys && (id in l.coins && l.coins[id].dirty ==> !IsPruned(l.coins[id].coins))
                 && (id in l.coins && !l.coins[id].dirty ==> id in store.coins)
        :: if id in l.coins && l.coins[id].dirty then l.coins[id].coins else store.coins[id],
      (set n | n in store.nullifiers && !(n in l.nullifiers && l.nullifiers[n].dirty))
        + (set n | n in l.nullifiers && l.nullifiers[n].dirty && l.nullifiers[n].entered),
      if l.hashBlock != NULL_HASH then l.hashBlock else store.bestBlock)
  }

  /** Memory counted for all cached coins of a layer. */
  ghost function Memory(m: map<Uint256, Entry>, mem: Coins -> nat): nat {
    if m == map[] then 0
    else
      var id :| id in m;
      mem(m[id].coins) + Memory(m - {id}, mem)
  }

  /** The layer a flush leaves behind. */
  function Flushed(l: Layer): Layer { l.(coins := map[], nullifiers := map[], usage := 0) }

  /** Flush: write the top layer into the one below, or into the database. */
  ghost function Flush(s: Stack, mem: Coins -> nat): Stack
    requires s.layers != []
  {
    var l := s.Top();
    var below := s.Below();
    if below.layers == [] then Stack(Written(s.store, l), [Flushed(l)])
    else
      var p := below.Top();
      var coins := Merged(p.coins, l.coins);
      below.WithTop(p.(coins := coins, nullifiers := MergedMarks(p.nullifiers, l.nullifiers), hashBlock := l.hashBlock,
                       usage := p.usage - Memory(p.coins, mem) + Memory(coins, mem))).Push(Flushed(l))
  }
}
