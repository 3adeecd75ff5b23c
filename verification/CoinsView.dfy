/**
 The cache objects themselves: each layer points at the layer below it, or at the
 database, fills itself from there on demand and writes itself back on a flush.
 */
module CoinsView {
  import opened Common
  import opened CoinsLayers
  import opened CoinsInvariant

  /** One child entry written into a parent's coins. */
  function MergeOne(m: map<Uint256, Entry>, id: Uint256, e: Entry): map<Uint256, Entry> {
    match MergedEntry(m, id, e)
    case None => m - {id}
    case Some(x) => m[id := x]
  }

  /** Writing entries one by one is writing them all. */
  lemma MergedStep(parent: map<Uint256, Entry>, done: map<Uint256, Entry>, id: Uint256, e: Entry)
    requires id !in done
    ensures Merged(parent, done[id := e]) == MergeOne(Merged(parent, done), id, e)
    ensures id in Merged(parent, done) <==> id in parent
    ensures id in parent ==> Merged(parent, done)[id] == parent[id]
  {
  }

  function MergeOneMark(m: map<Nullifier, Mark>, n: Nullifier, e: Mark): map<Nullifier, Mark> {
    match MergedMark(m, n, e)
    case None => m
    case Some(x) => m[n := x]
  }

  lemma MergedMarksStep(parent: map<Nullifier, Mark>, done: map<Nullifier, Mark>, n: Nullifier, e: Mark)
    requires n !in done
    ensures MergedMarks(parent, done[n := e]) == MergeOneMark(MergedMarks(parent, done), n, e)
  {
  }

  /** The change of counted memory that goes with writing one entry. */
  lemma MemoryMergeOne(m: map<Uint256, Entry>, id: Uint256, e: Entry, mem: Coins -> nat)
    ensures var m' := MergeOne(m, id, e);
      Memory(m', mem) == Memory(m, mem) - (if id in m then mem(m[id].coins) else 0) + (if id in m' then mem(m'[id].coins) else 0)
  {
    var m' := MergeOne(m, id, e);
    if id in m { MemoryRemove(m, id, mem); }
    if id in m' { MemoryRemove(m', id, mem); }
    assert m - {id} == m' - {id};
    assert id !in m ==> m - {id} == m;
    assert id !in m' ==> m' - {id} == m';
  }

  /** The bottom of a stack: a store on disk. */
  class CoinsViewDB {
    var coins: map<Uint256, Coins>
    var nullifiers: set<Nullifier>
    var bestBlock: Uint256

    ghost function Contents(): Store
      reads this
    {
      Store(coins, nullifiers, bestBlock)
    }

    constructor ()
      ensures Contents() == Store(map[], {}, NULL_HASH)
    {
      coins, nullifiers, bestBlock := map[], {}, NULL_HASH;
    }

    /** Write the dirty entries of a layer: live coins are stored, pruned ones erased. */
    method BatchWrite(mapCoins: map<Uint256, Entry>, hashBlock: Uint256, marks: map<Nullifier, Mark>, ghost l: Layer)
      requires l.coins == mapCoins && l.nullifiers == marks && l.hashBlock == hashBlock
      modifies this
      ensures Contents() == Written(old(Contents()), l)
    {
      ghost var goal := Written(Contents(), l);
      WriteCoins(mapCoins);
      assert coins == goal.coins;
      WriteNullifiers(marks);
      assert nullifiers == goal.nullifiers;
      if hashBlock != NULL_HASH { bestBlock := hashBlock; }
    }

    /** Changed coins are stored, or erased if nothing of them is left. */
    method WriteCoins(mapCoins: map<Uint256, Entry>)
      modifies this`coins
      ensures forall id :: id in coins <==>
        if id in mapCoins && mapCoins[id].dirty then !IsPruned(mapCoins[id].coins) else id in old(coins)
      ensures forall id :: id in coins ==> coins[id] == if id in mapCoins && mapCoins[id].dirty then mapCoins[id].coins else old(coins)[id]
    {
      hide IsPruned;
      var todo := mapCoins.Keys;
      while todo != {}
        invariant todo <= mapCoins.Keys
        invariant forall id :: id in coins <==>
          if id in mapCoins && id !in todo && mapCoins[id].dirty then !IsPruned(mapCoins[id].coins) else id in old(coins)
        invariant forall id :: id in coins ==>
          (coins[id] == if id in mapCoins && id !in todo && mapCoins[id].dirty then mapCoins[id].coins else old(coins)[id])
      {
        var id :| id in todo;
        if mapCoins[id].dirty {
          if IsPruned(mapCoins[id].coins) { coins := coins - {id}; } else { coins := coins[id := mapCoins[id].coins]; }
        }
        todo := todo - {id};
      }
    }

    method WriteNullifiers(marks: map<Nullifier, Mark>)
      modifies this`nullifiers
      ensures forall n :: n in nullifiers <==> if n in marks && marks[n].dirty then marks[n].entered else n in old(nullifiers)
    {
      var left := marks.Keys;
      while left != {}
        invariant left <= marks.Keys
        invariant forall n :: n in nullifiers <==>
          if n in marks && n !in left && marks[n].dirty then marks[n].entered else n in old(nullifiers)
      {
        var n :| n in left;
        if marks[n].dirty {
          nullifiers := if marks[n].entered then nullifiers + {n} else nullifiers - {n};
        }
        left := left - {n};
      }
    }
  }

  /** The nullifiers listed are entered as given and nothing else is different. */
  ghost predicate EnteredAs(s: Stack, u: Stack, ns: seq<Nullifier>, spent: bool) {
    && (forall n :: NullifierView(u, n) == if n in ns then spent else NullifierView(s, n))
    && (forall id :: CoinsView(u, id) == CoinsView(s, id))
  }

  lemma NoneEntered(s: Stack, spent: bool)
    ensures EnteredAs(s, s, [], spent)
  {
    hide CoinsView, NullifierView;
  }

  lemma EnteredMore(s: Stack, u: Stack, ns: seq<Nullifier>, n: Nullifier, spent: bool, mem: Coins -> nat)
    requires StackOk(u, mem) && u.layers != [] && EnteredAs(s, u, ns, spent)
    ensures EnteredAs(s, SetNullifier(u, n, spent), ns + [n], spent)
  {
    hide StackOk, CoinsView, NullifierView, SetNullifier;
    SetNullifierOk(u, n, spent, mem);
  }

  lemma Entered(s: Stack, u: Stack, ns: seq<Nullifier>, spent: bool)
    requires EnteredAs(s, u, ns, spent)
    ensures forall n :: NullifierView(u, n) == if n in ns then spent else NullifierView(s, n)
    ensures forall id :: CoinsView(u, id) == CoinsView(s, id)
  {
    hide CoinsView, NullifierView;
  }

  class CoinsViewCache {
    const base: CoinsViewCache?
    const db: CoinsViewDB
    const mem: Coins -> nat
    ghost const Repr: set<object>
    ghost const depth: nat

    var session: Session
    var hashBlock: Uint256
    var cacheCoins: map<Uint256, Entry>
    var nullifiers: map<Nullifier, Mark>
    var cachedCoinsUsage: int

    /** How the layers hang together; nothing of it ever changes. */
    ghost predicate Shape()
      decreases depth
    {
      && this in Repr && db in Repr
      && Beneath() + {this} == Repr && this !in Beneath()
      && (base != null ==> base.depth < depth && base.db == db && base.mem == mem && base.Shape())
    }

    /** The objects below this layer. */
    ghost function Beneath(): set<object> { if base == null then {db} else base.Repr }

    ghost function AsLayer(): Layer
      reads this
    {
      Layer(cacheCoins, nullifiers, hashBlock, cachedCoinsUsage, session)
    }

    ghost function Below(): Stack
      requires Shape()
      reads Beneath()
      decreases depth, 0
    {
      if base == null then Stack(db.Contents(), []) else base.View()
    }

    /** The stack of layers from the database up to this one. */
    ghost function View(): Stack
      requires Shape()
      reads Repr
      decreases depth, 1
    {
      Below().Push(AsLayer())
    }

    ghost predicate Valid()
      reads Repr
    {
      Shape() && StackOk(View(), mem)
    }

    /** What validity says about this layer and the view below it. */
    lemma Unfold()
      requires Valid()
      ensures View().layers != [] && View().Top() == AsLayer() && View().Below() == Below()
      ensures LayerOk(AsLayer(), Below()) && MemoryOk(AsLayer(), mem) && StackOk(Below(), mem) && Settled(Below())
      ensures base != null ==> base.Valid() && base.session.NoSession?
    {
      PushTop(Below(), AsLayer());
      if base != null { PushTop(base.Below(), base.AsLayer()); }
    }

    /** A new layer on a database. */
    constructor OverDB(db: CoinsViewDB, mem: Coins -> nat)
      ensures Valid() && this.db == db && this.mem == mem && View() == Stack(db.Contents(), [EMPTY_LAYER]) && base == null
    {
      this.base, this.db, this.mem := null, db, mem;
      session, hashBlock, cacheCoins, nullifiers, cachedCoinsUsage := NoSession, NULL_HASH, map[], map[], 0;
      Repr, depth := {this, db}, 0;
      new;
      PushTop(Stack(db.Contents(), []), EMPTY_LAYER);
    }

    /** A new layer on another layer. */
    constructor OverCache(below: CoinsViewCache)
      requires below.Valid() && below.session.NoSession?
      ensures Valid() && base == below && db == below.db && mem == below.mem && View() == below.View().Push(EMPTY_LAYER)
    {
      this.base, this.db, this.mem := below, below.db, below.mem;
      session, hashBlock, cacheCoins, nullifiers, cachedCoinsUsage := NoSession, NULL_HASH, map[], map[], 0;
      Repr, depth := below.Repr + {this}, below.depth + 1;
      new;
      PushTop(below.View(), EMPTY_LAYER);
    }

    /** Ask the view below. */
    method FetchBelow(id: Uint256) returns (r: Option<Coins>)
      requires Valid()
      modifies Beneath()
      ensures Below() == Fetch(old(Below()), id, mem) && r == CoinsView(old(Below()), id)
      ensures StackOk(Below(), mem)
      decreases depth, 0
    {
      PushTop(Below(), AsLayer());
      if base == null {
        r := if id in db.coins then Some(db.coins[id]) else None;
      } else {
        r := base.GetCoins(id);
      }
    }

    /** Find coins in this layer, pulling them up from below if need be. */
    method FetchCoins(id: Uint256) returns (found: bool)
      requires Valid()
      modifies Repr
      ensures Valid() && View() == Fetch(old(View()), id, mem) && found == (id in cacheCoins)
      decreases depth, 2
    {
      hide StackOk, CoinsView, NullifierView;
      ghost var s := View();
      PushTop(Below(), AsLayer());
      FetchOk(s, id, mem);
      if id in cacheCoins { return true; }
      var tmp := FetchBelow(id);
      if tmp == None { return false; }
      cacheCoins := cacheCoins[id := Entry(tmp.value, false, IsPruned(tmp.value))];
      cachedCoinsUsage := cachedCoinsUsage + mem(tmp.value);
      return true;
    }

    method GetCoins(id: Uint256) returns (r: Option<Coins>)
      requires Valid()
      modifies Repr
      ensures Valid() && View() == Fetch(old(View()), id, mem) && r == CoinsView(old(View()), id)
      decreases depth, 3
    {
      FetchOk(View(), id, mem);
      var found := FetchCoins(id);
      PushTop(Below(), AsLayer());
      r := if found then Some(cacheCoins[id].coins) else None;
    }

    /** Ask the view below about a nullifier. */
    method NullifierBelow(n: Nullifier) returns (r: bool)
      requires Valid()
      modifies Beneath()
      ensures Below() == FetchNullifier(old(Below()), n) && r == NullifierView(old(Below()), n)
      decreases depth, 0
    {
      Unfold();
      if base == null { r := n in db.nullifiers; } else { r := base.GetNullifier(n); }
    }

    method GetNullifier(n: Nullifier) returns (r: bool)
      requires Valid()
      modifies Repr
      ensures Valid() && View() == FetchNullifier(old(View()), n) && r == NullifierView(old(View()), n)
      decreases depth, 3
    {
      hide StackOk, CoinsView;
      ghost var s := View();
      Unfold();
      FetchNullifierOk(s, n, mem);
      if n in nullifiers { return nullifiers[n].entered; }
      r := NullifierBelow(n);
      nullifiers := nullifiers[n := Mark(r, false)];
      assert View() == FetchNullifier(s, n);
    }

    method GetBestBlock() returns (r: Uint256)
      requires Valid()
      modifies Repr
      ensures Valid() && View() == FetchBest(old(View())) && r == BestBlock(old(View()))
      decreases depth
    {
      hide StackOk, CoinsView, NullifierView;
      ghost var s := View();
      Unfold();
      FetchBestOk(s, mem);
      if hashBlock == NULL_HASH {
        if base == null { hashBlock := db.bestBlock; } else { hashBlock := base.GetBestBlock(); }
      }
      r := hashBlock;
      assert View() == FetchBest(s);
    }

    /** Mark nullifiers of a transaction as spent or not. */
    method SetNullifiers(ns: seq<Nullifier>, spent: bool)
      requires Valid()
      modifies this`nullifiers
      ensures Valid() && Below() == old(Below())
      ensures forall n :: NullifierView(View(), n) == if n in ns then spent else NullifierView(old(View()), n)
      ensures forall id :: CoinsView(View(), id) == CoinsView(old(View()), id)
    {
      hide StackOk, CoinsView, NullifierView, EnteredAs;
      ghost var s := View();
      assert ns[..0] == [];
      NoneEntered(s, spent);
      for i := 0 to |ns|
        invariant Valid() && Below() == s.Below() && EnteredAs(s, View(), ns[..i], spent)
      {
        EnteredMore(s, View(), ns[..i], ns[i], spent, mem);
        EnterNullifier(ns[i], spent);
        assert ns[..i + 1] == ns[..i] + [ns[i]];
      }
      assert ns[..|ns|] == ns;
      Entered(s, View(), ns, spent);
    }

    method EnterNullifier(n: Nullifier, spent: bool)
      requires Valid()
      modifies this`nullifiers
      ensures Valid() && Below() == old(Below()) && View() == SetNullifier(old(View()), n, spent)
    {
      hide StackOk, CoinsView, NullifierView;
      PushTop(Below(), AsLayer());
      SetNullifierOk(View(), n, spent, mem);
      nullifiers := nullifiers[n := Mark(spent, true)];
    }

    /** Open a session on some coins and hand them out for modification. */
    method ModifyCoins(id: Uint256) returns (c: Coins)
      requires Valid() && session.NoSession?
      modifies Repr
      ensures Valid() && View() == Open(old(View()), id, mem) && id in cacheCoins && c == cacheCoins[id].coins
      ensures Live(Some(c)) == Live(CoinsView(old(View()), id))
    {
      hide StackOk, CoinsView, NullifierView, Live, IsPruned, Memory, Fetch, LayerOk, MemoryOk;
      ghost var s := View();
      Unfold();
      OpenOk(s, id, mem);
      var counted := 0;
      if id !in cacheCoins {
        var tmp := FetchBelow(id);
        cacheCoins := cacheCoins[id :=
          if tmp == None then Entry(NO_COINS, false, true) else Entry(tmp.value, false, IsPruned(tmp.value))];
      } else {
        counted := mem(cacheCoins[id].coins);
      }
      cacheCoins := cacheCoins[id := cacheCoins[id].(dirty := true)];
      session := Modifying(id, counted);
      c := cacheCoins[id].coins;
      assert cacheCoins == s.Top().coins[id := Opened(s, id)];
    }

    /** Drop spent outputs at the end. */
    method CleanedUp(c: Coins) returns (r: Coins)
      ensures r == Cleanup(c)
    {
      var vout := c.vout;
      while |vout| > 0 && vout[|vout| - 1].Null?
        invariant Trimmed(vout) == Trimmed(c.vout)
      {
        vout := vout[..|vout| - 1];
      }
      r := c.(vout := vout);
    }

    /** End the session, which has left the coins at `c`. */
    method EndModify(c: Coins)
      requires Valid() && session.Modifying?
      modifies this
      ensures session.NoSession? && Valid() && old(session.id in cacheCoins) && View() == Close(old(View()), c, mem)
    {
      hide StackOk, CoinsView, NullifierView, Trimmed, Live, IsPruned, Cleanup, LayerOk, MemoryOk, Memory, Settled, ClosedLayer;
      PushTop(Below(), AsLayer());
      CloseOk(View(), c, mem);
      Finish(c);
      assert Below() == old(Below());
    }

    /** Put the coins back, or forget them, and count their memory again. */
    method Finish(c: Coins)
      requires session.Modifying? && session.id in cacheCoins
      modifies this`cacheCoins, this`cachedCoinsUsage, this`session
      ensures AsLayer() == ClosedLayer(old(AsLayer()), c, mem)
    {
      hide Trimmed, IsPruned, Cleanup;
      var id := session.id;
      var cleaned := CleanedUp(c);
      cacheCoins := cacheCoins[id := cacheCoins[id].(coins := cleaned)];
      cachedCoinsUsage := cachedCoinsUsage - session.counted;
      session := NoSession;
      if cacheCoins[id].freshFlag && IsPruned(cacheCoins[id].coins) {
        cacheCoins := cacheCoins - {id};
        assert cacheCoins == old(cacheCoins) - {id};
      } else {
        cachedCoinsUsage := cachedCoinsUsage + mem(cacheCoins[id].coins);
      }
    }

    /** A live dirty entry unknown to this layer is FRESH: what the write-back asserts. */
    ghost predicate Promised(mapCoins: map<Uint256, Entry>)
      reads this
    {
      forall id :: id in mapCoins && mapCoins[id].dirty && id !in cacheCoins && !IsPruned(mapCoins[id].coins) ==> mapCoins[id].freshFlag
    }

    /** Take over the dirty coins of the layer above. */
    method BatchWriteCoins(mapCoins: map<Uint256, Entry>)
      requires session.NoSession? && Promised(mapCoins)
      modifies this`cacheCoins, this`cachedCoinsUsage
      ensures cacheCoins == Merged(old(cacheCoins), mapCoins)
      ensures cachedCoinsUsage == old(cachedCoinsUsage) - Memory(old(cacheCoins), mem) + Memory(cacheCoins, mem)
    {
      hide Memory, Merged;
      var todo := mapCoins.Keys;
      ghost var done: map<Uint256, Entry> := map[];
      MergedNothing(cacheCoins);
      while todo != {}
        invariant todo <= mapCoins.Keys && done.Keys == mapCoins.Keys - todo
        invariant forall id :: id in done ==> done[id] == mapCoins[id]
        invariant cacheCoins == Merged(old(cacheCoins), done)
        invariant cachedCoinsUsage == old(cachedCoinsUsage) - Memory(old(cacheCoins), mem) + Memory(cacheCoins, mem)
      {
        var id :| id in todo;
        var e := mapCoins[id];
        MergedStep(old(cacheCoins), done, id, e);
        MemoryMergeOne(cacheCoins, id, e, mem);
        if e.dirty {
          if id !in cacheCoins {
            if !IsPruned(e.coins) {
              assert e.freshFlag;
              cacheCoins := cacheCoins[id := Entry(e.coins, true, true)];
              cachedCoinsUsage := cachedCoinsUsage + mem(e.coins);
            }
          } else if cacheCoins[id].freshFlag && IsPruned(e.coins) {
            cachedCoinsUsage := cachedCoinsUsage - mem(cacheCoins[id].coins);
            cacheCoins := cacheCoins - {id};
          } else {
            cachedCoinsUsage := cachedCoinsUsage - mem(cacheCoins[id].coins);
            cacheCoins := cacheCoins[id := Entry(e.coins, true, cacheCoins[id].freshFlag)];
            cachedCoinsUsage := cachedCoinsUsage + mem(cacheCoins[id].coins);
          }
        }
        done := done[id := e];
        todo := todo - {id};
      }
      assert done == mapCoins;
    }

    method BatchWriteNullifiers(marks: map<Nullifier, Mark>)
      modifies this`nullifiers
      ensures nullifiers == MergedMarks(old(nullifiers), marks)
    {
      hide MergedMarks;
      var todo := marks.Keys;
      ghost var done: map<Nullifier, Mark> := map[];
      MergedNoMarks(nullifiers);
      while todo != {}
        invariant todo <= marks.Keys && done.Keys == marks.Keys - todo
        invariant forall n :: n in done ==> done[n] == marks[n]
        invariant nullifiers == MergedMarks(old(nullifiers), done)
      {
        var n :| n in todo;
        MergedMarksStep(old(nullifiers), done, n, marks[n]);
        if marks[n].dirty {
          if n !in nullifiers {
            nullifiers := nullifiers[n := Mark(marks[n].entered, true)];
          } else if nullifiers[n].entered != marks[n].entered {
            nullifiers := nullifiers[n := Mark(marks[n].entered, true)];
          }
        }
        done := done[n := marks[n]];
        todo := todo - {n};
      }
      assert done == marks;
    }

    /** Take over the dirty entries of the layer above, and its best block. */
    method BatchWrite(mapCoins: map<Uint256, Entry>, hashBlockIn: Uint256, marks: map<Nullifier, Mark>)
      requires session.NoSession? && Promised(mapCoins)
      modifies this`cacheCoins, this`nullifiers, this`hashBlock, this`cachedCoinsUsage
      ensures AsLayer() == old(AsLayer()).(coins := Merged(old(cacheCoins), mapCoins), nullifiers := MergedMarks(old(nullifiers), marks),
        hashBlock := hashBlockIn, usage := old(cachedCoinsUsage) - Memory(old(cacheCoins), mem) + Memory(Merged(old(cacheCoins), mapCoins), mem))
    {
      BatchWriteCoins(mapCoins);
      BatchWriteNullifiers(marks);
      hashBlock := hashBlockIn;
    }

    /** Hand all modifications to the view below. */
    method WriteBelow()
      requires Valid() && session.NoSession?
      modifies Beneath()
      ensures Below() == FlushedBelow(old(Below()), AsLayer(), mem)
    {
      hide StackOk, CoinsView, NullifierView, Memory, Merged, MergedMarks, Written, LayerOk;
      Unfold();
      if base == null {
        db.BatchWrite(cacheCoins, hashBlock, nullifiers, AsLayer());
      } else {
        base.Unfold();
        PromiseKept(base.Below(), base.AsLayer(), AsLayer());
        base.BatchWrite(cacheCoins, hashBlock, nullifiers);
      }
    }

    /** Push all modifications to the view below and forget everything cached. */
    method Flush() returns (ok: bool)
      requires Valid() && session.NoSession?
      modifies Repr
      ensures ok && Valid() && View() == CoinsLayers.Flush(old(View()), mem)
      ensures SameView(old(View()), View()) && SameView(old(View()), Below())
    {
      hide StackOk, CoinsView, NullifierView, FlushedBelow, SameView, CoinsLayers.Flush, LayerOk, MemoryOk, Memory;
      ghost var s := View();
      Unfold();
      FlushOk(s, mem);
      FlushIsBelow(s, mem);
      WriteBelow();
      cacheCoins, nullifiers, cachedCoinsUsage := map[], map[], 0;
      ok := true;
      PushTop(Below(), AsLayer());
    }
  }

  /** The view below a layer after that layer has been written into it. */
  ghost function FlushedBelow(below: Stack, l: Layer, mem: Coins -> nat): Stack {
    if below.layers == [] then Stack(Written(below.store, l), []) else below.WithTop(MergedLayer(below.Top(), l, mem))
  }

  lemma FlushIsBelow(s: Stack, mem: Coins -> nat)
    requires s.layers != []
    ensures CoinsLayers.Flush(s, mem) == FlushedBelow(s.Below(), s.Top(), mem).Push(Flushed(s.Top()))
  {
  }

  lemma MergedNothing(m: map<Uint256, Entry>)
    ensures Merged(m, map[]) == m
  {
  }

  lemma MergedNoMarks(m: map<Nullifier, Mark>)
    ensures MergedMarks(m, map[]) == m
  {
  }

  /** The layer invariant is what makes the write-back's assertion hold. */
  lemma PromiseKept(g: Stack, p: Layer, l: Layer)
    requires LayerOk(p, g) && LayerOk(l, g.Push(p))
    ensures forall id :: id in l.coins && l.coins[id].dirty && id !in p.coins && !IsPruned(l.coins[id].coins) ==> l.coins[id].freshFlag
  {
    forall id | id in l.coins && l.coins[id].dirty && id !in p.coins && !IsPruned(l.coins[id].coins) ensures l.coins[id].freshFlag {
      MergeOk(g, p, l, id);
    }
  }
}
