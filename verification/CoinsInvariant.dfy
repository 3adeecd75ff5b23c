/**
 The invariant between the layers of a coins view, and the proof that reading,
 modifying and flushing keep it and what is visible.
 */
module CoinsInvariant {
  import opened Common
  import opened CoinsLayers

  /**
   What an entry's flags promise about the view below: FRESH, that it has nothing live;
   not DIRTY, that it agrees; not FRESH, that the layer below holds an entry too.
   */
  ghost predicate EntryOk(e: Entry, id: Uint256, below: Stack) {
    && (e.freshFlag ==> Live(CoinsView(below, id)) == None)
    && (!e.dirty ==> Live(Some(e.coins)) == Live(CoinsView(below, id)))
    && (!e.freshFlag && below.layers != [] ==> id in below.Top().coins)
  }

  ghost predicate MarkOk(m: Mark, n: Nullifier, below: Stack) {
    !m.dirty ==> m.entered == NullifierView(below, n)
  }

  /** The counted memory is that of the cached coins, less those being modified. */
  ghost predicate MemoryOk(l: Layer, mem: Coins -> nat) {
    match l.session
    case NoSession => l.usage == Memory(l.coins, mem)
    case Modifying(id, counted) =>
      id in l.coins && l.coins[id].dirty && l.usage - counted == Memory(l.coins - {id}, mem)
  }

  ghost predicate LayerOk(l: Layer, below: Stack) {
    && (forall id :: id in l.coins ==> EntryOk(l.coins[id], id, below))
    && (forall n :: n in l.nullifiers ==> MarkOk(l.nullifiers[n], n, below))
  }

  /** Every layer agrees with the stack below it; only the top layer may have a session open. */
  ghost predicate StackOk(s: Stack, mem: Coins -> nat)
    decreases |s.layers|
  {
    s.layers == [] ||
    (&& LayerOk(s.Top(), s.Below()) && MemoryOk(s.Top(), mem)
     && StackOk(s.Below(), mem) && Settled(s.Below()))
  }

  predicate Settled(s: Stack) { s.layers == [] || s.Top().session.NoSession? }

  /** The same coins and nullifiers are visible, pruned coins counting as absent. */
  ghost predicate SameView(s: Stack, u: Stack) {
    && (forall id :: Live(CoinsView(u, id)) == Live(CoinsView(s, id)))
    && (forall n :: NullifierView(u, n) == NullifierView(s, n))
  }

  /** The layer holds at least the entries it held. */
  ghost predicate Grows(s: Stack, u: Stack) {
    && |u.layers| == |s.layers|
    && (s.layers != [] ==> forall id :: id in s.Top().coins ==> id in u.Top().coins)
  }

  /** What a layer adds to the stack below it. */
  lemma PushTop(s: Stack, l: Layer)
    ensures s.Push(l).layers != [] && s.Push(l).Top() == l && s.Push(l).Below() == s
    ensures forall id :: CoinsView(s.Push(l), id) == if id in l.coins then Some(l.coins[id].coins) else CoinsView(s, id)
    ensures forall n :: NullifierView(s.Push(l), n) == if n in l.nullifiers then l.nullifiers[n].entered else NullifierView(s, n)
    ensures BestBlock(s.Push(l)) == if l.hashBlock != NULL_HASH then l.hashBlock else BestBlock(s)
    ensures forall mem :: StackOk(s.Push(l), mem) <==> LayerOk(l, s) && MemoryOk(l, mem) && StackOk(s, mem) && Settled(s)
  {
    assert s.Push(l).layers[..|s.layers|] == s.layers;
    assert s.Push(l).Below() == s;
  }

  /** What a layer adds to the best block. */
  lemma PushBest(s: Stack, l: Layer)
    ensures s.Push(l).layers != [] && s.Push(l).Top() == l && s.Push(l).Below() == s && |s.Push(l).layers| == |s.layers| + 1
    ensures BestBlock(s.Push(l)) == if l.hashBlock != NULL_HASH then l.hashBlock else BestBlock(s)
  {
    assert s.Push(l).layers[..|s.layers|] == s.layers;
    assert s.Push(l).Below() == s;
  }

  lemma StackIsPush(s: Stack)
    requires s.layers != []
    ensures s.Below().Push(s.Top()) == s
  {
  }

  /** Agreement of a layer depends only on what is visible and cached below it. */
  lemma LayerOverSame(l: Layer, below: Stack, below': Stack)
    requires LayerOk(l, below) && SameView(below, below') && Grows(below, below')
    ensures LayerOk(l, below')
  {
    forall id | id in l.coins ensures EntryOk(l.coins[id], id, below') { assert EntryOk(l.coins[id], id, below); }
    forall n | n in l.nullifiers ensures MarkOk(l.nullifiers[n], n, below') { assert MarkOk(l.nullifiers[n], n, below); }
  }

  lemma {:induction false} MemoryRemove(m: map<Uint256, Entry>, id: Uint256, mem: Coins -> nat)
    requires id in m
    ensures Memory(m, mem) == mem(m[id].coins) + Memory(m - {id}, mem)
    decreases |m|
  {
    var pick :| pick in m && Memory(m, mem) == mem(m[pick].coins) + Memory(m - {pick}, mem);
    if pick != id {
      var a, b := m - {pick}, m - {id};
      assert a.Keys == m.Keys - {pick} && b.Keys == m.Keys - {id};
      MemoryRemove(a, id, mem);
      MemoryRemove(b, pick, mem);
      assert a - {id} == b - {pick};
    }
  }

  lemma MemoryInsert(m: map<Uint256, Entry>, id: Uint256, e: Entry, mem: Coins -> nat)
    requires id !in m
    ensures Memory(m[id := e], mem) == mem(e.coins) + Memory(m, mem)
  {
    MemoryRemove(m[id := e], id, mem);
    assert m[id := e] - {id} == m;
  }

  // ---------------------------------------------------------------- reading

  /** Views of a stack with one more layer on top of an equivalent one. */
  lemma ViewOverSame(l: Layer, s: Stack, u: Stack)
    requires SameView(s, u)
    ensures SameView(s.Push(l), u.Push(l))
  {
    hide CoinsView, NullifierView, StackOk;
    PushTop(s, l);
    PushTop(u, l);
  }

  lemma SameViewTrans(s: Stack, u: Stack, v: Stack)
    requires SameView(s, u) && SameView(u, v)
    ensures SameView(s, v)
  {
    hide CoinsView, NullifierView, Live;
  }

  /** Pulling coins up keeps the invariant and everything visible, and caches what was found. */
  lemma {:induction false} FetchOk(s: Stack, id: Uint256, mem: Coins -> nat)
    requires StackOk(s, mem)
    ensures var u := Fetch(s, id, mem);
      && StackOk(u, mem) && SameView(s, u) && Grows(s, u) && CoinsView(u, id) == CoinsView(s, id)
      && (Settled(s) ==> Settled(u))
      && (s.layers != [] ==> (id in u.Top().coins <==> CoinsView(s, id).Some?) && u.Top().hashBlock == s.Top().hashBlock)
    decreases |s.layers|
  {
    hide StackOk, CoinsView, NullifierView, LayerOk, MemoryOk, Memory;
    if s.layers != [] {
      var l, below := s.Top(), s.Below();
      StackIsPush(s);
      PushTop(below, l);
      if id in l.coins {
      } else {
        FetchOk(below, id, mem);
        FetchOver(below, Fetch(below, id, mem), l, id, mem);
      }
    }
  }

  lemma FetchOver(below: Stack, below': Stack, l: Layer, id: Uint256, mem: Coins -> nat)
    requires StackOk(below', mem) && Settled(below') && LayerOk(l, below) && MemoryOk(l, mem) && id !in l.coins
    requires SameView(below, below') && Grows(below, below') && CoinsView(below', id) == CoinsView(below, id)
    requires below.layers != [] && CoinsView(below, id).Some? ==> id in below'.Top().coins
    ensures var u := match CoinsView(below, id)
        case None => below'.Push(l)
        case Some(c) => below'.Push(l.(coins := l.coins[id := Pulled(c)], usage := l.usage + mem(c)));
      && StackOk(u, mem) && SameView(below.Push(l), u) && CoinsView(u, id) == CoinsView(below, id)
  {
    hide CoinsView, NullifierView, StackOk, LayerOk, MemoryOk;
    LayerOverSame(l, below, below');
    ViewOverSame(l, below, below');
    PushTop(below', l);
    match CoinsView(below, id)
    case None =>
    case Some(c) =>
      PullOk(below', l, id, c, mem);
      SameViewTrans(below.Push(l), below'.Push(l), below'.Push(l.(coins := l.coins[id := Pulled(c)], usage := l.usage + mem(c))));
  }

  lemma PullOk(below: Stack, l: Layer, id: Uint256, c: Coins, mem: Coins -> nat)
    requires StackOk(below, mem) && Settled(below) && LayerOk(l, below) && MemoryOk(l, mem) && id !in l.coins
    requires CoinsView(below, id) == Some(c) && (below.layers != [] ==> id in below.Top().coins)
    ensures var u := below.Push(l.(coins := l.coins[id := Pulled(c)], usage := l.usage + mem(c)));
      StackOk(u, mem) && SameView(below.Push(l), u) && CoinsView(u, id) == Some(c)
  {
    hide CoinsView, NullifierView, StackOk, LayerOk, MemoryOk, Memory;
    var l' := l.(coins := l.coins[id := Pulled(c)], usage := l.usage + mem(c));
    PushTop(below, l);
    PushTop(below, l');
    PulledLayerOk(below, l, l', id, c);
    PulledMemoryOk(l, l', id, c, mem);
  }

  lemma PulledLayerOk(below: Stack, l: Layer, l': Layer, id: Uint256, c: Coins)
    requires LayerOk(l, below) && l' == l.(coins := l.coins[id := Pulled(c)], usage := l'.usage)
    requires CoinsView(below, id) == Some(c) && (below.layers != [] ==> id in below.Top().coins)
    ensures LayerOk(l', below)
  {
    hide CoinsView, NullifierView;
    forall i | i in l'.coins ensures EntryOk(l'.coins[i], i, below) { if i != id { assert EntryOk(l.coins[i], i, below); } }
    forall n | n in l'.nullifiers ensures MarkOk(l'.nullifiers[n], n, below) { assert MarkOk(l.nullifiers[n], n, below); }
  }

  lemma PulledMemoryOk(l: Layer, l': Layer, id: Uint256, c: Coins, mem: Coins -> nat)
    requires MemoryOk(l, mem) && id !in l.coins && l' == l.(coins := l.coins[id := Pulled(c)], usage := l.usage + mem(c))
    ensures MemoryOk(l', mem)
  {
    hide Memory;
    if l.session.NoSession? {
      MemoryInsert(l.coins, id, Pulled(c), mem);
    } else {
      MemoryInsert(l.coins - {l.session.id}, id, Pulled(c), mem);
      assert l'.coins - {l.session.id} == (l.coins - {l.session.id})[id := Pulled(c)];
    }
  }

  lemma {:induction false} FetchNullifierOk(s: Stack, n: Nullifier, mem: Coins -> nat)
    requires StackOk(s, mem)
    ensures var u := FetchNullifier(s, n);
      && StackOk(u, mem) && SameView(s, u) && Grows(s, u) && (Settled(s) ==> Settled(u))
      && (s.layers != [] ==> n in u.Top().nullifiers && u.Top().session == s.Top().session)
    decreases |s.layers|
  {
    if s.layers != [] {
      var l, below := s.Top(), s.Below();
      StackIsPush(s);
      PushTop(below, l);
      if n !in l.nullifiers {
        FetchNullifierOk(below, n, mem);
        NullifierOver(below, FetchNullifier(below, n), l, n, mem);
      }
    }
  }

  lemma NullifierOver(below: Stack, below': Stack, l: Layer, n: Nullifier, mem: Coins -> nat)
    requires StackOk(below', mem) && Settled(below') && LayerOk(l, below) && MemoryOk(l, mem) && n !in l.nullifiers
    requires SameView(below, below') && Grows(below, below')
    ensures var u := below'.Push(l.(nullifiers := l.nullifiers[n := Mark(NullifierView(below, n), false)]));
      && StackOk(u, mem) && SameView(below.Push(l), u) && u.Top() == l.(nullifiers := l.nullifiers[n := Mark(NullifierView(below, n), false)])
  {
    hide CoinsView, NullifierView, StackOk;
    var l' := l.(nullifiers := l.nullifiers[n := Mark(NullifierView(below, n), false)]);
    LayerOverSame(l, below, below');
    ViewOverSame(l, below, below');
    PushTop(below', l);
    PushTop(below', l');
    forall id | id in l'.coins ensures EntryOk(l'.coins[id], id, below') { assert EntryOk(l.coins[id], id, below'); }
    forall m | m in l'.nullifiers ensures MarkOk(l'.nullifiers[m], m, below') { if m != n { assert MarkOk(l.nullifiers[m], m, below'); } }
    SameViewTrans(below.Push(l), below'.Push(l), below'.Push(l'));
  }

  // ---------------------------------------------------------------- modifying

  /** Opening a session shows nothing new. */
  lemma {:induction false} OpenOk(s: Stack, id: Uint256, mem: Coins -> nat)
    requires StackOk(s, mem) && s.layers != [] && s.Top().session.NoSession?
    ensures var u := Open(s, id, mem);
      && StackOk(u, mem) && SameView(s, u) && Grows(s, u)
      && u.Top().session.Modifying? && u.Top().session.id == id && id in u.Top().coins
      && Live(Some(u.Top().coins[id].coins)) == Live(CoinsView(s, id))
  {
    var l, below := s.Top(), s.Below();
    StackIsPush(s);
    PushTop(below, l);
    FetchOk(below, id, mem);
    var below' := if id in l.coins then below else Fetch(below, id, mem);
    OpenOver(below, below', l, id, Opened(s, id), mem);
  }

  lemma OpenOver(below: Stack, below': Stack, l: Layer, id: Uint256, e: Entry, mem: Coins -> nat)
    requires StackOk(below', mem) && Settled(below') && LayerOk(l, below) && MemoryOk(l, mem) && l.session.NoSession?
    requires SameView(below, below') && Grows(below, below') && e.dirty
    requires if id in l.coins then e == l.coins[id].(dirty := true) && below' == below
             else (e.freshFlag <==> Live(CoinsView(below, id)) == None) && Live(Some(e.coins)) == Live(CoinsView(below, id))
                  && (!e.freshFlag && below'.layers != [] ==> id in below'.Top().coins)
    ensures var l' := l.(coins := l.coins[id := e], session := Modifying(id, if id in l.coins then mem(l.coins[id].coins) else 0));
      StackOk(below'.Push(l'), mem) && SameView(below.Push(l), below'.Push(l')) && below'.Push(l').Top() == l'
  {
    hide CoinsView, NullifierView, StackOk, LayerOk, MemoryOk, Memory;
    var l' := l.(coins := l.coins[id := e], session := Modifying(id, if id in l.coins then mem(l.coins[id].coins) else 0));
    LayerOverSame(l, below, below');
    PushTop(below, l);
    PushTop(below', l');
    OpenLayer(below', l, l', id, e, mem);
    assert id in l.coins ==> l.coins[id].coins == e.coins;
  }

  lemma OpenLayer(below: Stack, l: Layer, l': Layer, id: Uint256, e: Entry, mem: Coins -> nat)
    requires LayerOk(l, below) && MemoryOk(l, mem) && l.session.NoSession? && e.dirty
    requires if id in l.coins then e == l.coins[id].(dirty := true)
             else (e.freshFlag ==> Live(CoinsView(below, id)) == None) && (!e.freshFlag && below.layers != [] ==> id in below.Top().coins)
    requires l' == l.(coins := l.coins[id := e], session := Modifying(id, if id in l.coins then mem(l.coins[id].coins) else 0))
    ensures LayerOk(l', below) && MemoryOk(l', mem)
  {
    hide CoinsView, NullifierView;
    forall i | i in l'.coins ensures EntryOk(l'.coins[i], i, below) { assert i in l.coins ==> EntryOk(l.coins[i], i, below); }
    forall m | m in l'.nullifiers ensures MarkOk(l'.nullifiers[m], m, below) { assert MarkOk(l.nullifiers[m], m, below); }
    if id in l.coins { MemoryRemove(l.coins, id, mem); }
    assert l'.coins - {id} == if id in l.coins then l.coins - {id} else l.coins;
  }

  lemma {:induction false} TrimmedPruned(vout: seq<TxOut>)
    ensures |Trimmed(vout)| <= |vout| && Trimmed(vout) == vout[..|Trimmed(vout)|]
    ensures forall i :: |Trimmed(vout)| <= i < |vout| ==> vout[i].Null?
    ensures Trimmed(vout) != [] ==> !Trimmed(vout)[|Trimmed(vout)| - 1].Null?
  {
    if vout != [] && vout[|vout| - 1].Null? { TrimmedPruned(vout[..|vout| - 1]); }
  }

  /** Coins with no output left are pruned, and then have no outputs at all after cleaning up. */
  lemma CleanupPruned(c: Coins)
    ensures IsPruned(Cleanup(c)) <==> IsPruned(c)
    ensures IsPruned(Cleanup(c)) <==> Cleanup(c).vout == []
    ensures |Cleanup(c).vout| <= |c.vout| && Cleanup(c).vout == c.vout[..|Cleanup(c).vout|]
    ensures forall i :: |Cleanup(c).vout| <= i < |c.vout| ==> c.vout[i].Null?
  {
    TrimmedPruned(c.vout);
    if !IsPruned(c) {
      var i :| 0 <= i < |c.vout| && !c.vout[i].Null?;
      assert i < |Trimmed(c.vout)| && !Cleanup(c).vout[i].Null?;
    }
  }

  /** Closing a session makes exactly the coins it leaves visible, and changes nothing else. */
  lemma CloseOk(s: Stack, c: Coins, mem: Coins -> nat)
    requires StackOk(s, mem) && s.layers != [] && s.Top().session.Modifying?
    ensures s.Top().session.id in s.Top().coins
    ensures var u := Close(s, c, mem); var id := s.Top().session.id;
      && StackOk(u, mem) && |u.layers| == |s.layers| && u.Top().session.NoSession? && u.Below() == s.Below()
      && Live(CoinsView(u, id)) == Live(Some(Cleanup(c)))
      && (forall i :: i != id ==> Live(CoinsView(u, i)) == Live(CoinsView(s, i)))
      && (forall n :: NullifierView(u, n) == NullifierView(s, n))
  {
    var l, below := s.Top(), s.Below();
    StackIsPush(s);
    PushTop(below, l);
    CloseLayer(below, l, c, mem);
    hide StackOk, CoinsView, NullifierView, LayerOk, MemoryOk;
    var l' := ClosedLayer(l, c, mem);
    assert Close(s, c, mem) == below.Push(l');
    PushTop(below, l');
  }

  lemma CloseLayer(below: Stack, l: Layer, c: Coins, mem: Coins -> nat)
    requires LayerOk(l, below) && MemoryOk(l, mem) && l.session.Modifying?
    ensures var l' := ClosedLayer(l, c, mem); LayerOk(l', below) && MemoryOk(l', mem) && l'.session.NoSession?
    ensures l.session.id !in ClosedLayer(l, c, mem).coins ==> Live(CoinsView(below, l.session.id)) == None
  {
    hide CoinsView, NullifierView, StackOk;
    var l' := ClosedLayer(l, c, mem);
    var id := l.session.id;
    assert EntryOk(l.coins[id], id, below);
    var e := l.coins[id].(coins := Cleanup(c));
    if e.freshFlag && IsPruned(e.coins) {
    } else {
      MemoryRemove(l.coins[id := e], id, mem);
      assert l.coins[id := e] - {id} == l.coins - {id};
    }
    forall i | i in l'.coins ensures EntryOk(l'.coins[i], i, below) { assert EntryOk(l.coins[i], i, below); }
    forall m | m in l'.nullifiers ensures MarkOk(l'.nullifiers[m], m, below) { assert MarkOk(l.nullifiers[m], m, below); }
  }

  lemma SetNullifierOk(s: Stack, n: Nullifier, spent: bool, mem: Coins -> nat)
    requires StackOk(s, mem) && s.layers != []
    ensures var u := SetNullifier(s, n, spent);
      && StackOk(u, mem) && |u.layers| == |s.layers| && u.Below() == s.Below() && u.Top().session == s.Top().session
      && NullifierView(u, n) == spent
      && (forall m :: m != n ==> NullifierView(u, m) == NullifierView(s, m))
      && (forall id :: CoinsView(u, id) == CoinsView(s, id))
  {
    hide StackOk, CoinsView, NullifierView, LayerOk, Memory;
    var l, below := s.Top(), s.Below();
    StackIsPush(s);
    PushTop(below, l);
    var l' := l.(nullifiers := l.nullifiers[n := Mark(spent, true)]);
    EnteredLayerOk(l, below, n, spent);
    PushTop(below, l');
    assert SetNullifier(s, n, spent) == below.Push(l');
  }

  lemma EnteredLayerOk(l: Layer, below: Stack, n: Nullifier, spent: bool)
    requires LayerOk(l, below)
    ensures LayerOk(l.(nullifiers := l.nullifiers[n := Mark(spent, true)]), below)
  {
    hide CoinsView, NullifierView;
    var l' := l.(nullifiers := l.nullifiers[n := Mark(spent, true)]);
    forall id | id in l'.coins ensures EntryOk(l'.coins[id], id, below) { assert EntryOk(l.coins[id], id, below); }
    forall m | m in l'.nullifiers ensures MarkOk(l'.nullifiers[m], m, below) { if m != n { assert MarkOk(l.nullifiers[m], m, below); } }
  }

  // ---------------------------------------------------------------- flushing

  /** A parent's entry for some coins after the child's layer is written into it, if it then has one. */
  ghost function AfterMerge(p: Layer, l: Layer, id: Uint256): Option<Entry> {
    if id in l.coins then MergedEntry(p.coins, id, l.coins[id]) else if id in p.coins then Some(p.coins[id]) else None
  }

  lemma MergedIsAfterMerge(p: Layer, l: Layer)
    ensures forall id :: id in Merged(p.coins, l.coins) <==> AfterMerge(p, l, id).Some?
    ensures forall id :: id in Merged(p.coins, l.coins) ==> Merged(p.coins, l.coins)[id] == AfterMerge(p, l, id).value
  {
  }

  /**
   Writing one child entry into the parent: the parent's flags stay right, what the child
   showed is what the parent now shows, and a live entry unknown to the parent is FRESH.
   */
  lemma MergeOk(g: Stack, p: Layer, l: Layer, id: Uint256)
    requires LayerOk(p, g) && LayerOk(l, g.Push(p))
    ensures var r := AfterMerge(p, l, id);
      && (r.Some? ==> EntryOk(r.value, id, g))
      && Live(if r.Some? then Some(r.value.coins) else CoinsView(g, id)) == Live(CoinsView(g.Push(p).Push(l), id))
    ensures id in l.coins && l.coins[id].dirty && id !in p.coins && !IsPruned(l.coins[id].coins) ==> l.coins[id].freshFlag
  {
    hide CoinsView, StackOk, NullifierView;
    PushTop(g, p);
    PushTop(g.Push(p), l);
    if id in p.coins { assert EntryOk(p.coins[id], id, g); }
    if id in l.coins { assert EntryOk(l.coins[id], id, g.Push(p)); }
  }

  ghost function AfterMarks(p: Layer, l: Layer, n: Nullifier): Option<Mark> {
    if n in l.nullifiers then MergedMark(p.nullifiers, n, l.nullifiers[n]) else if n in p.nullifiers then Some(p.nullifiers[n]) else None
  }

  lemma MergeMarksOk(g: Stack, p: Layer, l: Layer, n: Nullifier)
    requires LayerOk(p, g) && LayerOk(l, g.Push(p))
    ensures var r := AfterMarks(p, l, n);
      && (r.Some? ==> MarkOk(r.value, n, g))
      && (if r.Some? then r.value.entered else NullifierView(g, n)) == NullifierView(g.Push(p).Push(l), n)
  {
    hide CoinsView, StackOk, NullifierView;
    PushTop(g, p);
    PushTop(g.Push(p), l);
    if n in p.nullifiers { assert MarkOk(p.nullifiers[n], n, g); }
    if n in l.nullifiers { assert MarkOk(l.nullifiers[n], n, g.Push(p)); }
  }

  /** The parent layer after a flush into it. */
  ghost function MergedLayer(p: Layer, l: Layer, mem: Coins -> nat): Layer {
    p.(coins := Merged(p.coins, l.coins), nullifiers := MergedMarks(p.nullifiers, l.nullifiers), hashBlock := l.hashBlock,
       usage := p.usage - Memory(p.coins, mem) + Memory(Merged(p.coins, l.coins), mem))
  }

  lemma MergedLayerOk(g: Stack, p: Layer, l: Layer, mem: Coins -> nat)
    requires LayerOk(p, g) && LayerOk(l, g.Push(p))
    ensures LayerOk(MergedLayer(p, l, mem), g)
    ensures SameView(g.Push(p).Push(l), g.Push(MergedLayer(p, l, mem)))
  {
    hide CoinsView, StackOk, NullifierView, LayerOk, EntryOk, MarkOk, MergedEntry, MergedMark;
    var q := MergedLayer(p, l, mem);
    PushTop(g, q);
    MergedIsAfterMerge(p, l);
    forall id ensures id in q.coins ==> EntryOk(q.coins[id], id, g)
              ensures Live(CoinsView(g.Push(q), id)) == Live(CoinsView(g.Push(p).Push(l), id)) {
      MergeOk(g, p, l, id);
    }
    forall n ensures n in q.nullifiers ==> MarkOk(q.nullifiers[n], n, g)
             ensures NullifierView(g.Push(q), n) == NullifierView(g.Push(p).Push(l), n) {
      MergeMarksOk(g, p, l, n);
    }
    LayerFromParts(q, g);
  }

  lemma LayerFromParts(l: Layer, g: Stack)
    requires forall id :: id in l.coins ==> EntryOk(l.coins[id], id, g)
    requires forall n :: n in l.nullifiers ==> MarkOk(l.nullifiers[n], n, g)
    ensures LayerOk(l, g)
  {
  }

  lemma FlushedShowsNothing(s: Stack, l: Layer, mem: Coins -> nat)
    requires StackOk(s, mem) && Settled(s) && l.session.NoSession?
    ensures StackOk(s.Push(Flushed(l)), mem) && SameView(s, s.Push(Flushed(l)))
  {
    PushTop(s, Flushed(l));
  }

  /** Writing a layer to the database makes the database show what the layer showed. */
  lemma WrittenOk(store: Store, l: Layer)
    requires LayerOk(l, Stack(store, []))
    ensures SameView(Stack(store, []).Push(l), Stack(Written(store, l), []))
  {
    var g := Stack(store, []);
    PushTop(g, l);
    forall id ensures Live(CoinsView(Stack(Written(store, l), []), id)) == Live(CoinsView(g.Push(l), id)) {
      if id in l.coins { assert EntryOk(l.coins[id], id, g); }
    }
    forall n ensures NullifierView(Stack(Written(store, l), []), n) == NullifierView(g.Push(l), n) {
      if n in l.nullifiers { assert MarkOk(l.nullifiers[n], n, g); }
    }
  }

  /** Flush keeps the invariant and everything visible, and leaves the flushed layer empty. */
  lemma FlushOk(s: Stack, mem: Coins -> nat)
    requires StackOk(s, mem) && s.layers != [] && s.Top().session.NoSession?
    ensures var u := Flush(s, mem);
      && StackOk(u, mem) && SameView(s, u) && |u.layers| == |s.layers| && SameView(s, u.Below())
      && u.Top() == Flushed(s.Top()) && Settled(u.Below())
      && (|s.layers| > 1 ==> u.Below().Below() == s.Below().Below())
  {
    hide StackOk, CoinsView, NullifierView, SameView, LayerOk, MemoryOk, Memory, Merged, MergedMarks, Written;
    if s.Below().layers == [] { FlushToStore(s, mem); } else { FlushToLayer(s, mem); }
  }

  lemma FlushToStore(s: Stack, mem: Coins -> nat)
    requires StackOk(s, mem) && |s.layers| == 1 && s.Top().session.NoSession?
    ensures var u := Flush(s, mem);
      && StackOk(u, mem) && SameView(s, u) && |u.layers| == |s.layers| && SameView(s, u.Below())
      && u.Top() == Flushed(s.Top()) && Settled(u.Below())
  {
    hide StackOk, CoinsView, NullifierView, SameView, LayerOk, MemoryOk, Memory, Merged, MergedMarks, Written;
    var l, below := s.Top(), s.Below();
    StackIsPush(s);
    PushTop(below, l);
    WrittenOk(s.store, l);
    var b := Stack(Written(s.store, l), []);
    StoreOk(b, mem);
    FlushedShowsNothing(b, l, mem);
    PushBest(b, Flushed(l));
    assert Flush(s, mem) == b.Push(Flushed(l));
    SameViewTrans(s, b, b.Push(Flushed(l)));
  }

  lemma StoreOk(s: Stack, mem: Coins -> nat)
    requires s.layers == []
    ensures StackOk(s, mem) && Settled(s)
  {
  }

  lemma {:induction false} FlushToLayer(s: Stack, mem: Coins -> nat)
    requires StackOk(s, mem) && |s.layers| > 1 && s.Top().session.NoSession?
    ensures var u := Flush(s, mem);
      && StackOk(u, mem) && SameView(s, u) && |u.layers| == |s.layers| && SameView(s, u.Below())
      && u.Top() == Flushed(s.Top()) && Settled(u.Below()) && u.Below().Below() == s.Below().Below()
  {
    hide StackOk, CoinsView, NullifierView, SameView, LayerOk, MemoryOk, Memory, Merged, MergedMarks, Written;
    var l, below := s.Top(), s.Below();
    StackIsPush(s);
    PushTop(below, l);
    var g, p := below.Below(), below.Top();
    StackIsPush(below);
    PushTop(g, p);
    MergedLayerOk(g, p, l, mem);
    var q := MergedLayer(p, l, mem);
    MergedMemoryOk(p, l, mem);
    PushTop(g, q);
    FlushedShowsNothing(g.Push(q), l, mem);
    PushBest(g.Push(q), Flushed(l));
    FlushIsPush(s, mem);
    SameViewTrans(s, g.Push(q), g.Push(q).Push(Flushed(l)));
  }

  lemma MergedMemoryOk(p: Layer, l: Layer, mem: Coins -> nat)
    requires MemoryOk(p, mem) && p.session.NoSession?
    ensures MemoryOk(MergedLayer(p, l, mem), mem)
  {
  }

  /**
   Flush does not always keep the best block: a layer that never had one writes its null
   hash over the one below.  It does exactly when the layer has a hash of its own, or is
   alone on the database, or the layer below changes nothing about the best block.
   */
  lemma FlushBestBlock(s: Stack, mem: Coins -> nat)
    requires s.layers != []
    ensures BestBlock(Flush(s, mem)) == BestBlock(s) <==>
      || s.Top().hashBlock != NULL_HASH
      || |s.layers| == 1
      || BestBlock(s.Below()) == BestBlock(s.Below().Below())
  {
    hide StackOk, BestBlock, Written, Flush, Merged, MergedMarks, Memory;
    if s.Below().layers == [] { FlushBestToStore(s, mem); } else { FlushBestToLayer(s, mem); }
  }

  lemma FlushBestToStore(s: Stack, mem: Coins -> nat)
    requires |s.layers| == 1
    ensures BestBlock(Flush(s, mem)) == BestBlock(s)
  {
    hide StackOk, BestBlock, Written, Merged, MergedMarks, Memory;
    var l, below := s.Top(), s.Below();
    StackIsPush(s);
    PushBest(below, l);
    WrittenBestBlock(s.store, l);
    var b := Stack(Written(s.store, l), []);
    PushBest(b, Flushed(l));
    assert Flush(s, mem) == b.Push(Flushed(l));
  }

  lemma FlushBestToLayer(s: Stack, mem: Coins -> nat)
    requires |s.layers| > 1
    ensures BestBlock(Flush(s, mem)) == BestBlock(s) <==>
      s.Top().hashBlock != NULL_HASH || BestBlock(s.Below()) == BestBlock(s.Below().Below())
  {
    hide StackOk, BestBlock, Written, Flush, MergedLayer, Merged, MergedMarks, Memory;
    var l, below := s.Top(), s.Below();
    StackIsPush(s);
    PushBest(below, l);
    var g, p := below.Below(), below.Top();
    StackIsPush(below);
    PushBest(g, p);
    var q := MergedLayer(p, l, mem);
    PushBest(g, q);
    PushBest(g.Push(q), Flushed(l));
    assert q.hashBlock == l.hashBlock by { MergedHash(p, l, mem); }
    FlushIsPush(s, mem);
  }

  lemma MergedHash(p: Layer, l: Layer, mem: Coins -> nat)
    ensures MergedLayer(p, l, mem).hashBlock == l.hashBlock
  {
  }

  lemma FlushIsPush(s: Stack, mem: Coins -> nat)
    requires |s.layers| > 1
    ensures Flush(s, mem) == s.Below().Below().Push(MergedLayer(s.Below().Top(), s.Top(), mem)).Push(Flushed(s.Top()))
  {
    hide Merged, MergedMarks, Memory;
  }

  lemma WrittenBestBlock(store: Store, l: Layer)
    ensures BestBlock(Stack(store, [])) == store.bestBlock
    ensures BestBlock(Stack(Written(store, l), [])) == if l.hashBlock != NULL_HASH then l.hashBlock else store.bestBlock
  {
  }

  lemma {:induction false} FetchBestOk(s: Stack, mem: Coins -> nat)
    requires StackOk(s, mem)
    ensures var u := FetchBest(s);
      && StackOk(u, mem) && SameView(s, u) && Grows(s, u) && BestBlock(u) == BestBlock(s) && (Settled(s) ==> Settled(u))
      && (s.layers != [] ==> u.Top().hashBlock == BestBlock(s) && u.Top().session == s.Top().session)
    decreases |s.layers|
  {
    hide StackOk, CoinsView, NullifierView, LayerOk, Memory;
    if s.layers != [] {
      var l, below := s.Top(), s.Below();
      StackIsPush(s);
      PushTop(below, l);
      if l.hashBlock == NULL_HASH {
        FetchBestOk(below, mem);
        var l' := l.(hashBlock := BestBlock(below));
        var below' := FetchBest(below);
        PushTop(below', l');
        LayerOverSame(l, below, below');
        SameEntries(l, l', below');
      }
    }
  }

  lemma SameEntries(l: Layer, l': Layer, below: Stack)
    requires LayerOk(l, below) && l'.coins == l.coins && l'.nullifiers == l.nullifiers
    ensures LayerOk(l', below)
  {
    forall id | id in l'.coins ensures EntryOk(l'.coins[id], id, below) { assert EntryOk(l.coins[id], id, below); }
    forall n | n in l'.nullifiers ensures MarkOk(l'.nullifiers[n], n, below) { assert MarkOk(l.nullifiers[n], n, below); }
  }

  /** Once the best block has been read through a layer, flushing it keeps the best block. */
  lemma {:induction false} FlushAfterBestBlockRead(s: Stack, mem: Coins -> nat)
    requires StackOk(s, mem) && s.layers != []
    ensures BestBlock(Flush(FetchBest(s), mem)) == BestBlock(s)
  {
    FetchBestOk(s, mem);
    var u := FetchBest(s);
    FlushBestBlock(u, mem);
    StackIsPush(u);
    PushTop(u.Below(), u.Top());
    if |u.layers| > 1 {
      StackIsPush(u.Below());
      PushTop(u.Below().Below(), u.Below().Top());
    }
  }
}
