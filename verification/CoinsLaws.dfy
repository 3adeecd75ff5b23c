/**
 What a cache layer of coins holds after each operation, entry by entry and flag by flag.
 */
module CoinsLaws {
  import opened Common
  import opened CoinsLayers
  import opened CoinsInvariant

  /** No output is left. */
  ghost predicate Gone(c: Coins) { c.vout == [] || forall i :: 0 <= i < |c.vout| ==> c.vout[i] == Null }

  /**
   Written into a parent, a changed entry replaces the parent's and keeps its FRESH flag. Where the
   parent has none it is FRESH. Coins that are gone are not taken over where the parent has none,
   and take the parent's entry along if that is FRESH.
   */
  lemma MergedExactly(parent: map<Uint256, Entry>, child: map<Uint256, Entry>, id: Uint256)
    ensures var m := Merged(parent, child);
      && (id !in child || !child[id].dirty ==> (id in m <==> id in parent) && (id in m ==> m[id] == parent[id]))
      && (id in child && child[id].dirty && id !in parent ==>
            (id in m <==> !Gone(child[id].coins)) && (id in m ==> m[id] == Entry(child[id].coins, true, true)))
      && (id in child && child[id].dirty && id in parent ==>
            (id !in m <==> parent[id].freshFlag && Gone(child[id].coins)) && (id in m ==> m[id] == Entry(child[id].coins, true, parent[id].freshFlag)))
  {
  }

  /** A parent's mark on a nullifier changes, and counts as changed, only where the child's says otherwise. */
  lemma MergedMarksExactly(parent: map<Nullifier, Mark>, child: map<Nullifier, Mark>, n: Nullifier)
    ensures var m := MergedMarks(parent, child);
      && (n in m <==> n in parent || (n in child && child[n].dirty))
      && (n in m && n in child && child[n].dirty && (n !in parent || parent[n].entered != child[n].entered) ==> m[n] == Mark(child[n].entered, true))
      && (n in parent && (n !in child || !child[n].dirty || parent[n].entered == child[n].entered) ==> m[n] == parent[n])
  {
  }

  /** The database keeps the changed coins that are not gone, and the others it had. */
  lemma WrittenExactly(store: Store, l: Layer, id: Uint256)
    ensures var w := Written(store, l); var changed := id in l.coins && l.coins[id].dirty;
      && (id in w.coins <==> if changed then !Gone(l.coins[id].coins) else id in store.coins)
      && (id in w.coins ==> w.coins[id] == if changed then l.coins[id].coins else store.coins[id])
      && w.bestBlock == if l.hashBlock == 0 then store.bestBlock else l.hashBlock
  {
  }

  /** Handed out for modification, an entry is DIRTY; it is FRESH if it was, or if the view below had none left. */
  lemma OpenedExactly(s: Stack, id: Uint256)
    requires s.layers != []
    ensures var e := Opened(s, id);
      && e.dirty
      && (id in s.Top().coins ==> e.coins == s.Top().coins[id].coins && e.freshFlag == s.Top().coins[id].freshFlag)
      && (id !in s.Top().coins && CoinsView(s.Below(), id) == None ==> e.coins == Coins(false, [], 0, 0) && e.freshFlag)
      && (id !in s.Top().coins && CoinsView(s.Below(), id).Some? ==>
            e.coins == CoinsView(s.Below(), id).value && (e.freshFlag <==> Gone(CoinsView(s.Below(), id).value)))
  {
  }

  /** After a modification the entry is forgotten if it is FRESH and nothing is left of the coins; the memory counted follows. */
  lemma {:induction false} ClosedExactly(l: Layer, c: Coins, mem: Coins -> nat)
    requires l.session.Modifying? && l.session.id in l.coins
    ensures var id, k := l.session.id, ClosedLayer(l, c, mem);
      && k.session.NoSession? && k.nullifiers == l.nullifiers && k.hashBlock == l.hashBlock
      && (id !in k.coins <==> l.coins[id].freshFlag && Gone(c))
      && (id in k.coins ==> k.coins[id] == Entry(Cleanup(c), l.coins[id].dirty, l.coins[id].freshFlag) && k.usage == l.usage - l.session.counted + mem(Cleanup(c)))
      && (id !in k.coins ==> k.usage == l.usage - l.session.counted)
      && (forall other :: other != id ==> (other in k.coins <==> other in l.coins) && (other in k.coins ==> k.coins[other] == l.coins[other]))
  {
    CleanupPruned(c);
  }

  /** Removing what was just added gives the map back. */
  lemma AddedThenRemoved(m: map<Uint256, Entry>, id: Uint256, e: Entry)
    requires id !in m
    ensures m[id := e] - {id} == m
  {
  }

  /** Reading enters the answer from below in the layer asked, unchanged, and FRESH only if nothing is left of the coins. */
  lemma FetchedExactly(s: Stack, id: Uint256, mem: Coins -> nat)
    requires s.layers != [] && id !in s.Top().coins
    ensures var c, u := CoinsView(s.Below(), id), Fetch(s, id, mem);
      && u.layers != []
      && (c == None ==> u.Top() == s.Top())
      && (c.Some? ==> u.Top() == s.Top().(usage := s.Top().usage + mem(c.value), coins := u.Top().coins)
                      && id in u.Top().coins && u.Top().coins[id].coins == c.value && !u.Top().coins[id].dirty
                      && (u.Top().coins[id].freshFlag <==> Gone(c.value))
                      && u.Top().coins - {id} == s.Top().coins)
  {
    var below := Fetch(s.Below(), id, mem);
    var c := CoinsView(s.Below(), id);
    PushTop(below, if c.None? then s.Top() else s.Top().(coins := s.Top().coins[id := Pulled(c.value)], usage := s.Top().usage + mem(c.value)));
    if c.Some? { AddedThenRemoved(s.Top().coins, id, Pulled(c.value)); }
  }

  /** Asking for a nullifier remembers the answer in the layer asked, as no change. */
  lemma FetchedMarkExactly(s: Stack, n: Nullifier)
    requires s.layers != [] && n !in s.Top().nullifiers
    ensures var u := FetchNullifier(s, n);
      u.layers != [] && u.Top() == s.Top().(nullifiers := s.Top().nullifiers[n := Mark(NullifierView(s.Below(), n), false)])
  {
    PushTop(FetchNullifier(s.Below(), n), s.Top().(nullifiers := s.Top().nullifiers[n := Mark(NullifierView(s.Below(), n), false)]));
  }
}
