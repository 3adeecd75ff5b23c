/**
 The cache objects for the anchors of a pool: each layer points at the layer below it,
 or at the database.
 */
module AnchorsView {
  import opened Common
  import opened AnchorLayers

  /** One child entry written into a parent's anchors. */
  function MergeOne<T>(m: map<Root, Anchor<T>>, rt: Root, e: Anchor<T>): map<Root, Anchor<T>> {
    match MergedAnchor(m, rt, e)
    case None => m
    case Some(x) => m[rt := x]
  }

  /** Writing entries one by one is writing them all. */
  lemma MergedStep<T>(parent: map<Root, Anchor<T>>, done: map<Root, Anchor<T>>, rt: Root, e: Anchor<T>)
    requires rt !in done
    ensures Merged(parent, done[rt := e]) == MergeOne(Merged(parent, done), rt, e)
  {
  }

  lemma MergedNothing<T>(m: map<Root, Anchor<T>>)
    ensures Merged(m, map[]) == m
  {
  }

  /** The bottom of a stack: a store on disk. */
  class AnchorDB<T(0)> {
    const pool: Pool<T>
    var trees: map<Root, T>
    var best: Root

    ghost function Contents(): Store<T>
      reads this
    {
      Store(trees, best)
    }

    /** A new database has no tree but the empty one, which is the best. */
    constructor (pool: Pool<T>)
      ensures this.pool == pool && Contents() == Store(map[], pool.root(pool.empty))
    {
      this.pool, trees, best := pool, map[], pool.root(pool.empty);
    }

    method GetAnchorAt(rt: Root) returns (r: Option<T>)
      ensures r == View(pool, Stack(Contents(), []), rt)
    {
      if rt == pool.root(pool.empty) { return Some(pool.empty); }
      r := if rt in trees then Some(trees[rt]) else None;
    }

    /** Write the changed entries of a layer: those entered are stored, the others erased. */
    method BatchWrite(mapAnchors: map<Root, Anchor<T>>, hashAnchor: Root)
      modifies this
      ensures Contents() == Written(pool, old(Contents()), Layer(mapAnchors, hashAnchor))
    {
      ghost var l := Layer(mapAnchors, hashAnchor);
      ghost var goal := Written(pool, Contents(), l);
      var todo := mapAnchors.Keys;
      while todo != {}
        invariant todo <= mapAnchors.Keys && best == old(best)
        invariant forall rt :: rt in trees <==> if rt in todo then rt in old(trees) else InStore(pool, old(Contents()), l, rt)
        invariant forall rt :: rt in trees ==> trees[rt] == if rt !in todo && Stored(pool, l, rt) then mapAnchors[rt].tree else old(trees)[rt]
      {
        var rt :| rt in todo;
        if mapAnchors[rt].dirty {
          if !mapAnchors[rt].entered {
            trees := trees - {rt};
          } else if rt != pool.root(pool.empty) {
            trees := trees[rt := mapAnchors[rt].tree];
          }
        }
        todo := todo - {rt};
      }
      assert trees == goal.trees;
      if hashAnchor != NO_ROOT { best := hashAnchor; }
    }
  }

  class AnchorCache<T(0)> {
    const base: AnchorCache?<T>
    const db: AnchorDB<T>
    ghost const Repr: set<object>
    ghost const depth: nat

    var anchors: map<Root, Anchor<T>>
    var hashAnchor: Root

    /** How the layers hang together; nothing of it ever changes. */
    ghost predicate Shape()
      decreases depth
    {
      && this in Repr && db in Repr
      && Beneath() + {this} == Repr && this !in Beneath()
      && (base != null ==> base.depth < depth && base.db == db && base.Shape())
    }

    /** The objects below this layer. */
    ghost function Beneath(): set<object> { if base == null then {db} else base.Repr }

    ghost function AsLayer(): Layer<T>
      reads this
    {
      Layer(anchors, hashAnchor)
    }

    ghost function Below(): Stack<T>
      requires Shape()
      reads Beneath()
      decreases depth, 0
    {
      if base == null then Stack(db.Contents(), []) else base.Layers()
    }

    /** The stack of layers from the database up to this one. */
    ghost function Layers(): Stack<T>
      requires Shape()
      reads Repr
      decreases depth, 1
    {
      Below().Push(AsLayer())
    }

    ghost predicate Valid()
      reads Repr
    {
      Shape() && StackOk(db.pool, Layers())
    }

    /** What validity says about this layer and the view below it. */
    lemma Unfold()
      requires Valid()
      ensures Layers().layers != [] && Layers().Top() == AsLayer() && Layers().Below() == Below()
      ensures LayerOk(db.pool, AsLayer(), Below()) && StackOk(db.pool, Below())
      ensures base != null ==> base.Valid()
    {
      PushTop(Below(), AsLayer());
    }

    /** A new layer on a database whose trees are those of their roots. */
    constructor OverDB(db: AnchorDB<T>)
      requires StackOk(db.pool, Stack(db.Contents(), []))
      ensures Valid() && this.db == db && Layers() == Stack(db.Contents(), [Layer(map[], NO_ROOT)]) && base == null
    {
      this.base, this.db := null, db;
      anchors, hashAnchor := map[], NO_ROOT;
      Repr, depth := {this, db}, 0;
      new;
      NothingAbove(db.pool, Stack(db.Contents(), []), NO_ROOT);
    }

    /** A new layer on another layer. */
    constructor OverCache(below: AnchorCache<T>)
      requires below.Valid()
      ensures Valid() && base == below && db == below.db && Layers() == below.Layers().Push(Layer(map[], NO_ROOT))
    {
      this.base, this.db := below, below.db;
      anchors, hashAnchor := map[], NO_ROOT;
      Repr, depth := below.Repr + {this}, below.depth + 1;
      new;
      NothingAbove(below.db.pool, below.Layers(), NO_ROOT);
    }

    /** Ask the view below. */
    method AnchorBelow(rt: Root) returns (r: Option<T>)
      requires Valid()
      modifies Beneath()
      ensures Below() == Fetch(db.pool, old(Below()), rt) && r == View(db.pool, old(Below()), rt)
      decreases depth, 0
    {
      Unfold();
      if base == null { r := db.GetAnchorAt(rt); } else { r := base.GetAnchorAt(rt); }
    }

    /** The tree of a root, if it is an anchor; one found below is remembered. */
    method GetAnchorAt(rt: Root) returns (r: Option<T>)
      requires Valid()
      modifies Repr
      ensures Valid() && Layers() == Fetch(db.pool, old(Layers()), rt) && r == View(db.pool, old(Layers()), rt)
      decreases depth, 3
    {
      hide StackOk, LayerOk, View;
      ghost var s := Layers();
      Unfold();
      FetchOk(db.pool, s, rt);
      PushView(db.pool, Below(), AsLayer(), rt);
      if rt in anchors { return if anchors[rt].entered then Some(anchors[rt].tree) else None; }
      FetchIs(db.pool, s, rt);
      r := AnchorBelow(rt);
      if r.Some? { anchors := anchors[rt := Anchor(true, r.value, false)]; }
      assert Layers() == Fetch(db.pool, s, rt);
    }

    method GetBestAnchor() returns (r: Root)
      requires Valid()
      modifies Repr
      ensures Valid() && Layers() == FetchBest(old(Layers())) && r == Best(old(Layers()))
      decreases depth
    {
      hide StackOk, LayerOk, View;
      ghost var s := Layers();
      Unfold();
      FetchBestOk(db.pool, s);
      if hashAnchor == NO_ROOT {
        if base == null { hashAnchor := db.best; } else { hashAnchor := base.GetBestAnchor(); }
      }
      r := hashAnchor;
      assert Layers() == FetchBest(s);
    }

    /** Enter a tree as the best anchor. */
    method EnterAnchor(tree: T)
      requires Valid()
      modifies Repr
      ensures Valid() && Layers() == PushAnchor(db.pool, old(Layers()), tree)
    {
      hide StackOk, LayerOk, View, Best, FetchBest;
      ghost var s := Layers();
      Unfold();
      PushAnchorOk(db.pool, s, tree);
      var newrt := db.pool.root(tree);
      var currentRoot := GetBestAnchor();
      Unfold();
      if currentRoot != newrt {
        anchors := anchors[newrt := Anchor(true, tree, true)];
        hashAnchor := newrt;
      }
      assert Layers() == PushAnchor(db.pool, s, tree);
    }

    /** Go back to another anchor and take the present one out of view. */
    method LeaveAnchor(newrt: Root)
      requires Valid() && CanPop(db.pool, Layers(), newrt)
      modifies Repr
      ensures Valid() && Layers() == PopAnchor(db.pool, old(Layers()), newrt)
    {
      hide StackOk, LayerOk, View, Best, FetchBest, Fetch;
      ghost var s := Layers();
      Unfold();
      PopAnchorOk(db.pool, s, newrt);
      FetchBestOk(db.pool, s);
      var currentRoot := GetBestAnchor();
      Unfold();
      if currentRoot != newrt {
        FetchOk(db.pool, Layers(), currentRoot);
        assert View(db.pool, Layers(), currentRoot) == View(db.pool, s, currentRoot);
        var tree := GetAnchorAt(currentRoot);
        assert tree.Some?;
        Unfold();
        anchors := anchors[currentRoot := anchors[currentRoot].(entered := false, dirty := true)];
        hashAnchor := newrt;
      }
      assert Layers() == PopAnchor(db.pool, s, newrt);
    }

    /** Take over the changed entries of the layer above, and its best anchor. */
    method BatchWrite(mapAnchors: map<Root, Anchor<T>>, hashAnchorIn: Root)
      modifies this
      ensures AsLayer() == MergedLayer(old(AsLayer()), Layer(mapAnchors, hashAnchorIn))
    {
      hide Merged;
      ghost var done: map<Root, Anchor<T>> := map[];
      MergedNothing(anchors);
      var todo := mapAnchors.Keys;
      while todo != {}
        invariant todo <= mapAnchors.Keys && done.Keys == mapAnchors.Keys - todo
        invariant forall rt :: rt in done ==> done[rt] == mapAnchors[rt]
        invariant anchors == Merged(old(anchors), done)
      {
        var rt :| rt in todo;
        MergedStep(old(anchors), done, rt, mapAnchors[rt]);
        var child := mapAnchors[rt];
        if child.dirty {
          if rt !in anchors {
            anchors := anchors[rt := Anchor(child.entered, child.tree, true)];
          } else if anchors[rt].entered != child.entered {
            anchors := anchors[rt := anchors[rt].(entered := child.entered, dirty := true)];
          }
        }
        done := done[rt := child];
        todo := todo - {rt};
      }
      assert done == mapAnchors;
      hashAnchor := hashAnchorIn;
    }

    /** Hand all changes to the view below. */
    method WriteBelow()
      requires Valid()
      modifies Beneath()
      ensures Below() == FlushedBelow(db.pool, old(Below()), AsLayer())
    {
      hide StackOk, LayerOk, View, Merged, Written;
      Unfold();
      if base == null {
        db.BatchWrite(anchors, hashAnchor);
      } else {
        base.Unfold();
        base.BatchWrite(anchors, hashAnchor);
      }
    }

    /** Push all changes to the view below and forget everything cached. */
    method Flush()
      requires Valid()
      modifies Repr
      ensures Valid() && Layers() == AnchorLayers.Flush(db.pool, old(Layers()))
    {
      hide StackOk, LayerOk, View, FlushedBelow;
      ghost var s := Layers();
      Unfold();
      FlushOk(db.pool, s);
      WriteBelow();
      anchors := map[];
      assert Layers() == AnchorLayers.Flush(db.pool, s);
    }
  }
}
