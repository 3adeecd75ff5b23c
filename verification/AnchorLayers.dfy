/**
 The anchors of one shielded pool in a stack of cache layers over a database: which
 commitment trees can be referred to by their roots, and which is the best one.
 */
module AnchorLayers {
  import opened Common
  import CoinsLayers

  type Root = CoinsLayers.Uint256

  const NO_ROOT: Root := CoinsLayers.NULL_HASH

  /** How trees are hashed, and the tree without a commitment, which the database always knows. */
  datatype Pool<!T> = Pool(root: T -> Root, empty: T)

  datatype Anchor<T> = Anchor(entered: bool, tree: T, dirty: bool)

  datatype Layer<T> = Layer(anchors: map<Root, Anchor<T>>, best: Root)

  datatype Store<T> = Store(trees: map<Root, T>, best: Root)

  /** Layers are listed from the one next to the database to the top one. */
  datatype Stack<T> = Stack(store: Store<T>, layers: seq<Layer<T>>) {

    function Top(): Layer<T> requires layers != [] { layers[|layers| - 1] }

    function Below(): Stack<T> requires layers != [] { Stack(store, layers[..|layers| - 1]) }

    function Push(l: Layer<T>): Stack<T> { Stack(store, layers + [l]) }

    function WithTop(l: Layer<T>): Stack<T> requires layers != [] { Below().Push(l) }
  }

  // ---------------------------------------------------------------- views

  /** The tree a root stands for, if it is an anchor. */
  function View<T>(pool: Pool<T>, s: Stack<T>, rt: Root): Option<T>
    decreases |s.layers|
  {
    if s.layers == [] then
      if rt == pool.root(pool.empty) then Some(pool.empty) else if rt in s.store.trees then Some(s.store.trees[rt]) else None
    else if rt in s.Top().anchors then
      if s.Top().anchors[rt].entered then Some(s.Top().anchors[rt].tree) else None
    else View(pool, s.Below(), rt)
  }

  predicate Shown<T>(pool: Pool<T>, s: Stack<T>, rt: Root) { View(pool, s, rt).Some? }

  /** A layer without a best anchor of its own asks the one below. */
  function Best<T>(s: Stack<T>): Root
    decreases |s.layers|
  {
    if s.layers == [] then s.store.best
    else if s.Top().best != NO_ROOT then s.Top().best
    else Best(s.Below())
  }

  // ---------------------------------------------------------------- operations

  /** GetSproutAnchorAt and GetSaplingAnchorAt: every layer asked remembers a tree found below. */
  function Fetch<T>(pool: Pool<T>, s: Stack<T>, rt: Root): (u: Stack<T>)
    ensures |u.layers| == |s.layers|
    decreases |s.layers|
  {
    if s.layers == [] || rt in s.Top().anchors then s
    else
      match View(pool, s.Below(), rt)
      case None => Fetch(pool, s.Below(), rt).Push(s.Top())
      case Some(t) => Fetch(pool, s.Below(), rt).Push(s.Top().(anchors := s.Top().anchors[rt := Anchor(true, t, false)]))
  }

  /** GetBestAnchor: every layer asked remembers the answer. */
  function FetchBest<T>(s: Stack<T>): (u: Stack<T>)
    ensures |u.layers| == |s.layers|
    decreases |s.layers|
  {
    if s.layers == [] || s.Top().best != NO_ROOT then s
    else FetchBest(s.Below()).Push(s.Top().(best := Best(s.Below())))
  }

  /** PushAnchor: enter a tree as the best anchor, unless it is that already. */
  function PushAnchor<T>(pool: Pool<T>, s: Stack<T>, tree: T): Stack<T>
    requires s.layers != []
  {
    var u, rt := FetchBest(s), pool.root(tree);
    if Best(s) == rt then u else u.WithTop(Layer(u.Top().anchors[rt := Anchor(true, tree, true)], rt))
  }

  function Hidden<T>(anchors: map<Root, Anchor<T>>, rt: Root): map<Root, Anchor<T>> {
    if rt in anchors then anchors[rt := anchors[rt].(entered := false, dirty := true)] else anchors
  }

  /** PopAnchor asserts that the best anchor can be found. */
  predicate CanPop<T>(pool: Pool<T>, s: Stack<T>, rt: Root) { Best(s) == rt || Shown(pool, s, Best(s)) }

  /** PopAnchor: take the best anchor out of view and go back to another, unless that is the best already. */
  function PopAnchor<T>(pool: Pool<T>, s: Stack<T>, rt: Root): Stack<T>
    requires s.layers != []
  {
    var u := FetchBest(s);
    if Best(s) == rt then u
    else
      var v := Fetch(pool, u, Best(s));
      v.WithTop(Layer(Hidden(v.Top().anchors, Best(s)), rt))
  }

  /** A child's entry written into a parent: where the parent knows the root, its tree stays. */
  function MergedAnchor<T>(parent: map<Root, Anchor<T>>, rt: Root, e: Anchor<T>): Option<Anchor<T>> {
    if !e.dirty then (if rt in parent then Some(parent[rt]) else None)
    else if rt !in parent then Some(Anchor(e.entered, e.tree, true))
    else if parent[rt].entered != e.entered then Some(parent[rt].(entered := e.entered, dirty := true))
    else Some(parent[rt])
  }

  function Merged<T>(parent: map<Root, Anchor<T>>, child: map<Root, Anchor<T>>): map<Root, Anchor<T>> {
    map rt | rt in parent.Keys + child.Keys && (rt in child ==> MergedAnchor(parent, rt, child[rt]).Some?) ::
      if rt in child then MergedAnchor(parent, rt, child[rt]).value else parent[rt]
  }

  /** The database after a layer is written to it; the tree without commitments is never written. */
  function Written<T>(pool: Pool<T>, store: Store<T>, l: Layer<T>): Store<T> {
    Store(
      map rt | rt in store.trees.Keys + l.anchors.Keys && InStore(pool, store, l, rt) ::
        if Stored(pool, l, rt) then l.anchors[rt].tree else store.trees[rt],
      if l.best != NO_ROOT then l.best else store.best)
  }

  predicate Stored<T>(pool: Pool<T>, l: Layer<T>, rt: Root) {
    rt in l.anchors && l.anchors[rt].dirty && l.anchors[rt].entered && rt != pool.root(pool.empty)
  }

  predicate Erased<T>(l: Layer<T>, rt: Root) { rt in l.anchors && l.anchors[rt].dirty && !l.anchors[rt].entered }

  predicate InStore<T>(pool: Pool<T>, store: Store<T>, l: Layer<T>, rt: Root) {
    Stored(pool, l, rt) || (rt in store.trees && !Erased(l, rt))
  }

  function MergedLayer<T>(p: Layer<T>, l: Layer<T>): Layer<T> { Layer(Merged(p.anchors, l.anchors), l.best) }

  /** The view below a layer after that layer has been written into it. */
  function FlushedBelow<T>(pool: Pool<T>, below: Stack<T>, l: Layer<T>): (u: Stack<T>)
    ensures |u.layers| == |below.layers|
  {
    if below.layers == [] then Stack(Written(pool, below.store, l), []) else below.WithTop(MergedLayer(below.Top(), l))
  }

  /** Flush: write the top layer into the one below and forget its entries. */
  function Flush<T>(pool: Pool<T>, s: Stack<T>): Stack<T>
    requires s.layers != []
  {
    FlushedBelow(pool, s.Below(), s.Top()).Push(Layer(map[], s.Top().best))
  }

  // ---------------------------------------------------------------- the invariant

  /** An entry's tree hashes to its root, and an entry not changed repeats what is below. */
  ghost predicate AnchorOk<T>(pool: Pool<T>, e: Anchor<T>, rt: Root, g: Stack<T>) {
    pool.root(e.tree) == rt && (!e.dirty ==> e.entered && Shown(pool, g, rt))
  }

  ghost predicate LayerOk<T>(pool: Pool<T>, l: Layer<T>, g: Stack<T>) {
    forall rt :: rt in l.anchors ==> AnchorOk(pool, l.anchors[rt], rt, g)
  }

  ghost predicate StackOk<T>(pool: Pool<T>, s: Stack<T>)
    decreases |s.layers|
  {
    if s.layers == [] then forall rt :: rt in s.store.trees ==> pool.root(s.store.trees[rt]) == rt
    else LayerOk(pool, s.Top(), s.Below()) && StackOk(pool, s.Below())
  }

  /** The same roots are anchors. */
  ghost predicate SameAnchors<T>(pool: Pool<T>, s: Stack<T>, u: Stack<T>) { forall rt :: Shown(pool, s, rt) <==> Shown(pool, u, rt) }

  /** The same roots are anchors, for the same trees. */
  ghost predicate SameView<T>(pool: Pool<T>, s: Stack<T>, u: Stack<T>) { forall rt :: View(pool, s, rt) == View(pool, u, rt) }

  /** No two trees have the same root. */
  ghost predicate CollisionFree<T(!new)>(pool: Pool<T>) { forall a, b :: pool.root(a) == pool.root(b) ==> a == b }

  lemma PushTop<T>(s: Stack<T>, l: Layer<T>)
    ensures s.Push(l).layers != [] && s.Push(l).Top() == l && s.Push(l).Below() == s
  {
    assert (s.layers + [l])[..|s.layers|] == s.layers;
  }

  lemma StackIsPush<T>(s: Stack<T>)
    requires s.layers != []
    ensures s == s.Below().Push(s.Top())
  {
  }

  lemma PushOk<T>(pool: Pool<T>, s: Stack<T>, l: Layer<T>)
    ensures StackOk(pool, s.Push(l)) <==> LayerOk(pool, l, s) && StackOk(pool, s)
  {
    hide LayerOk;
    PushTop(s, l);
  }

  lemma PushView<T>(pool: Pool<T>, s: Stack<T>, l: Layer<T>, rt: Root)
    ensures View(pool, s.Push(l), rt) ==
      if rt in l.anchors then (if l.anchors[rt].entered then Some(l.anchors[rt].tree) else None) else View(pool, s, rt)
  {
    PushTop(s, l);
  }

  lemma PushBest<T>(s: Stack<T>, l: Layer<T>)
    ensures Best(s.Push(l)) == if l.best != NO_ROOT then l.best else Best(s)
  {
    PushTop(s, l);
  }

  /** Whatever a view shows for a root is a tree with that root. */
  lemma {:induction false} ViewHasRoot<T>(pool: Pool<T>, s: Stack<T>, rt: Root)
    requires StackOk(pool, s) && Shown(pool, s, rt)
    ensures pool.root(View(pool, s, rt).value) == rt
    decreases |s.layers|
  {
    if s.layers != [] {
      if rt in s.Top().anchors { assert AnchorOk(pool, s.Top().anchors[rt], rt, s.Below()); }
      else { ViewHasRoot(pool, s.Below(), rt); }
    }
  }

  /** Without collisions two views that show the same roots show the same trees. */
  lemma SameRootsSameTrees<T(!new)>(pool: Pool<T>, s: Stack<T>, u: Stack<T>)
    requires CollisionFree(pool) && StackOk(pool, s) && StackOk(pool, u) && SameAnchors(pool, s, u)
    ensures SameView(pool, s, u)
  {
    hide StackOk, View;
    forall rt ensures View(pool, s, rt) == View(pool, u, rt) {
      assert Shown(pool, s, rt) <==> Shown(pool, u, rt);
      if Shown(pool, s, rt) {
        ViewHasRoot(pool, s, rt);
        ViewHasRoot(pool, u, rt);
      }
    }
  }

  lemma LayerOverSame<T>(pool: Pool<T>, l: Layer<T>, g: Stack<T>, h: Stack<T>)
    requires LayerOk(pool, l, g) && SameView(pool, g, h)
    ensures LayerOk(pool, l, h)
  {
    forall rt | rt in l.anchors ensures AnchorOk(pool, l.anchors[rt], rt, h) {
      assert AnchorOk(pool, l.anchors[rt], rt, g) && View(pool, g, rt) == View(pool, h, rt);
    }
  }

  // ---------------------------------------------------------------- reading

  /** Looking a root up changes no answer, and leaves an anchor found in the top layer. */
  lemma {:induction false} FetchOk<T>(pool: Pool<T>, s: Stack<T>, rt: Root)
    requires StackOk(pool, s)
    ensures var u := Fetch(pool, s, rt);
      && StackOk(pool, u) && SameView(pool, s, u) && Best(u) == Best(s)
      && (s.layers != [] ==> u.Top().best == s.Top().best && SameView(pool, s.Below(), u.Below()) && Best(u.Below()) == Best(s.Below()))
      && (s.layers != [] && Shown(pool, s, rt) ==> rt in u.Top().anchors && u.Top().anchors[rt].entered)
    decreases |s.layers|
  {
    hide LayerOk, SameView;
    if s.layers != [] && rt !in s.Top().anchors {
      FetchOk(pool, s.Below(), rt);
      FetchStep(pool, s, rt);
    } else {
      SameViewSelf(pool, s);
      if s.layers != [] { SameViewSelf(pool, s.Below()); }
    }
  }

  lemma SameViewSelf<T>(pool: Pool<T>, s: Stack<T>)
    ensures SameView(pool, s, s)
  {
    hide View;
  }

  lemma FetchStep<T>(pool: Pool<T>, s: Stack<T>, rt: Root)
    requires StackOk(pool, s) && s.layers != [] && rt !in s.Top().anchors
    requires var g := Fetch(pool, s.Below(), rt); StackOk(pool, g) && SameView(pool, s.Below(), g) && Best(g) == Best(s.Below())
    ensures var u := Fetch(pool, s, rt);
      && StackOk(pool, u) && SameView(pool, s, u) && Best(u) == Best(s) && u.Top().best == s.Top().best
      && u.Below() == Fetch(pool, s.Below(), rt)
      && (Shown(pool, s, rt) ==> rt in u.Top().anchors && u.Top().anchors[rt].entered)
  {
    hide StackOk, View, Fetch, Best, LayerOk;
    var g, l := Fetch(pool, s.Below(), rt), s.Top();
    var k := PulledLayer(pool, s.Below(), l, rt);
    FetchIs(pool, s, rt);
    StackIsPush(s);
    PushOk(pool, s.Below(), l);
    PushOk(pool, g, k);
    PushTop(g, k);
    PushBest(g, k);
    PushBest(s.Below(), l);
    PulledOk(pool, s.Below(), g, l, rt);
    PushView(pool, s.Below(), l, rt);
    forall q ensures View(pool, s, q) == View(pool, g.Push(k), q) {
      PushView(pool, s.Below(), l, q);
      PushView(pool, g, k, q);
      assert View(pool, s.Below(), q) == View(pool, g, q);
    }
  }

  /** A layer after a lookup that it could not answer itself. */
  function PulledLayer<T>(pool: Pool<T>, below: Stack<T>, l: Layer<T>, rt: Root): Layer<T> {
    match View(pool, below, rt)
    case None => l
    case Some(t) => l.(anchors := l.anchors[rt := Anchor(true, t, false)])
  }

  lemma FetchIs<T>(pool: Pool<T>, s: Stack<T>, rt: Root)
    requires s.layers != [] && rt !in s.Top().anchors
    ensures Fetch(pool, s, rt) == Fetch(pool, s.Below(), rt).Push(PulledLayer(pool, s.Below(), s.Top(), rt))
  {
    hide View;
  }

  lemma PulledOk<T>(pool: Pool<T>, g: Stack<T>, h: Stack<T>, l: Layer<T>, rt: Root)
    requires LayerOk(pool, l, g) && StackOk(pool, g) && SameView(pool, g, h) && rt !in l.anchors
    ensures LayerOk(pool, PulledLayer(pool, g, l, rt), h)
  {
    hide StackOk, View;
    LayerOverSame(pool, l, g, h);
    if Shown(pool, g, rt) {
      ViewHasRoot(pool, g, rt);
      assert View(pool, g, rt) == View(pool, h, rt);
    }
    var k := PulledLayer(pool, g, l, rt);
    forall q | q in k.anchors ensures AnchorOk(pool, k.anchors[q], q, h) { assert q in l.anchors ==> AnchorOk(pool, l.anchors[q], q, h); }
  }

  lemma {:induction false} FetchBestOk<T>(pool: Pool<T>, s: Stack<T>)
    requires StackOk(pool, s)
    ensures var u := FetchBest(s);
      && StackOk(pool, u) && SameView(pool, s, u) && Best(u) == Best(s)
      && (s.layers != [] ==> u.Top() == s.Top().(best := Best(s)) && SameView(pool, s.Below(), u.Below()) && Best(u.Below()) == Best(s.Below()))
    decreases |s.layers|
  {
    hide View, StackOk, LayerOk, SameView;
    SameViewSelf(pool, s);
    if s.layers != [] {
      StackIsPush(s);
      PushBest(s.Below(), s.Top());
      SameViewSelf(pool, s.Below());
      if s.Top().best == NO_ROOT {
        var l, g := s.Top(), FetchBest(s.Below());
        PushOk(pool, s.Below(), l);
        FetchBestOk(pool, s.Below());
        var k := l.(best := Best(s.Below()));
        PushOk(pool, g, k);
        PushTop(g, k);
        PushBest(g, k);
        LayerOverSame(pool, l, s.Below(), g);
        SameAnchorsOk(pool, l, k, g);
        SameAbove(pool, s.Below(), g, l, k);
      }
    }
  }

  lemma SameAnchorsOk<T>(pool: Pool<T>, l: Layer<T>, k: Layer<T>, g: Stack<T>)
    requires LayerOk(pool, l, g) && k.anchors == l.anchors
    ensures LayerOk(pool, k, g)
  {
    forall rt | rt in k.anchors ensures AnchorOk(pool, k.anchors[rt], rt, g) { assert AnchorOk(pool, l.anchors[rt], rt, g); }
  }

  lemma SameAbove<T>(pool: Pool<T>, g: Stack<T>, h: Stack<T>, l: Layer<T>, k: Layer<T>)
    requires SameView(pool, g, h) && k.anchors == l.anchors
    ensures SameView(pool, g.Push(l), h.Push(k))
  {
    hide View;
    forall rt ensures View(pool, g.Push(l), rt) == View(pool, h.Push(k), rt) {
      PushView(pool, g, l, rt);
      PushView(pool, h, k, rt);
      assert View(pool, g, rt) == View(pool, h, rt);
    }
  }

  // ---------------------------------------------------------------- entering and taking out

  /** The top layer's entry for one root replaced. */
  lemma Replaced<T>(pool: Pool<T>, u: Stack<T>, rt: Root, e: Anchor<T>, best: Root)
    requires StackOk(pool, u) && u.layers != [] && pool.root(e.tree) == rt && e.dirty
    ensures var v := u.WithTop(Layer(u.Top().anchors[rt := e], best));
      && StackOk(pool, v) && v.layers != [] && v.Below() == u.Below() && v.Top().best == best
      && (forall q :: View(pool, v, q) == if q == rt then (if e.entered then Some(e.tree) else None) else View(pool, u, q))
      && Best(v) == if best != NO_ROOT then best else Best(u.Below())
  {
    hide View, StackOk;
    var g, l := u.Below(), u.Top();
    var k := Layer(l.anchors[rt := e], best);
    StackIsPush(u);
    PushTop(g, k);
    PushOk(pool, g, l);
    PushOk(pool, g, k);
    PushBest(g, k);
    forall q | q in k.anchors ensures AnchorOk(pool, k.anchors[q], q, g) { assert q in l.anchors ==> AnchorOk(pool, l.anchors[q], q, g); }
    forall q ensures View(pool, g.Push(k), q) == if q == rt then (if e.entered then Some(e.tree) else None) else View(pool, u, q) {
      PushView(pool, g, l, q);
      PushView(pool, g, k, q);
    }
  }

  /** The best anchor after the top layer has been given one, or the null hash. */
  function NewBest<T>(s: Stack<T>, best: Root): Root
    requires s.layers != []
  {
    if best != NO_ROOT then best else Best(s.Below())
  }

  /** PushAnchor makes its tree an anchor and the best one, and leaves the others alone. */
  lemma {:induction false} PushAnchorOk<T>(pool: Pool<T>, s: Stack<T>, tree: T)
    requires StackOk(pool, s) && s.layers != []
    ensures var u, rt := PushAnchor(pool, s, tree), pool.root(tree);
      && StackOk(pool, u) && |u.layers| == |s.layers| && SameView(pool, s.Below(), u.Below()) && Best(u.Below()) == Best(s.Below())
      && (forall q :: View(pool, u, q) == if rt != Best(s) && q == rt then Some(tree) else View(pool, s, q))
      && Best(u) == (if rt == Best(s) then Best(s) else NewBest(s, rt))
      && (rt != NO_ROOT ==> Best(u) == rt)
  {
    hide View, StackOk, Best, FetchBest;
    var u, rt := FetchBest(s), pool.root(tree);
    FetchBestOk(pool, s);
    if Best(s) != rt { Replaced(pool, u, rt, Anchor(true, tree, true), rt); }
    forall q ensures View(pool, u, q) == View(pool, s, q) { }
  }

  /**
   PopAnchor takes the best anchor out of view, leaves the others alone and goes back to the
   root given. `CanPop` is what the assertion on its way tests.
   */
  lemma {:induction false} PopAnchorOk<T>(pool: Pool<T>, s: Stack<T>, rt: Root)
    requires StackOk(pool, s) && s.layers != [] && CanPop(pool, s, rt)
    ensures var u := PopAnchor(pool, s, rt);
      && StackOk(pool, u) && |u.layers| == |s.layers| && SameView(pool, s.Below(), u.Below()) && Best(u.Below()) == Best(s.Below())
      && (forall q :: View(pool, u, q) == if rt != Best(s) && q == Best(s) then None else View(pool, s, q))
      && Best(u) == if rt == Best(s) then Best(s) else NewBest(s, rt)
  {
    hide View, StackOk, Best, FetchBest, Fetch, SameView;
    var u, b := FetchBest(s), Best(s);
    FetchBestOk(pool, s);
    SameAt(pool, s, u);
    if b != rt {
      var v := Fetch(pool, u, b);
      FetchOk(pool, u, b);
      SameAt(pool, u, v);
      assert b in v.Top().anchors;
      EntryHasRoot(pool, v, b);
      Replaced(pool, v, b, v.Top().anchors[b].(entered := false, dirty := true), rt);
      SameViewTrans(pool, s.Below(), u.Below(), v.Below());
    }
  }

  lemma SameAt<T>(pool: Pool<T>, s: Stack<T>, u: Stack<T>)
    requires SameView(pool, s, u)
    ensures forall q :: View(pool, u, q) == View(pool, s, q)
  {
    hide View;
  }

  lemma SameViewTrans<T>(pool: Pool<T>, s: Stack<T>, u: Stack<T>, v: Stack<T>)
    requires SameView(pool, s, u) && SameView(pool, u, v)
    ensures SameView(pool, s, v)
  {
    hide View;
    forall q ensures View(pool, s, q) == View(pool, v, q) { assert View(pool, s, q) == View(pool, u, q); }
  }

  lemma EntryHasRoot<T>(pool: Pool<T>, s: Stack<T>, rt: Root)
    requires StackOk(pool, s) && s.layers != [] && rt in s.Top().anchors
    ensures pool.root(s.Top().anchors[rt].tree) == rt
  {
    assert AnchorOk(pool, s.Top().anchors[rt], rt, s.Below());
  }

  /**
   Going back to the old best anchor undoes an entry, as far as anchors are concerned, exactly
   when the tree entered was not an anchor before: one entered a second time is taken out of view.
   */
  lemma {:induction false} PopUndoesPush<T>(pool: Pool<T>, s: Stack<T>, tree: T)
    requires StackOk(pool, s) && s.layers != [] && pool.root(tree) != NO_ROOT
    ensures var u := PushAnchor(pool, s, tree);
      && CanPop(pool, u, Best(s))
      && (SameView(pool, s, PopAnchor(pool, u, Best(s))) <==> pool.root(tree) == Best(s) || !Shown(pool, s, pool.root(tree)))
  {
    hide StackOk, PushAnchor, PopAnchor, Best, View;
    var u, rt := PushAnchor(pool, s, tree), pool.root(tree);
    PushAnchorOk(pool, s, tree);
    PopAnchorOk(pool, u, Best(s));
    var v := PopAnchor(pool, u, Best(s));
    if rt != Best(s) {
      assert View(pool, v, rt) == None;
      assert forall q :: q != rt ==> View(pool, v, q) == View(pool, s, q);
    }
  }

  // ---------------------------------------------------------------- flushing

  ghost function AfterMerge<T>(p: Layer<T>, l: Layer<T>, rt: Root): Option<Anchor<T>> {
    if rt in l.anchors then MergedAnchor(p.anchors, rt, l.anchors[rt]) else if rt in p.anchors then Some(p.anchors[rt]) else None
  }

  lemma MergedIsAfterMerge<T>(p: Layer<T>, l: Layer<T>, rt: Root)
    ensures var m := Merged(p.anchors, l.anchors); AfterMerge(p, l, rt) == if rt in m then Some(m[rt]) else None
  {
  }

  /** One root written into the layer below: the parent's entry stays right and shows what the child showed. */
  lemma MergeOk<T>(pool: Pool<T>, g: Stack<T>, p: Layer<T>, l: Layer<T>, rt: Root)
    requires LayerOk(pool, p, g) && LayerOk(pool, l, g.Push(p))
    ensures var r := AfterMerge(p, l, rt);
      && (r.Some? ==> AnchorOk(pool, r.value, rt, g))
      && (Shown(pool, g.Push(p).Push(l), rt) <==> if r.Some? then r.value.entered else Shown(pool, g, rt))
  {
    hide View;
    PushView(pool, g, p, rt);
    PushView(pool, g.Push(p), l, rt);
    if rt in p.anchors { assert AnchorOk(pool, p.anchors[rt], rt, g); }
    if rt in l.anchors { assert AnchorOk(pool, l.anchors[rt], rt, g.Push(p)); }
  }

  lemma MergedLayerOk<T>(pool: Pool<T>, g: Stack<T>, p: Layer<T>, l: Layer<T>)
    requires LayerOk(pool, p, g) && LayerOk(pool, l, g.Push(p))
    ensures LayerOk(pool, MergedLayer(p, l), g)
    ensures SameAnchors(pool, g.Push(p).Push(l), g.Push(MergedLayer(p, l)))
  {
    hide View, LayerOk, Merged, AnchorOk;
    var q := MergedLayer(p, l);
    forall rt ensures rt in q.anchors ==> AnchorOk(pool, q.anchors[rt], rt, g)
              ensures Shown(pool, g.Push(p).Push(l), rt) <==> Shown(pool, g.Push(q), rt) {
      MergedIsAfterMerge(p, l, rt);
      MergeOk(pool, g, p, l, rt);
      PushView(pool, g, q, rt);
    }
    LayerFromParts(pool, q, g);
  }

  lemma LayerFromParts<T>(pool: Pool<T>, l: Layer<T>, g: Stack<T>)
    requires forall rt :: rt in l.anchors ==> AnchorOk(pool, l.anchors[rt], rt, g)
    ensures LayerOk(pool, l, g)
  {
  }

  /** Written to the database, a layer's anchors are those the database shows, and the empty tree. */
  lemma WrittenOk<T>(pool: Pool<T>, g: Stack<T>, l: Layer<T>, rt: Root)
    requires g.layers == [] && LayerOk(pool, l, g) && StackOk(pool, g)
    ensures var h := Stack(Written(pool, g.store, l), []);
      && StackOk(pool, h)
      && (Shown(pool, h, rt) <==> rt == pool.root(pool.empty) || Shown(pool, g.Push(l), rt))
  {
    PushView(pool, g, l, rt);
    var h := Stack(Written(pool, g.store, l), []);
    forall q | q in h.store.trees ensures pool.root(h.store.trees[q]) == q {
      if Stored(pool, l, q) { assert AnchorOk(pool, l.anchors[q], q, g); }
    }
    if rt in l.anchors { assert AnchorOk(pool, l.anchors[rt], rt, g); }
  }

  /** The empty tree is in view again once a layer is written to the database. */
  predicate Regained<T>(pool: Pool<T>, s: Stack<T>, rt: Root) { |s.layers| == 1 && rt == pool.root(pool.empty) }

  lemma FlushedBelowOk<T>(pool: Pool<T>, s: Stack<T>)
    requires StackOk(pool, s) && s.layers != []
    ensures var h := FlushedBelow(pool, s.Below(), s.Top());
      && StackOk(pool, h)
      && (forall rt :: Shown(pool, h, rt) <==> Shown(pool, s, rt) || Regained(pool, s, rt))
      && (|s.layers| > 1 ==> h.Below() == s.Below().Below())
  {
    hide StackOk, View, LayerOk, Merged, Written;
    var l, g := s.Top(), s.Below();
    var h := FlushedBelow(pool, g, l);
    StackIsPush(s);
    PushOk(pool, g, l);
    if g.layers == [] {
      WrittenOk(pool, g, l, NO_ROOT);
      forall rt ensures Shown(pool, h, rt) <==> Shown(pool, s, rt) || Regained(pool, s, rt) { WrittenOk(pool, g, l, rt); }
    } else {
      var p, b := g.Top(), g.Below();
      StackIsPush(g);
      PushOk(pool, b, p);
      PushOk(pool, b, MergedLayer(p, l));
      PushTop(b, MergedLayer(p, l));
      MergedLayerOk(pool, b, p, l);
    }
  }

  lemma NothingAbove<T>(pool: Pool<T>, h: Stack<T>, best: Root)
    requires StackOk(pool, h)
    ensures StackOk(pool, h.Push(Layer(map[], best))) && SameView(pool, h.Push(Layer(map[], best)), h)
  {
    hide View;
    var k := Layer(map[], best);
    PushOk(pool, h, k);
    forall rt ensures View(pool, h.Push(k), rt) == View(pool, h, rt) { PushView(pool, h, k, rt); }
  }

  /** Flush keeps the invariant and every anchor, and shows them all from the view below. */
  lemma {:induction false} FlushOk<T>(pool: Pool<T>, s: Stack<T>)
    requires StackOk(pool, s) && s.layers != []
    ensures var u := Flush(pool, s);
      && StackOk(pool, u) && |u.layers| == |s.layers|
      && (forall rt :: Shown(pool, u, rt) <==> Shown(pool, s, rt) || Regained(pool, s, rt))
      && (forall rt :: Shown(pool, u.Below(), rt) <==> Shown(pool, s, rt) || Regained(pool, s, rt))
      && SameView(pool, u, u.Below())
      && (|s.layers| > 1 ==> u.Below().Below() == s.Below().Below())
  {
    hide StackOk, View, FlushedBelow;
    var h := FlushedBelow(pool, s.Below(), s.Top());
    FlushedBelowOk(pool, s);
    NothingAbove(pool, h, s.Top().best);
    PushTop(h, Layer(map[], s.Top().best));
  }

  /**
   Flush keeps exactly the same anchors unless it takes a layer to the database in which the
   empty tree's anchor had been taken out of view: that one comes back.
   */
  lemma FlushKeepsAnchors<T>(pool: Pool<T>, s: Stack<T>)
    requires StackOk(pool, s) && s.layers != []
    ensures SameAnchors(pool, s, Flush(pool, s)) <==> |s.layers| > 1 || Shown(pool, s, pool.root(pool.empty))
  {
    hide StackOk, View, Flush;
    FlushOk(pool, s);
    if |s.layers| == 1 { assert Regained(pool, s, pool.root(pool.empty)); }
  }

  /** Without collisions of the hash, flushing keeps every tree of an anchor as well, though it is not copied over one already there. */
  lemma FlushKeepsTrees<T(!new)>(pool: Pool<T>, s: Stack<T>)
    requires CollisionFree(pool) && StackOk(pool, s) && s.layers != []
    ensures SameView(pool, s, Flush(pool, s)) <==> |s.layers| > 1 || Shown(pool, s, pool.root(pool.empty))
  {
    hide StackOk, View, Flush;
    FlushOk(pool, s);
    FlushKeepsAnchors(pool, s);
    assert SameView(pool, s, Flush(pool, s)) ==> SameAnchors(pool, s, Flush(pool, s));
    if SameAnchors(pool, s, Flush(pool, s)) { SameRootsSameTrees(pool, s, Flush(pool, s)); }
  }

  /**
   As with the best block, a layer that never asked for the best anchor writes its null hash
   over the one below; the best anchor is kept exactly in these cases.
   */
  lemma FlushBestAnchor<T>(pool: Pool<T>, s: Stack<T>)
    requires s.layers != []
    ensures Best(Flush(pool, s)) == Best(s) <==>
      s.Top().best != NO_ROOT || |s.layers| == 1 || Best(s.Below()) == Best(s.Below().Below())
    ensures Best(Flush(pool, s)) == Best(Flush(pool, s).Below())
  {
    hide Merged;
    var l, g := s.Top(), s.Below();
    var h, k := FlushedBelow(pool, g, l), Layer(map[], l.best);
    StackIsPush(s);
    PushBest(g, l);
    PushBest(h, k);
    PushTop(h, k);
    if g.layers != [] {
      StackIsPush(g);
      PushBest(g.Below(), g.Top());
      PushBest(g.Below(), MergedLayer(g.Top(), l));
    }
  }

  // ---------------------------------------------------------------- flags

  /** Looking up an anchor enters it, unchanged, in the layer asked. */
  lemma FetchedExactly<T>(pool: Pool<T>, s: Stack<T>, rt: Root)
    requires s.layers != [] && rt !in s.Top().anchors
    ensures var u, t := Fetch(pool, s, rt), View(pool, s.Below(), rt);
      u.Top() == if t.Some? then s.Top().(anchors := s.Top().anchors[rt := Anchor(true, t.value, false)]) else s.Top()
  {
    hide View;
    FetchIs(pool, s, rt);
    PushTop(Fetch(pool, s.Below(), rt), PulledLayer(pool, s.Below(), s.Top(), rt));
  }

  /** A parent's anchor changes, and counts as changed, only where the child's changed one is entered and it is not, or the other way round. */
  lemma MergedExactly<T>(parent: map<Root, Anchor<T>>, child: map<Root, Anchor<T>>, rt: Root)
    ensures var m := Merged(parent, child); var changed := rt in child && child[rt].dirty;
      && (rt in m <==> rt in parent || changed)
      && (changed && rt !in parent ==> m[rt] == Anchor(child[rt].entered, child[rt].tree, true))
      && (rt in parent && changed && parent[rt].entered != child[rt].entered ==> m[rt] == Anchor(child[rt].entered, parent[rt].tree, true))
      && (rt in parent && (!changed || parent[rt].entered == child[rt].entered) ==> m[rt] == parent[rt])
  {
  }
}
