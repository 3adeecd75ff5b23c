/**
 Whole runs of the anchors of a pool: a stack of caches, with layers opened, flushed and
 dropped, behaves like a stack of plain sets of roots with a best one.
 */
module AnchorRuns {
  import opened Common
  import opened AnchorLayers

  /** The anchors as such, with no caching. */
  datatype Plain = Plain(roots: iset<Root>, best: Root)

  datatype Op<T> =
    | Read(rt: Root)
    | ReadBest
    | Enter(tree: T)
    | GoBack(rt: Root)
    | FlushTop
    | NewLayer
    | DropLayer

  /** Only the top layer is used. Going back needs its assertion, a flush a best anchor that survives it. */
  ghost predicate Legal<T>(pool: Pool<T>, s: Stack<T>, op: Op<T>) {
    match op
    case Read(_) => true
    case ReadBest => true
    case Enter(_) => s.layers != []
    case GoBack(rt) => s.layers != [] && CanPop(pool, s, rt)
    case FlushTop => s.layers != [] && KeepsBest(s)
    case NewLayer => true
    case DropLayer => s.layers != []
  }

  /** When flushing keeps the best anchor, as `FlushBestAnchor` has it. */
  ghost predicate KeepsBest<T>(s: Stack<T>)
    requires s.layers != []
  {
    s.Top().best != NO_ROOT || |s.layers| == 1 || Best(s.Below()) == Best(s.Below().Below())
  }

  ghost function Step<T>(pool: Pool<T>, s: Stack<T>, op: Op<T>): Stack<T>
    requires Legal(pool, s, op)
  {
    match op
    case Read(rt) => Fetch(pool, s, rt)
    case ReadBest => FetchBest(s)
    case Enter(tree) => PushAnchor(pool, s, tree)
    case GoBack(rt) => PopAnchor(pool, s, rt)
    case FlushTop => Flush(pool, s)
    case NewLayer => s.Push(Layer(map[], NO_ROOT))
    case DropLayer => s.Below()
  }

  /** The best root set to another; the null root stands for the one a level below. */
  ghost function Chosen(ps: seq<Plain>, rt: Root): Root
    requires |ps| > 1
  {
    if rt != NO_ROOT then rt else ps[|ps| - 2].best
  }

  /** The same operation on plain sets; the last is the top one. The bottom never lacks the empty tree. */
  ghost function PlainStep<T>(pool: Pool<T>, ps: seq<Plain>, op: Op<T>): seq<Plain>
    requires |ps| > 0 && (op.Enter? || op.GoBack? || op.FlushTop? || op.DropLayer? ==> |ps| > 1)
  {
    var top, rest := ps[|ps| - 1], ps[..|ps| - 1];
    match op
    case Read(_) => ps
    case ReadBest => ps
    case Enter(tree) =>
      var rt := pool.root(tree);
      if rt == top.best then ps else rest + [Plain(top.roots + iset{rt}, Chosen(ps, rt))]
    case GoBack(rt) => if rt == top.best then ps else rest + [Plain(top.roots - iset{top.best}, Chosen(ps, rt))]
    case FlushTop =>
      var kept := if |ps| == 2 then top.(roots := top.roots + iset{pool.root(pool.empty)}) else top;
      rest[..|rest| - 1] + [kept, kept]
    case NewLayer => ps + [top]
    case DropLayer => rest
  }

  ghost predicate Shows<T>(pool: Pool<T>, s: Stack<T>, p: Plain) {
    (forall rt :: Shown(pool, s, rt) <==> rt in p.roots) && Best(s) == p.best
  }

  /** Each layer shows its own plain set. */
  ghost predicate Refines<T>(pool: Pool<T>, s: Stack<T>, ps: seq<Plain>)
    decreases |s.layers|
  {
    && |ps| == |s.layers| + 1
    && Shows(pool, s, ps[|ps| - 1])
    && (s.layers != [] ==> Refines(pool, s.Below(), ps[..|ps| - 1]))
  }

  lemma ShowsSame<T>(pool: Pool<T>, s: Stack<T>, u: Stack<T>, p: Plain)
    requires Shows(pool, s, p) && SameView(pool, s, u) && Best(u) == Best(s)
    ensures Shows(pool, u, p)
  {
    hide View, Best;
    forall rt ensures Shown(pool, u, rt) <==> rt in p.roots { assert View(pool, s, rt) == View(pool, u, rt); }
  }

  lemma {:induction false} FetchRefines<T>(pool: Pool<T>, s: Stack<T>, rt: Root, ps: seq<Plain>)
    requires StackOk(pool, s) && Refines(pool, s, ps)
    ensures Refines(pool, Fetch(pool, s, rt), ps)
    decreases |s.layers|
  {
    hide Shows, SameView, LayerOk, View, Best;
    FetchOk(pool, s, rt);
    ShowsSame(pool, s, Fetch(pool, s, rt), ps[|ps| - 1]);
    if s.layers != [] && rt !in s.Top().anchors {
      FetchRefines(pool, s.Below(), rt, ps[..|ps| - 1]);
      FetchIs(pool, s, rt);
      PushTop(Fetch(pool, s.Below(), rt), PulledLayer(pool, s.Below(), s.Top(), rt));
    }
  }

  lemma {:induction false} FetchBestRefines<T>(pool: Pool<T>, s: Stack<T>, ps: seq<Plain>)
    requires StackOk(pool, s) && Refines(pool, s, ps)
    ensures Refines(pool, FetchBest(s), ps)
    decreases |s.layers|
  {
    hide Shows, SameView, LayerOk, View, Best;
    FetchBestOk(pool, s);
    ShowsSame(pool, s, FetchBest(s), ps[|ps| - 1]);
    if s.layers != [] && s.Top().best == NO_ROOT {
      FetchBestRefines(pool, s.Below(), ps[..|ps| - 1]);
      PushTop(FetchBest(s.Below()), s.Top().(best := Best(s.Below())));
    }
  }

  /** Replacing the top layer leaves what is below refining as it did. */
  lemma NewTop<T>(pool: Pool<T>, u: Stack<T>, v: Stack<T>, ps: seq<Plain>, p: Plain)
    requires Refines(pool, u, ps) && u.layers != [] && v.layers != [] && v.Below() == u.Below() && |v.layers| == |u.layers| && Shows(pool, v, p)
    ensures Refines(pool, v, ps[..|ps| - 1] + [p])
  {
    hide Shows;
    assert (ps[..|ps| - 1] + [p])[..|ps| - 1] == ps[..|ps| - 1];
  }

  lemma BelowShows<T>(pool: Pool<T>, s: Stack<T>, ps: seq<Plain>)
    requires Refines(pool, s, ps) && s.layers != []
    ensures |ps| > 1 && Shows(pool, s, ps[|ps| - 1]) && Shows(pool, s.Below(), ps[|ps| - 2]) && Refines(pool, s.Below(), ps[..|ps| - 1])
  {
    hide Shows;
  }

  lemma {:induction false} EnterRefines<T>(pool: Pool<T>, s: Stack<T>, tree: T, ps: seq<Plain>)
    requires StackOk(pool, s) && Refines(pool, s, ps) && s.layers != []
    ensures Refines(pool, PushAnchor(pool, s, tree), PlainStep(pool, ps, Enter(tree)))
  {
    hide Refines, StackOk, View, Best, FetchBest, SameView;
    BelowShows(pool, s, ps);
    FetchBestRefines(pool, s, ps);
    PushAnchorOk(pool, s, tree);
    var u, v, rt := FetchBest(s), PushAnchor(pool, s, tree), pool.root(tree);
    if rt != Best(s) {
      PushTop(u.Below(), Layer(u.Top().anchors[rt := Anchor(true, tree, true)], rt));
      NewTop(pool, u, v, ps, Plain(ps[|ps| - 1].roots + iset{rt}, Chosen(ps, rt)));
    }
  }

  lemma {:induction false} GoBackRefines<T>(pool: Pool<T>, s: Stack<T>, rt: Root, ps: seq<Plain>)
    requires StackOk(pool, s) && Refines(pool, s, ps) && s.layers != [] && CanPop(pool, s, rt)
    ensures Refines(pool, PopAnchor(pool, s, rt), PlainStep(pool, ps, GoBack(rt)))
  {
    hide Refines, StackOk, View, Best, FetchBest, Fetch, SameView;
    BelowShows(pool, s, ps);
    FetchBestRefines(pool, s, ps);
    FetchBestOk(pool, s);
    PopAnchorOk(pool, s, rt);
    var u, v, b := FetchBest(s), PopAnchor(pool, s, rt), Best(s);
    if rt != b {
      FetchRefines(pool, u, b, ps);
      var w := Fetch(pool, u, b);
      PushTop(w.Below(), Layer(Hidden(w.Top().anchors, b), rt));
      NewTop(pool, w, v, ps, Plain(ps[|ps| - 1].roots - iset{b}, Chosen(ps, rt)));
    }
  }

  lemma {:induction false} FlushRefines<T>(pool: Pool<T>, s: Stack<T>, ps: seq<Plain>)
    requires StackOk(pool, s) && Refines(pool, s, ps) && s.layers != [] && KeepsBest(s)
    ensures Refines(pool, Flush(pool, s), PlainStep(pool, ps, FlushTop))
  {
    hide Refines, StackOk, View, Best, Flush;
    BelowShows(pool, s, ps);
    FlushOk(pool, s);
    FlushBestAnchor(pool, s);
    var u, n := Flush(pool, s), |ps|;
    var qs := PlainStep(pool, ps, FlushTop);
    SameLength(pool, s, ps);
    assert Shows(pool, u, qs[n - 1]) && Shows(pool, u.Below(), qs[n - 1]);
    if n > 2 {
      BelowShows(pool, s.Below(), ps[..n - 1]);
      assert ps[..n - 1][..n - 2] == ps[..n - 2];
    }
    Assembled(pool, u, ps[..n - 2], qs[n - 1]);
  }

  lemma SameLength<T>(pool: Pool<T>, s: Stack<T>, ps: seq<Plain>)
    requires Refines(pool, s, ps)
    ensures |ps| == |s.layers| + 1
  {
  }

  lemma Assembled<T>(pool: Pool<T>, u: Stack<T>, rest: seq<Plain>, p: Plain)
    requires |u.layers| == |rest| + 1 && Shows(pool, u, p) && Shows(pool, u.Below(), p)
    requires rest != [] ==> Refines(pool, u.Below().Below(), rest)
    ensures Refines(pool, u, rest + [p, p])
  {
    hide Shows;
    assert (rest + [p, p])[..|rest| + 1] == rest + [p] && (rest + [p])[..|rest|] == rest;
  }

  /** Every operation keeps the invariant and does to the plain sets what it should. */
  lemma {:induction false} StepRefines<T>(pool: Pool<T>, s: Stack<T>, op: Op<T>, ps: seq<Plain>)
    requires StackOk(pool, s) && Refines(pool, s, ps) && Legal(pool, s, op)
    ensures |ps| == |s.layers| + 1
    ensures StackOk(pool, Step(pool, s, op)) && Refines(pool, Step(pool, s, op), PlainStep(pool, ps, op))
  {
    hide StackOk, Refines, View, Best, Fetch, FetchBest, PushAnchor, PopAnchor, Flush;
    SameLength(pool, s, ps);
    match op
    case Read(rt) =>
      FetchOk(pool, s, rt);
      FetchRefines(pool, s, rt, ps);
    case ReadBest =>
      FetchBestOk(pool, s);
      FetchBestRefines(pool, s, ps);
    case Enter(tree) =>
      PushAnchorOk(pool, s, tree);
      EnterRefines(pool, s, tree, ps);
    case GoBack(rt) =>
      PopAnchorOk(pool, s, rt);
      GoBackRefines(pool, s, rt, ps);
    case FlushTop =>
      FlushOk(pool, s);
      FlushRefines(pool, s, ps);
    case NewLayer =>
      NothingAbove(pool, s, NO_ROOT);
      Opened(pool, s, ps);
    case DropLayer =>
      BelowShows(pool, s, ps);
      StackIsPush(s);
      PushOk(pool, s.Below(), s.Top());
  }

  lemma Opened<T>(pool: Pool<T>, s: Stack<T>, ps: seq<Plain>)
    requires StackOk(pool, s) && Refines(pool, s, ps)
    ensures Refines(pool, s.Push(Layer(map[], NO_ROOT)), ps + [ps[|ps| - 1]])
  {
    hide View, Best;
    var u, p := s.Push(Layer(map[], NO_ROOT)), ps[|ps| - 1];
    NothingAbove(pool, s, NO_ROOT);
    PushBest(s, Layer(map[], NO_ROOT));
    PushTop(s, Layer(map[], NO_ROOT));
    SameViewFlip(pool, u, s);
    ShowsSame(pool, s, u, p);
    assert (ps + [p])[..|ps|] == ps;
  }

  lemma SameViewFlip<T>(pool: Pool<T>, s: Stack<T>, u: Stack<T>)
    requires SameView(pool, s, u)
    ensures SameView(pool, u, s)
  {
    hide View;
    forall rt ensures View(pool, u, rt) == View(pool, s, rt) { assert View(pool, s, rt) == View(pool, u, rt); }
  }

  /** All the operations of a run are legal where they happen. */
  ghost predicate Runs<T>(pool: Pool<T>, s: Stack<T>, ops: seq<Op<T>>)
    decreases |ops|
  {
    ops == [] || (Legal(pool, s, ops[0]) && Runs(pool, Step(pool, s, ops[0]), ops[1..]))
  }

  ghost function Run<T>(pool: Pool<T>, s: Stack<T>, ops: seq<Op<T>>): Stack<T>
    requires Runs(pool, s, ops)
    decreases |ops|
  {
    if ops == [] then s else Run(pool, Step(pool, s, ops[0]), ops[1..])
  }

  /** The plain sets a run leaves, from those it started with. */
  ghost function PlainRun<T>(pool: Pool<T>, ps: seq<Plain>, ops: seq<Op<T>>): Option<seq<Plain>>
    decreases |ops|
  {
    if ops == [] then Some(ps)
    else if |ps| == 0 || ((ops[0].Enter? || ops[0].GoBack? || ops[0].FlushTop? || ops[0].DropLayer?) && |ps| == 1) then None
    else PlainRun(pool, PlainStep(pool, ps, ops[0]), ops[1..])
  }

  /** A view over any database shows after every run what the plain sets hold. */
  lemma {:induction false} RunRefines<T>(pool: Pool<T>, s: Stack<T>, ops: seq<Op<T>>, ps: seq<Plain>)
    requires StackOk(pool, s) && Refines(pool, s, ps) && Runs(pool, s, ops)
    ensures StackOk(pool, Run(pool, s, ops))
    ensures PlainRun(pool, ps, ops).Some? && Refines(pool, Run(pool, s, ops), PlainRun(pool, ps, ops).value)
    decreases |ops|
  {
    hide StackOk, Refines, Legal, Step, PlainStep;
    if ops != [] {
      StepRefines(pool, s, ops[0], ps);
      StepLegal(pool, s, ops[0]);
      RunRefines(pool, Step(pool, s, ops[0]), ops[1..], PlainStep(pool, ps, ops[0]));
    }
  }

  lemma StepLegal<T>(pool: Pool<T>, s: Stack<T>, op: Op<T>)
    requires Legal(pool, s, op)
    ensures op.Enter? || op.GoBack? || op.FlushTop? || op.DropLayer? ==> s.layers != []
  {
  }

  /** The whole history of a view opened on a database: it shows the anchors and the best one a plain set would. */
  lemma AnchorsArePlainSets<T>(pool: Pool<T>, store: Store<T>, ops: seq<Op<T>>)
    requires var s := Stack(store, []); StackOk(pool, s) && Runs(pool, s, ops)
    ensures var s := Stack(store, []); var u := Run(pool, s, ops);
      var ps := PlainRun(pool, [Plain((iset rt | Shown(pool, s, rt)), Best(s))], ops);
      && ps.Some? && |ps.value| == |u.layers| + 1
      && (forall rt :: Shown(pool, u, rt) <==> rt in ps.value[|u.layers|].roots)
      && Best(u) == ps.value[|u.layers|].best
      && (forall rt :: Shown(pool, u, rt) ==> pool.root(View(pool, u, rt).value) == rt)
  {
    hide StackOk, View, Best, Runs, Run, PlainRun;
    var s := Stack(store, []);
    var first := [Plain((iset rt | Shown(pool, s, rt)), Best(s))];
    assert Refines(pool, s, first);
    RunRefines(pool, s, ops, first);
    var u := Run(pool, s, ops);
    SameLength(pool, u, PlainRun(pool, first, ops).value);
    forall rt | Shown(pool, u, rt) ensures pool.root(View(pool, u, rt).value) == rt { ViewHasRoot(pool, u, rt); }
  }

  // ---------------------------------------------------------------- the best anchor is an anchor

  /** On every level the best root is an anchor. */
  ghost predicate BestAreAnchors(ps: seq<Plain>) { forall i :: 0 <= i < |ps| ==> ps[i].best in ps[i].roots }

  /** An operation that goes back only to anchors, and none with the null root. */
  ghost predicate Careful<T>(pool: Pool<T>, ps: seq<Plain>, op: Op<T>)
    requires |ps| > 0
  {
    && (op.GoBack? ==> op.rt != NO_ROOT && op.rt in ps[|ps| - 1].roots)
    && (op.Enter? ==> pool.root(op.tree) != NO_ROOT)
  }

  /**
   While going back leads to anchors only, the best root is an anchor on every level,
   and so the assertion in PopAnchor holds whenever it is called.
   */
  lemma {:induction false} PopNeverFails<T>(pool: Pool<T>, s: Stack<T>, op: Op<T>, ps: seq<Plain>)
    requires StackOk(pool, s) && Refines(pool, s, ps) && |ps| > 0 && BestAreAnchors(ps) && Careful(pool, ps, op)
    ensures op.GoBack? && s.layers != [] ==> Legal(pool, s, op)
    ensures Legal(pool, s, op) ==> |ps| == |s.layers| + 1 && BestAreAnchors(PlainStep(pool, ps, op))
  {
    hide StackOk, Refines, View, Best;
    SameLength(pool, s, ps);
    if op.GoBack? && s.layers != [] {
      BelowShows(pool, s, ps);
      assert Shown(pool, s, Best(s));
    }
    if Legal(pool, s, op) { PlainStepSound(pool, ps, op); }
  }

  lemma PlainStepSound<T>(pool: Pool<T>, ps: seq<Plain>, op: Op<T>)
    requires |ps| > 0 && (op.Enter? || op.GoBack? || op.FlushTop? || op.DropLayer? ==> |ps| > 1)
    requires BestAreAnchors(ps) && Careful(pool, ps, op)
    ensures BestAreAnchors(PlainStep(pool, ps, op))
  {
  }
}
