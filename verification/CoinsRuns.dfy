/**
 Whole runs of a coins view: a stack of caches, with layers opened, flushed and
 dropped, behaves like a stack of plain maps in which flushing copies the top map
 over the one below.
 */
module CoinsRuns {
  import opened Common
  import opened CoinsLayers
  import opened CoinsInvariant

  /** The live coins and the spent nullifiers, with no caching. */
  datatype Plain = Plain(coins: map<Uint256, Coins>, spent: set<Nullifier>)

  datatype Op =
    | Read(id: Uint256)
    | ReadNullifier(n: Nullifier)
    | BeginModify(id: Uint256)
    | EndModify(id: Uint256, c: Coins)
    | MarkNullifier(n: Nullifier, spent: bool)
    | FlushTop
    | NewLayer
    | DropLayer

  /** Only the top layer is used; a session ends before the layer is flushed, covered or dropped. */
  ghost predicate Legal(s: Stack, op: Op) {
    match op
    case Read(_) => true
    case ReadNullifier(_) => true
    case BeginModify(_) => s.layers != [] && s.Top().session.NoSession?
    case EndModify(id, _) => s.layers != [] && s.Top().session.Modifying? && s.Top().session.id == id && id in s.Top().coins
    case MarkNullifier(_, _) => s.layers != []
    case FlushTop => s.layers != [] && s.Top().session.NoSession?
    case NewLayer => Settled(s)
    case DropLayer => s.layers != [] && s.Top().session.NoSession?
  }

  ghost function Step(s: Stack, op: Op, mem: Coins -> nat): Stack
    requires Legal(s, op)
  {
    match op
    case Read(id) => Fetch(s, id, mem)
    case ReadNullifier(n) => FetchNullifier(s, n)
    case BeginModify(id) => Open(s, id, mem)
    case EndModify(_, c) => Close(s, c, mem)
    case MarkNullifier(n, spent) => SetNullifier(s, n, spent)
    case FlushTop => Flush(s, mem)
    case NewLayer => s.Push(EMPTY_LAYER)
    case DropLayer => s.Below()
  }

  /** The same operation on plain maps; the last map is the top one. */
  ghost function PlainStep(ps: seq<Plain>, op: Op): seq<Plain>
    requires |ps| > 0 && (op.FlushTop? || op.DropLayer? ==> |ps| > 1)
  {
    var top := ps[|ps| - 1];
    var rest := ps[..|ps| - 1];
    match op
    case Read(_) => ps
    case ReadNullifier(_) => ps
    case BeginModify(_) => ps
    case EndModify(id, c) => rest + [top.(coins := if IsPruned(c) then top.coins - {id} else top.coins[id := Cleanup(c)])]
    case MarkNullifier(n, spent) => rest + [top.(spent := if spent then top.spent + {n} else top.spent - {n})]
    case FlushTop => rest[..|rest| - 1] + [top, top]
    case NewLayer => ps + [top]
    case DropLayer => rest
  }

  /** A view shows exactly a plain map. */
  ghost predicate Shows(s: Stack, p: Plain) {
    && (forall id :: Live(CoinsView(s, id)) == if id in p.coins then Some(p.coins[id]) else None)
    && (forall n :: NullifierView(s, n) <==> n in p.spent)
  }

  /** Each layer shows its own plain map. */
  ghost predicate Refines(s: Stack, ps: seq<Plain>)
    decreases |s.layers|
  {
    && |ps| == |s.layers| + 1
    && Shows(s, ps[|ps| - 1])
    && (s.layers != [] ==> Refines(s.Below(), ps[..|ps| - 1]))
  }

  lemma ShowsSame(s: Stack, u: Stack, p: Plain)
    requires Shows(s, p) && SameView(s, u)
    ensures Shows(u, p)
  {
    hide CoinsView, NullifierView, Live;
  }

  lemma {:induction false} FetchRefines(s: Stack, id: Uint256, mem: Coins -> nat, ps: seq<Plain>)
    requires StackOk(s, mem) && Refines(s, ps)
    ensures Refines(Fetch(s, id, mem), ps)
    decreases |s.layers|
  {
    hide Shows, SameView, LayerOk, MemoryOk, Live;
    var u := Fetch(s, id, mem);
    FetchOk(s, id, mem);
    ShowsSame(s, u, ps[|ps| - 1]);
    if s.layers != [] {
      StackIsPush(s);
      PushTop(s.Below(), s.Top());
      FetchRefines(s.Below(), id, mem, ps[..|ps| - 1]);
      FetchBelow(s, id, mem);
    }
  }

  lemma FetchBelow(s: Stack, id: Uint256, mem: Coins -> nat)
    requires s.layers != []
    ensures Fetch(s, id, mem).layers != []
    ensures Fetch(s, id, mem).Below() == if id in s.Top().coins then s.Below() else Fetch(s.Below(), id, mem)
  {
    var below := Fetch(s.Below(), id, mem);
    match CoinsView(s.Below(), id)
    case None => PushTop(below, s.Top());
    case Some(c) => PushTop(below, s.Top().(coins := s.Top().coins[id := Pulled(c)], usage := s.Top().usage + mem(c)));
  }

  lemma {:induction false} FetchNullifierRefines(s: Stack, n: Nullifier, mem: Coins -> nat, ps: seq<Plain>)
    requires StackOk(s, mem) && Refines(s, ps)
    ensures Refines(FetchNullifier(s, n), ps)
    decreases |s.layers|
  {
    hide Shows, SameView, LayerOk, MemoryOk, Live;
    var u := FetchNullifier(s, n);
    FetchNullifierOk(s, n, mem);
    ShowsSame(s, u, ps[|ps| - 1]);
    if s.layers != [] && n !in s.Top().nullifiers {
      PushTop(FetchNullifier(s.Below(), n), s.Top().(nullifiers := s.Top().nullifiers[n := Mark(NullifierView(s.Below(), n), false)]));
      FetchNullifierRefines(s.Below(), n, mem, ps[..|ps| - 1]);
    }
  }

  /** A stack whose parts below the top are as before refines the plain maps with a new top. */
  lemma NewTop(s: Stack, u: Stack, ps: seq<Plain>, p: Plain)
    requires Refines(s, ps) && s.layers != [] && u.layers != [] && u.Below() == s.Below() && Shows(u, p)
    ensures Refines(u, ps[..|ps| - 1] + [p])
  {
    hide Shows;
    assert (ps[..|ps| - 1] + [p])[..|ps| - 1] == ps[..|ps| - 1];
  }

  lemma {:induction false} ModifyRefines(s: Stack, c: Coins, mem: Coins -> nat, ps: seq<Plain>)
    requires StackOk(s, mem) && Refines(s, ps) && s.layers != [] && s.Top().session.Modifying? && s.Top().session.id in s.Top().coins
    ensures Refines(Close(s, c, mem), PlainStep(ps, EndModify(s.Top().session.id, c)))
  {
    hide CoinsView, NullifierView, LayerOk, MemoryOk, Refines, StackOk, Close;
    var u := Close(s, c, mem);
    var id := s.Top().session.id;
    CloseOk(s, c, mem);
    CleanupPruned(c);
    RefinesTop(s, ps);
    var top := ps[|ps| - 1];
    NewTop(s, u, ps, top.(coins := if IsPruned(c) then top.coins - {id} else top.coins[id := Cleanup(c)]));
  }

  lemma RefinesTop(s: Stack, ps: seq<Plain>)
    requires Refines(s, ps)
    ensures |ps| == |s.layers| + 1 && Shows(s, ps[|ps| - 1])
  {
  }

  lemma OpenRefines(s: Stack, id: Uint256, mem: Coins -> nat, ps: seq<Plain>)
    requires StackOk(s, mem) && Refines(s, ps) && s.layers != [] && s.Top().session.NoSession?
    ensures Refines(Open(s, id, mem), ps)
  {
    hide Shows, SameView, LayerOk, MemoryOk, Live, CoinsView;
    var u := Open(s, id, mem);
    OpenOk(s, id, mem);
    ShowsSame(s, u, ps[|ps| - 1]);
    FetchRefines(s.Below(), id, mem, ps[..|ps| - 1]);
    PushTop(if id in s.Top().coins then s.Below() else Fetch(s.Below(), id, mem), u.Top());
    StackIsPush(u);
  }

  lemma MarkRefines(s: Stack, n: Nullifier, spent: bool, mem: Coins -> nat, ps: seq<Plain>)
    requires StackOk(s, mem) && Refines(s, ps) && s.layers != []
    ensures Refines(SetNullifier(s, n, spent), PlainStep(ps, MarkNullifier(n, spent)))
  {
    hide CoinsView, NullifierView, LayerOk, MemoryOk, Refines, StackOk, SetNullifier, Live;
    var u := SetNullifier(s, n, spent);
    SetNullifierOk(s, n, spent, mem);
    RefinesTop(s, ps);
    var top := ps[|ps| - 1];
    NewTop(s, u, ps, top.(spent := if spent then top.spent + {n} else top.spent - {n}));
  }

  lemma FlushRefines(s: Stack, mem: Coins -> nat, ps: seq<Plain>)
    requires StackOk(s, mem) && Refines(s, ps) && s.layers != [] && s.Top().session.NoSession?
    ensures Refines(Flush(s, mem), PlainStep(ps, FlushTop))
  {
    hide Shows, SameView, LayerOk, MemoryOk, Live, CoinsView, Flush, StackOk;
    var u := Flush(s, mem);
    FlushOk(s, mem);
    var top := ps[|ps| - 1];
    ShowsSame(s, u, top);
    ShowsSame(s, u.Below(), top);
    var qs := PlainStep(ps, FlushTop);
    var rest := ps[..|ps| - 1];
    assert qs[..|qs| - 1] == rest[..|rest| - 1] + [top];
    if |s.layers| > 1 {
      assert (rest[..|rest| - 1] + [top])[..|rest| - 1] == rest[..|rest| - 1];
    }
  }

  lemma PushRefines(s: Stack, ps: seq<Plain>, mem: Coins -> nat)
    requires StackOk(s, mem) && Refines(s, ps) && Settled(s)
    ensures Refines(s.Push(EMPTY_LAYER), PlainStep(ps, NewLayer)) && StackOk(s.Push(EMPTY_LAYER), mem)
  {
    hide Live;
    var u := s.Push(EMPTY_LAYER);
    PushTop(s, EMPTY_LAYER);
    assert (ps + [ps[|ps| - 1]])[..|ps|] == ps;
  }

  /** Every operation on a stack of caches is the same operation on plain maps. */
  lemma StepRefines(s: Stack, op: Op, mem: Coins -> nat, ps: seq<Plain>)
    requires StackOk(s, mem) && Refines(s, ps) && Legal(s, op)
    ensures StackOk(Step(s, op, mem), mem) && Refines(Step(s, op, mem), PlainStep(ps, op))
  {
    hide Shows, LayerOk, MemoryOk, Live, CoinsView, NullifierView, Flush, Close, Open, Fetch, FetchNullifier, SetNullifier, SameView;
    match op
    case Read(id) => FetchOk(s, id, mem); FetchRefines(s, id, mem, ps);
    case ReadNullifier(n) => FetchNullifierOk(s, n, mem); FetchNullifierRefines(s, n, mem, ps);
    case BeginModify(id) => OpenOk(s, id, mem); OpenRefines(s, id, mem, ps);
    case EndModify(_, c) => CloseOk(s, c, mem); ModifyRefines(s, c, mem, ps);
    case MarkNullifier(n, spent) => SetNullifierOk(s, n, spent, mem); MarkRefines(s, n, spent, mem, ps);
    case FlushTop => FlushOk(s, mem); FlushRefines(s, mem, ps);
    case NewLayer => PushRefines(s, ps, mem);
    case DropLayer =>
  }

  ghost predicate LegalRun(s: Stack, ops: seq<Op>, mem: Coins -> nat)
    decreases |ops|
  {
    ops == [] || (Legal(s, ops[0]) && LegalRun(Step(s, ops[0], mem), ops[1..], mem))
  }

  ghost function Run(s: Stack, ops: seq<Op>, mem: Coins -> nat): Stack
    requires LegalRun(s, ops, mem)
    decreases |ops|
  {
    if ops == [] then s else Run(Step(s, ops[0], mem), ops[1..], mem)
  }

  ghost predicate PlainDefined(ps: seq<Plain>, ops: seq<Op>)
    decreases |ops|
  {
    && |ps| > 0
    && (ops == [] ||
        ((ops[0].FlushTop? || ops[0].DropLayer? ==> |ps| > 1) && PlainDefined(PlainStep(ps, ops[0]), ops[1..])))
  }

  ghost function PlainRun(ps: seq<Plain>, ops: seq<Op>): seq<Plain>
    requires PlainDefined(ps, ops)
    decreases |ops|
  {
    if ops == [] then ps else PlainRun(PlainStep(ps, ops[0]), ops[1..])
  }

  lemma {:induction false} RunRefines(s: Stack, ops: seq<Op>, mem: Coins -> nat, ps: seq<Plain>)
    requires StackOk(s, mem) && Refines(s, ps) && LegalRun(s, ops, mem)
    ensures PlainDefined(ps, ops)
    ensures StackOk(Run(s, ops, mem), mem) && Refines(Run(s, ops, mem), PlainRun(ps, ops))
    decreases |ops|
  {
    hide Shows, StackOk, Step, PlainStep;
    RefinesTop(s, ps);
    if ops != [] {
      StepRefines(s, ops[0], mem, ps);
      RunRefines(Step(s, ops[0], mem), ops[1..], mem, PlainStep(ps, ops[0]));
    }
  }

  /** What a database shows. */
  ghost function PlainOf(store: Store): Plain {
    Plain(map id | id in store.coins && !IsPruned(store.coins[id]) :: store.coins[id], store.nullifiers)
  }

  /**
   Caching is invisible: after any legal run from a database, the top view shows exactly
   the plain map that the same operations make from what the database showed.
   */
  lemma CachesRefinePlainMaps(store: Store, ops: seq<Op>, mem: Coins -> nat)
    requires LegalRun(Stack(store, []), ops, mem)
    ensures PlainDefined([PlainOf(store)], ops)
    ensures var s := Run(Stack(store, []), ops, mem); var ps := PlainRun([PlainOf(store)], ops);
      && |ps| == |s.layers| + 1
      && (forall id :: Live(CoinsView(s, id)) == if id in ps[|ps| - 1].coins then Some(ps[|ps| - 1].coins[id]) else None)
      && (forall n :: NullifierView(s, n) <==> n in ps[|ps| - 1].spent)
      && (s.layers != [] && s.Top().session.NoSession? ==> s.Top().usage == Memory(s.Top().coins, mem))
  {
    var s0 := Stack(store, []);
    assert Shows(s0, PlainOf(store));
    RunRefines(s0, ops, mem, [PlainOf(store)]);
    RefinesTop(Run(s0, ops, mem), PlainRun([PlainOf(store)], ops));
  }
}
