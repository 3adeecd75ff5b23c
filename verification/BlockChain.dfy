/**
 The block index: a tree of blocks with a skip pointer each, ancestor lookup along
 the skip pointers, and the active chain as a vector.
 */
module BlockChain {
  import opened Limbs

  type Uint256 = nat

  // ---------------------------------------------------------------- skip heights

  /** Clear the lowest set bit. */
  function InvertLowestOne(n: nat): nat { if n == 0 then 0 else BitAnd(n, n - 1) }

  lemma {:induction false} AndSelf(k: nat)
    ensures BitAnd(k, k) == k
  {
    if k > 0 { AndSelf(k / 2); }
  }

  lemma {:induction false} LowestOneCleared(n: nat)
    requires n > 0
    ensures InvertLowestOne(n) < n
  {
    if n > 1 {
      if n % 2 == 1 { AndSelf(n / 2); } else { LowestOneCleared(n / 2); assert (n - 1) / 2 == n / 2 - 1; }
    }
  }

  /** The height a block's skip pointer goes back to. */
  function SkipHeight(height: int): (h: nat)
    ensures height > 0 ==> h < height
  {
    if height < 2 then 0
    else if height % 2 == 1 then
      LowestOneCleared(height - 1);
      var once := InvertLowestOne(height - 1);
      assert once > 0 ==> InvertLowestOne(once) < once by { if once > 0 { LowestOneCleared(once); } }
      InvertLowestOne(once) + 1
    else
      LowestOneCleared(height);
      InvertLowestOne(height)
  }

  /** Where a lookup of height `t` goes on from height `h`, all skip pointers being set. */
  function NextHeight(h: nat, t: nat): (n: nat)
    requires t < h
    ensures t <= n < h
  {
    var skip, skipPrev := SkipHeight(h), SkipHeight(h - 1);
    if skip == t || (skip > t && !(skipPrev < skip - 2 && skipPrev >= t)) then skip else h - 1
  }

  /** How many steps a lookup takes from height `h` down to height `t`. */
  function Jumps(h: nat, t: nat): nat
    requires t <= h
  {
    if h == t then 0 else 1 + Jumps(NextHeight(h, t), t)
  }

  // ---------------------------------------------------------------- blocks

  /** A block in the tree; its position there never changes. */
  class BlockIndex {
    const pprev: BlockIndex?
    const nHeight: int
    const hash: Uint256
    var pskip: BlockIndex?

    /** All blocks before this one, from genesis on. */
    ghost const ancestors: seq<BlockIndex>

    ghost predicate WellFormed() {
      && nHeight == |ancestors|
      && pprev == (if nHeight == 0 then null else ancestors[nHeight - 1])
      && forall i :: 0 <= i < |ancestors| ==> Placed(ancestors[i], i)
    }

    ghost predicate Placed(b: BlockIndex, i: nat)
      requires i < |ancestors|
    {
      && b.nHeight == i && b.ancestors == ancestors[..i]
      && b.pprev == (if i == 0 then null else ancestors[i - 1])
    }

    /** The path from genesis to this block. */
    ghost function Path(): seq<BlockIndex> { ancestors + [this] }

    /** The skip pointer is unset, or points at the ancestor at the skip height. */
    ghost predicate SkipOk()
      requires WellFormed()
      reads this
    {
      pskip == null || (nHeight > 0 && pskip == Path()[SkipHeight(nHeight)])
    }

    ghost predicate SkipsOk()
      reads Path()
    {
      WellFormed() && forall i :: 0 <= i < |Path()| ==> Path()[i].WellFormed() && Path()[i].SkipOk()
    }

    /** Every block after genesis has its skip pointer. */
    ghost predicate SkipsSet()
      reads Path()
    {
      forall i :: 0 < i < |Path()| ==> Path()[i].pskip != null
    }

    /** Link a new block to its predecessor. */
    constructor (pprev: BlockIndex?, hash: Uint256)
      requires pprev != null ==> pprev.WellFormed()
      ensures WellFormed() && this.pprev == pprev && this.hash == hash && pskip == null
      ensures nHeight == if pprev == null then 0 else pprev.nHeight + 1
    {
      this.pprev := pprev;
      this.hash := hash;
      this.nHeight := if pprev == null then 0 else pprev.nHeight + 1;
      this.ancestors := if pprev == null then [] else pprev.Path();
      pskip := null;
    }

    /** Where the pointers of a block on this path lead. */
    lemma PointersAt(h: nat)
      requires SkipsOk() && 0 < h <= nHeight
      ensures SkipHeight(h) < h && |Path()| == nHeight + 1
      ensures Path()[h].pprev == Path()[h - 1]
      ensures Path()[h].pskip != null ==> Path()[h].pskip == Path()[SkipHeight(h)]
    {
      PathOf(this, h);
      assert Path()[h].SkipOk();
    }

    /** Look up the ancestor at a height by way of skip pointers. */
    method GetAncestor(height: int) returns (r: BlockIndex?, ghost steps: nat)
      requires SkipsOk()
      ensures 0 <= height <= nHeight ==> r == Path()[height] && r == Walk(this, height)
      ensures !(0 <= height <= nHeight) ==> r == null
      ensures SkipsSet() && 0 <= height <= nHeight ==> steps == Jumps(nHeight, height)
    {
      hide WellFormed, SkipHeight;
      steps := 0;
      if height > nHeight || height < 0 { return null, 0; }
      WalkIsPath(this, height);
      var walk: BlockIndex? := this;
      var heightWalk := nHeight;
      while heightWalk > height && walk != null
        invariant height <= heightWalk <= nHeight && walk == Path()[heightWalk]
        invariant SkipsSet() ==> steps + Jumps(heightWalk, height) == Jumps(nHeight, height)
        decreases heightWalk
      {
        steps := steps + 1;
        PointersAt(heightWalk);
        var heightSkip := SkipHeight(heightWalk);
        var heightSkipPrev := SkipHeight(heightWalk - 1);
        if walk.pskip != null &&
           (heightSkip == height || (heightSkip > height && !(heightSkipPrev < heightSkip - 2 && heightSkipPrev >= height))) {
          walk := walk.pskip;
          heightWalk := heightSkip;
        } else {
          assert walk.pprev != null;
          walk := walk.pprev;
          heightWalk := heightWalk - 1;
        }
      }
      return walk, steps;
    }

    /** Set the skip pointer of a block whose predecessors have theirs. */
    method BuildSkip()
      requires WellFormed() && (if pprev != null then pprev.SkipsOk() else pskip == null)
      modifies this`pskip
      ensures SkipsOk() && (pprev != null ==> pskip != null)
      ensures pprev == null || old(pprev.SkipsSet()) ==> SkipsSet()
    {
      if pprev != null {
        ghost var steps;
        pskip, steps := pprev.GetAncestor(SkipHeight(nHeight));
        PathOf(this, nHeight - 1);
        assert SkipOk();
        forall i | 0 <= i < nHeight ensures Path()[i].WellFormed() && Path()[i].SkipOk() {
          assert Path()[i] == pprev.Path()[i] && Path()[i] != this;
        }
      }
    }
  }

  /** The block reached by following predecessors down to a height. */
  ghost function Walk(b: BlockIndex, h: nat): BlockIndex
    requires b.WellFormed() && h <= b.nHeight
    decreases b.nHeight
  {
    if b.nHeight == h then b
    else
      AncestorWellFormed(b, b.nHeight - 1);
      Walk(b.pprev, h)
  }

  lemma AncestorWellFormed(b: BlockIndex, i: nat)
    requires b.WellFormed() && i < |b.ancestors|
    ensures b.ancestors[i].WellFormed() && b.ancestors[i].nHeight == i && b.ancestors[i].Path() == b.Path()[..i + 1]
  {
    var a := b.ancestors[i];
    assert b.Placed(a, i);
    forall j | 0 <= j < |a.ancestors| ensures a.Placed(a.ancestors[j], j) { assert b.Placed(b.ancestors[j], j); }
  }

  /** Every block on a path is well formed and has the part of the path up to it as its own. */
  lemma PathOf(b: BlockIndex, i: nat)
    requires b.WellFormed() && i <= b.nHeight
    ensures |b.Path()| == b.nHeight + 1 && b.Path()[b.nHeight] == b
    ensures b.Path()[i].WellFormed() && b.Path()[i].nHeight == i && b.Path()[i].Path() == b.Path()[..i + 1]
    ensures b.Path()[i].pprev == if i == 0 then null else b.Path()[i - 1]
  {
    if i < b.nHeight { AncestorWellFormed(b, i); }
  }

  lemma {:induction false} WalkIsPath(b: BlockIndex, h: nat)
    requires b.WellFormed() && h <= b.nHeight
    ensures |b.Path()| == b.nHeight + 1 && Walk(b, h) == b.Path()[h]
    decreases b.nHeight
  {
    if b.nHeight > h {
      AncestorWellFormed(b, b.nHeight - 1);
      WalkIsPath(b.pprev, h);
    }
  }

  // ---------------------------------------------------------------- the active chain

  /** The part of a vector kept when it is resized; new places are null. */
  function Resized(v: seq<BlockIndex?>, n: nat): seq<BlockIndex?> {
    seq(n, i requires 0 <= i < n => if i < |v| then v[i] else null)
  }

  class Chain {
    var vChain: seq<BlockIndex?>
    var lastTip: BlockIndex?

    constructor ()
      ensures Valid() && vChain == []
    {
      vChain, lastTip := [], null;
    }

    /** The vector is the whole path to its last block. */
    ghost predicate Valid()
      reads this
    {
      vChain == [] ||
      (var tip := vChain[|vChain| - 1]; tip != null && tip.WellFormed() && vChain == tip.Path())
    }

    /** Move the tip; entries are rewritten from the top only until one is already right. */
    method SetTip(p: BlockIndex?)
      requires Valid() && (p != null ==> p.WellFormed())
      modifies this
      ensures Valid() && lastTip == p && vChain == if p == null then [] else p.Path()
      ensures Tip() == p
    {
      hide BlockIndex.WellFormed, BlockIndex.Path;
      lastTip := p;
      if p == null { vChain := []; return; }
      ghost var path := p.Path();
      StepBack(p, p.nHeight);
      ghost var base := Resized(vChain, |path|);
      ghost var was := vChain;
      vChain := Resized(vChain, p.nHeight + 1);
      var walk: BlockIndex? := p;
      ghost var left := p.nHeight;
      while walk != null && vChain[walk.nHeight] != walk
        invariant lastTip == p && -1 <= left <= p.nHeight && |vChain| == |path|
        invariant if left == -1 then walk == null else walk == path[left] && walk.nHeight == left
        invariant forall i :: left < i < |path| ==> vChain[i] == path[i]
        invariant forall i :: 0 <= i <= left ==> vChain[i] == base[i]
        decreases left
      {
        StepBack(p, left);
        vChain := vChain[walk.nHeight := walk];
        walk := walk.pprev;
        left := left - 1;
      }
      if left >= 0 { EarlyStop(was, p, left); }
      assert vChain == path;
    }

    /** The block at a height, or null. */
    function At(h: int): BlockIndex?
      reads this
    {
      if h < 0 || h >= |vChain| then null else vChain[h]
    }

    predicate Contains(b: BlockIndex)
      reads this
    {
      At(b.nHeight) == b
    }

    function Height(): int
      reads this
    {
      |vChain| - 1
    }

    /** The highest block of a path that is in the chain as well, or null. */
    method FindFork(p: BlockIndex?) returns (r: BlockIndex?)
      requires Valid() && (p != null ==> p.SkipsOk())
      ensures p == null ==> r == null
      ensures p != null && r != null ==> 0 <= r.nHeight < |vChain| && r.nHeight < |p.Path()| && r == vChain[r.nHeight] == p.Path()[r.nHeight]
      ensures p != null ==> forall h :: 0 <= h < |vChain| && h < |p.Path()| && (r == null || h > r.nHeight) ==> vChain[h] != p.Path()[h]
    {
      hide BlockIndex.WellFormed, BlockIndex.Path;
      if p == null { return null; }
      ghost var path := p.Path();
      StepBack(p, p.nHeight);
      r := p;
      ghost var steps;
      if r.nHeight > Height() { r, steps := r.GetAncestor(Height()); }
      if r != null { StepBack(p, if p.nHeight > Height() then Height() else p.nHeight); }
      while r != null && !Contains(r)
        invariant r != null ==> 0 <= r.nHeight < |path| && r == path[r.nHeight]
        invariant forall h :: r == null || h > r.nHeight ==> !Shared(vChain, path, h)
        decreases if r == null then 0 else r.nHeight + 1
      {
        StepBack(p, r.nHeight);
        r := r.pprev;
      }
      forall h | 0 <= h < |vChain| && h < |path| && (r == null || h > r.nHeight) ensures vChain[h] != path[h] {
        assert !Shared(vChain, path, h);
      }
    }

    /** The last block, or null. */
    function Tip(): (b: BlockIndex?)
      reads this
      ensures b == if vChain == [] then null else vChain[|vChain| - 1]
    {
      At(Height())
    }

    /**
     A locator: blocks from a start block (the tip, if none is given) down to genesis, the
     first eleven steps one block each and then twice as far each time.
     */
    method GetLocator(p: BlockIndex?) returns (vHave: seq<Uint256>)
      requires Valid()
      requires var start := if p == null then Tip() else p; start != null ==> start.SkipsOk()
      ensures var start := if p == null then Tip() else p;
        if start == null then vHave == [] else exists blocks :: IsLocator(start, vHave, blocks)
      ensures p != null ==> vHave != [] && vHave[0] == p.hash
      ensures p == null && vChain != [] ==> vChain[|vChain| - 1] != null && vHave != [] && vHave[0] == vChain[|vChain| - 1].hash
    {
      hide BlockIndex.WellFormed, BlockIndex.SkipsOk, Pow, IsLocator, LocatorSoFar, EntryHeight, StepAt;
      vHave := [];
      ghost var blocks: seq<BlockIndex> := [];
      var start := if p == null then Tip() else p;
      if start == null { return; }
      OnlyWellFormed(start);
      StepBack(start, start.nHeight);
      var nStep := 1;
      var walk := start;
      NoEntries(start.nHeight);
      EmptyLocator(start);
      while true
        invariant start.SkipsOk()
        invariant walk != null && 0 <= walk.nHeight <= start.nHeight
        invariant walk.nHeight == EntryHeight(start.nHeight, |blocks|) && walk == start.Path()[walk.nHeight]
        invariant nStep == StepAt(|blocks|) && |vHave| == |blocks|
        invariant LocatorSoFar(start, vHave, blocks)
        invariant |blocks| > 0 ==> EntryHeight(start.nHeight, |blocks| - 1) > 0
        decreases walk.nHeight
      {
        StepBack(start, walk.nHeight);
        ghost var n := |blocks|;
        ListedBlock(start, vHave, blocks, walk);
        vHave := vHave + [walk.hash];
        blocks := blocks + [walk];
        if walk.nHeight == 0 { break; }
        StepBounds(start.nHeight, n);
        assert start.nHeight < 0x4000_0000 ==> 2 * nStep < 0x8000_0000;
        var height := if walk.nHeight - nStep > 0 then walk.nHeight - nStep else 0;
        if Contains(walk) {
          ContainedPath(vChain, start, walk, height);
          walk := At(height);
        } else {
          OnPath(start, walk);
          ghost var steps;
          walk, steps := walk.GetAncestor(height);
        }
        StepBack(start, height);
        if |vHave| > 10 { nStep := nStep * 2; }
      }
      LocatorDone(start, vHave, blocks);
    }
  }

  // ---------------------------------------------------------------- locators

  /** The step taken from entry `n` of a locator. */
  function StepAt(n: nat): nat { if n <= 10 then 1 else Pow(2, n - 10) }

  /** How far below the start entry `n` of a locator is, if genesis does not come first. */
  function Depth(n: nat): nat { if n <= 11 then n else 9 + Pow(2, n - 10) }

  function EntryHeight(start: int, n: nat): int { if Depth(n) <= start then start - Depth(n) else 0 }

  function Log2(n: nat): nat { if n < 2 then 0 else 1 + Log2(n / 2) }

  /** The logarithm, rounded down. */
  lemma {:induction false} Log2Exactly(n: nat)
    requires n > 0
    ensures Pow(2, Log2(n)) <= n < Pow(2, Log2(n) + 1)
  {
    if n > 1 { Log2Exactly(n / 2); }
  }

  lemma {:induction false} Log2AtLeast(n: nat, k: nat)
    requires n > 0 && Pow(2, k) <= n
    ensures k <= Log2(n)
  {
    if k > 0 { Log2AtLeast(n / 2, k - 1); }
  }

  lemma NoEntries(h: int)
    requires h >= 0
    ensures EntryHeight(h, 0) == h && StepAt(0) == 1
  {
  }

  lemma DepthStep(n: nat)
    ensures Depth(n + 1) == Depth(n) + StepAt(n) && StepAt(n + 1) == (if n + 1 > 10 then 2 * StepAt(n) else StepAt(n)) && StepAt(n) > 0
  {
    assert Pow(2, 1) == 2 && Pow(2, 0) == 1;
    assert n > 10 ==> Pow(2, n + 1 - 10) == 2 * Pow(2, n - 10);
  }

  /** One more entry; and the step does not overflow a 32-bit integer before genesis is reached. */
  lemma StepBounds(start: int, n: nat)
    requires start >= 0 && EntryHeight(start, n) > 0
    ensures StepAt(n) > 0 && StepAt(n + 1) == (if n + 1 > 10 then 2 * StepAt(n) else StepAt(n))
    ensures EntryHeight(start, n + 1) == if EntryHeight(start, n) - StepAt(n) > 0 then EntryHeight(start, n) - StepAt(n) else 0
    ensures start < 0x4000_0000 ==> 2 * StepAt(n) < 0x8000_0000
  {
    DepthStep(n);
    assert Pow(2, 1) == 2;
  }

  /** Blocks on the way from a start block to genesis, each lower than the one before, with their hashes. */
  ghost predicate LocatorSoFar(start: BlockIndex, vHave: seq<Uint256>, blocks: seq<BlockIndex>)
    requires start.nHeight >= 0 && |start.Path()| == start.nHeight + 1
  {
    && |vHave| == |blocks|
    && forall i :: 0 <= i < |blocks| ==>
         && vHave[i] == blocks[i].hash
         && blocks[i].nHeight == EntryHeight(start.nHeight, i) && blocks[i] == start.Path()[blocks[i].nHeight]
         && (i + 1 < |blocks| ==> blocks[i].nHeight > 0)
  }

  lemma EmptyLocator(start: BlockIndex)
    requires start.nHeight >= 0 && |start.Path()| == start.nHeight + 1
    ensures LocatorSoFar(start, [], [])
  {
  }

  lemma ListedBlock(start: BlockIndex, vHave: seq<Uint256>, blocks: seq<BlockIndex>, b: BlockIndex)
    requires start.nHeight >= 0 && |start.Path()| == start.nHeight + 1 && LocatorSoFar(start, vHave, blocks)
    requires b.nHeight == EntryHeight(start.nHeight, |blocks|) && b == start.Path()[b.nHeight]
    requires |blocks| > 0 ==> EntryHeight(start.nHeight, |blocks| - 1) > 0
    ensures LocatorSoFar(start, vHave + [b.hash], blocks + [b])
  {
    hide BlockIndex.Path, Depth;
  }

  /** A complete locator: the scheduled entries of the path from the start block, down to genesis. */
  ghost predicate IsLocator(start: BlockIndex, vHave: seq<Uint256>, blocks: seq<BlockIndex>) {
    && |vHave| == |blocks| > 0 && blocks[0] == start && blocks[|blocks| - 1].nHeight == 0
    && (forall i :: 0 <= i < |blocks| ==> vHave[i] == blocks[i].hash)
    && (forall i :: 0 <= i < |blocks| ==> 0 <= blocks[i].nHeight < |start.Path()| && blocks[i] == start.Path()[blocks[i].nHeight])
    && (forall i :: 0 <= i < |blocks| ==> blocks[i].nHeight == EntryHeight(start.nHeight, i))
    && (forall i, j :: 0 <= i < j < |blocks| ==> blocks[i].nHeight > blocks[j].nHeight)
    && (start.nHeight > 0 ==> |vHave| <= 12 + Log2(start.nHeight))
  }

  /** A locator lists blocks of the start block's own path, down to genesis, and few of them. */
  lemma LocatorFacts(start: BlockIndex, vHave: seq<Uint256>, blocks: seq<BlockIndex>)
    requires IsLocator(start, vHave, blocks)
    ensures vHave[0] == start.hash && blocks[|blocks| - 1].nHeight == 0
    ensures forall i :: 0 <= i < |vHave| ==> blocks[i] in start.Path() && vHave[i] == blocks[i].hash
    ensures start.nHeight > 0 ==> |vHave| <= 12 + Log2(start.nHeight)
  {
    hide BlockIndex.Path, Depth;
  }

  /** From each entry of a locator to the next: one block ten times and once more, then 2, 4, 8 and so on, or down to genesis. */
  lemma LocatorGaps(start: BlockIndex, vHave: seq<Uint256>, blocks: seq<BlockIndex>, i: nat)
    requires IsLocator(start, vHave, blocks) && i + 1 < |blocks|
    ensures blocks[i].nHeight > 0
    ensures var gap := if i <= 10 then 1 else Pow(2, i - 10);
      blocks[i + 1].nHeight == if blocks[i].nHeight > gap then blocks[i].nHeight - gap else 0
  {
    hide Pow, Depth, BlockIndex.Path;
    StepBounds(start.nHeight, i);
  }

  lemma LocatorDone(start: BlockIndex, vHave: seq<Uint256>, blocks: seq<BlockIndex>)
    requires start.nHeight >= 0 && |start.Path()| == start.nHeight + 1 && start.Path()[start.nHeight] == start
    requires LocatorSoFar(start, vHave, blocks) && |blocks| > 0 && blocks[|blocks| - 1].nHeight == 0
    ensures IsLocator(start, vHave, blocks)
    ensures vHave != [] && vHave[0] == start.hash
  {
    hide BlockIndex.Path, Depth, Pow;
    NoEntries(start.nHeight);
    forall i, j | 0 <= i < j < |blocks| ensures blocks[i].nHeight > blocks[j].nHeight { Decreasing(start, vHave, blocks, i, j); }
    if |blocks| > 1 { LocatorLength(start.nHeight, |blocks|); }
  }

  lemma {:induction false} Decreasing(start: BlockIndex, vHave: seq<Uint256>, blocks: seq<BlockIndex>, i: nat, j: nat)
    requires start.nHeight >= 0 && |start.Path()| == start.nHeight + 1
    requires LocatorSoFar(start, vHave, blocks) && i < j < |blocks|
    ensures blocks[i].nHeight > blocks[j].nHeight
    decreases j
  {
    hide BlockIndex.Path, Depth, Pow;
    StepBounds(start.nHeight, j - 1);
    if i < j - 1 { Decreasing(start, vHave, blocks, i, j - 1); }
  }

  lemma LocatorLength(start: nat, n: nat)
    requires n > 1 && EntryHeight(start, n - 2) > 0
    ensures start > 0 && n <= 12 + Log2(start)
  {
    if n > 13 { Log2AtLeast(start, n - 12); }
    else if n == 13 { Log2AtLeast(start, 1); }
  }

  /** In the chain, looking up by index is looking up along the path. */
  lemma ContainedPath(v: seq<BlockIndex?>, start: BlockIndex, b: BlockIndex, h: nat)
    requires v != [] && (var tip := v[|v| - 1]; tip != null && tip.WellFormed() && v == tip.Path())
    requires start.WellFormed() && 0 <= b.nHeight <= start.nHeight && b == start.Path()[b.nHeight]
    requires b.nHeight < |v| && v[b.nHeight] == b && h <= b.nHeight
    ensures v[h] == start.Path()[h] && v[h] != null
  {
    hide BlockIndex.WellFormed, BlockIndex.Path;
    PathOf(start, b.nHeight);
    StepBack(v[|v| - 1], v[|v| - 1].nHeight);
    PathOf(v[|v| - 1], b.nHeight);
    assert start.Path()[..b.nHeight + 1][h] == start.Path()[h];
    assert v[..b.nHeight + 1][h] == v[h];
  }

  lemma OnlyWellFormed(b: BlockIndex)
    requires b.SkipsOk()
    ensures b.WellFormed()
  {
  }

  /** Skip pointers are right along every part of a path. */
  lemma {:induction false} OnPath(start: BlockIndex, b: BlockIndex)
    requires start.SkipsOk() && 0 <= b.nHeight <= start.nHeight && b == start.Path()[b.nHeight]
    ensures b.SkipsOk() && b.Path() == start.Path()[..b.nHeight + 1]
  {
    PathOf(start, b.nHeight);
    forall i | 0 <= i < |b.Path()| ensures b.Path()[i].WellFormed() && b.Path()[i].SkipOk() { assert b.Path()[i] == start.Path()[i]; }
  }

  /** From a block on a path, its predecessor is the block one lower on the path. */
  lemma StepBack(p: BlockIndex, h: int)
    requires p.WellFormed() && (0 <= h <= p.nHeight || h == p.nHeight)
    ensures 0 <= h && |p.Path()| == p.nHeight + 1 && p.Path()[p.nHeight] == p
    ensures p.Path()[h].nHeight == h && p.Path()[h].pprev == if h == 0 then null else p.Path()[h - 1]
    ensures h > 0 ==> p.Path()[h - 1].nHeight == h - 1
  {
    PathOf(p, h);
    if h > 0 { PathOf(p, h - 1); }
  }

  /** A vector and a path have the same block at a height. */
  ghost predicate Shared(v: seq<BlockIndex?>, path: seq<BlockIndex>, h: int) {
    0 <= h < |v| && h < |path| && v[h] == path[h]
  }

  /** A block already at its place in the old vector brings its whole path with it. */
  lemma EarlyStop(was: seq<BlockIndex?>, p: BlockIndex, h: nat)
    requires p.WellFormed() && h <= p.nHeight && Resized(was, p.nHeight + 1)[h] == p.Path()[h]
    requires was == [] || (var tip := was[|was| - 1]; tip != null && tip.WellFormed() && was == tip.Path())
    ensures forall i :: 0 <= i <= h ==> Resized(was, p.nHeight + 1)[i] == p.Path()[i]
  {
    PathOf(p, h);
    var tip := was[|was| - 1];
    PathOf(tip, h);
    assert was[..h + 1] == p.Path()[..h + 1];
  }
}
