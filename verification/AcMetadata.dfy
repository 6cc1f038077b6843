// Placing the block transforms of a DC group as they are decoded:
// ModularFrameDecoder::DecodeAcMetadata in libjxl/lib/jxl/dec_modular.cc.
module AcMetadata {
  import opened AcTiling
  import opened Bits
  import opened ZigZag
  import C = CoeffOrders

  const GROUP_DIM_IN_BLOCKS: nat := 32
  const SHARP_ENTRIES: nat := 8

  datatype Rect = Rect(x0: nat, y0: nat, xsize: nat, ysize: nat) {
    predicate Has(c: Cell) { x0 <= c.x < x0 + xsize && y0 <= c.y < y0 + ysize }
    predicate On(d: Dims) { x0 + xsize <= d.xsize && y0 + ysize <= d.ysize }

    // The cells that the loops visit before row iy, column ix.
    predicate Visited(c: Cell, iy: nat, ix: nat) {
      Has(c) && (c.y < y0 + iy || (c.y == y0 + iy && c.x < x0 + ix))
    }
  }

  // What a decoder has to work on: the map it starts from, the rectangle, and
  // the strategies in the order of the stream.
  datatype Task = Task(was: seq<int>, d: Dims, r: Rect, is444: bool, tokens: seq<int>)

  // Raster order.
  predicate Before(c: Cell, e: Cell) {
    c.y < e.y || (c.y == e.y && c.x < e.x)
  }

  // It is the order of the buffer.
  lemma BeforeInBuffer(stride: nat, c: Cell, e: Cell)
    requires c.x < stride && e.x < stride
    ensures Before(c, e) <==> Flat(stride, c) < Flat(stride, e)
  {
    RowsOrder(c.x, c.y, e.x, e.y, stride);
  }

  // Neither taken at the start nor covered since.
  ghost predicate Open(t: Task, placed: seq<Placement>, c: Cell) {
    Get(t.was, t.d.stride, c) == INVALID && forall k: nat :: !Owns(placed, k, c)
  }

  function NextGroup(x: nat): nat {
    (x / GROUP_DIM_IN_BLOCKS + 1) * GROUP_DIM_IN_BLOCKS
  }

  // A transform stays in its AC group and in the rectangle; with chroma
  // subsampling it covers one block only.
  predicate Allowed(t: Task, p: Placement)
    requires p.Ok()
  {
    && (CoveredX(p.strategy) > 1 || CoveredY(p.strategy) > 1 ==> t.is444)
    && p.x + CoveredX(p.strategy) <= NextGroup(p.x) && p.x + CoveredX(p.strategy) <= t.r.x0 + t.r.xsize
    && p.y + CoveredY(p.strategy) <= NextGroup(p.y) && p.y + CoveredY(p.strategy) <= t.r.y0 + t.r.ysize
  }

  // The group that holds a pixel: 256 by 256 pixels. A block has 8 by 8.
  function PixelGroup(c: Cell): Cell {
    Cell(c.x * 8 / 256, c.y * 8 / 256)
  }

  // A transform ends before the next group begins exactly if all its blocks are
  // in one group.
  lemma StaysInGroup(p: Placement)
    requires p.Ok()
    ensures p.x + CoveredX(p.strategy) <= NextGroup(p.x) && p.y + CoveredY(p.strategy) <= NextGroup(p.y)
       <==> forall c: Cell | p.Covers(c) :: PixelGroup(c) == PixelGroup(p.First())
  {
    CoversSomething(p.strategy);
    var last := Cell(p.x + CoveredX(p.strategy) - 1, p.y + CoveredY(p.strategy) - 1);
    assert p.Covers(last);
    hide CoveredX, CoveredY, Placement.Ok;
    forall c: Cell | p.Covers(c)
      ensures p.x <= c.x <= last.x && p.y <= c.y <= last.y
      ensures PixelGroup(c).x == p.x / 32 <==> c.x < NextGroup(p.x)
      ensures PixelGroup(c).y == p.y / 32 <==> c.y < NextGroup(p.y)
    {
    }
  }

  // Where a transform may lie: all its blocks are in one group and none is past
  // the rectangle, and only without subsampling it has more than one.
  lemma AllowedMeans(t: Task, p: Placement)
    requires p.Ok()
    ensures Allowed(t, p)
       <==> && (forall c: Cell | p.Covers(c) :: PixelGroup(c) == PixelGroup(p.First()))
            && (forall c: Cell | p.Covers(c) :: c.x < t.r.x0 + t.r.xsize && c.y < t.r.y0 + t.r.ysize)
            && (t.is444 || forall c: Cell | p.Covers(c) :: c == p.First())
  {
    StaysInGroup(p);
    CoversSomething(p.strategy);
    hide CoveredX, CoveredY, Placement.Ok, PixelGroup, NextGroup;
    assert p.Covers(Cell(p.x + CoveredX(p.strategy) - 1, p.y + CoveredY(p.strategy) - 1));
  }

  // The next transform begins at the first open block and covers open blocks.
  ghost predicate Next(t: Task, placed: seq<Placement>, p: Placement) {
    && p.Ok() && Allowed(t, p) && IsFirstOpen(t, placed, p.First())
    && forall c: Cell | p.Covers(c) :: Open(t, placed, c)
  }

  ghost predicate IsFirstOpen(t: Task, placed: seq<Placement>, first: Cell) {
    && t.r.Has(first) && Open(t, placed, first)
    && forall c: Cell | t.r.Has(c) && Before(c, first) :: !Open(t, placed, c)
  }

  ghost predicate NextByToken(t: Task, placed: seq<Placement>, k: nat)
    requires k < |placed|
  {
    k < |t.tokens| && t.tokens[k] == placed[k].strategy && Next(t, placed[..k], placed[k])
  }

  // The first tokens put the transforms there.
  ghost predicate Decodes(t: Task, placed: seq<Placement>) {
    forall k: nat | k < |placed| :: NextByToken(t, placed, k)
  }

  // The tokens fill the rectangle.
  ghost predicate Fills(t: Task, placed: seq<Placement>) {
    Decodes(t, placed) && forall c: Cell | t.r.Has(c) :: !Open(t, placed, c)
  }

  // ---------------------------------------------------------------------
  // The tokens leave no choice.

  lemma SameFirst(t: Task, placed: seq<Placement>, c: Cell, e: Cell)
    requires IsFirstOpen(t, placed, c) && IsFirstOpen(t, placed, e)
    ensures c == e
  {
    assert c == e || Before(c, e) || Before(e, c);
    hide Open;
  }

  // Whatever fills the rectangle begins with what has been placed so far.
  lemma {:induction false} Agree(t: Task, placed: seq<Placement>, all: seq<Placement>, n: nat)
    requires Decodes(t, placed) && Fills(t, all) && n <= |placed|
    ensures n <= |all| && all[..n] == placed[..n]
  {
    hide Open, Next;
    if n > 0 {
      Agree(t, placed, all, n - 1);
      var k: nat := n - 1;
      assert NextByToken(t, placed, k);
      FirstIsOpen(t, placed[..k], placed[k]);
      assert all[..|all|] == all;
      assert NextByToken(t, all, k);
      FirstIsOpen(t, all[..k], all[k]);
      SameFirst(t, placed[..k], placed[k].First(), all[k].First());
      assert all[..n] == all[..k] + [all[k]] && placed[..n] == placed[..k] + [placed[k]];
    }
  }

  lemma FirstIsOpen(t: Task, placed: seq<Placement>, p: Placement)
    requires Next(t, placed, p)
    ensures IsFirstOpen(t, placed, p.First())
  {
  }

  // Two ways to fill the rectangle are the same.
  lemma FillsOnce(t: Task, a: seq<Placement>, b: seq<Placement>)
    requires Fills(t, a) && Fills(t, b)
    ensures a == b
  {
    Agree(t, a, b, |a|);
    Agree(t, b, a, |b|);
    assert a[..|a|] == a && b[..|b|] == b;
  }

  // At the first open block, the next token has to fit.
  lemma Stuck(t: Task, placed: seq<Placement>, c: Cell, all: seq<Placement>)
    requires Decodes(t, placed) && IsFirstOpen(t, placed, c) && Fills(t, all)
    ensures |placed| < |t.tokens| && 0 <= t.tokens[|placed|] < C.NUM_STRATEGIES
    ensures Next(t, placed, Placement(c.x, c.y, t.tokens[|placed|]))
  {
    hide Open;
    var n := |placed|;
    Agree(t, placed, all, n);
    assert placed[..n] == placed;
    assert all[..|all|] == all;
    assert NextByToken(t, all, n);
    SameFirst(t, placed, c, all[n].First());
  }

  // ---------------------------------------------------------------------
  // The map.

  // A cell bears the mark of its transform, or what it bore at the start.
  ghost predicate CellMarked(now: seq<int>, t: Task, placed: seq<Placement>, c: Cell) {
    && (Open(t, placed, c) <==> Get(now, t.d.stride, c) == INVALID)
    && (forall k: nat | Owns(placed, k, c) :: Get(now, t.d.stride, c) == placed[k].Mark(c))
    && ((forall k: nat :: !Owns(placed, k, c)) ==> Get(now, t.d.stride, c) == Get(t.was, t.d.stride, c))
  }

  ghost predicate Marked(now: seq<int>, t: Task, placed: seq<Placement>) {
    Sized(now, t.d) && forall c: Cell | t.d.Has(c) :: CellMarked(now, t, placed, c)
  }

  lemma FreeIsOpen(now: seq<int>, t: Task, placed: seq<Placement>, p: Placement)
    requires Marked(now, t, placed) && p.Ok() && t.d.Fits(p)
    ensures Free(now, t.d, p) <==> forall c: Cell | p.Covers(c) :: Open(t, placed, c)
  {
    hide Get, Open, CoveredX, CoveredY;
    forall c: Cell | p.Covers(c)
      ensures Open(t, placed, c) <==> Get(now, t.d.stride, c) == INVALID
      ensures Passed(p, CoveredY(p.strategy), 0, c)
    {
      CoveredOnCanvas(t.d, p, c);
      assert CellMarked(now, t, placed, c);
    }
  }

  lemma OwnsMore(placed: seq<Placement>, p: Placement, k: nat, c: Cell)
    requires p.Ok()
    ensures Owns(placed + [p], k, c) <==> Owns(placed, k, c) || (k == |placed| && p.Covers(c))
  {
  }

  lemma MarkedStep(now: seq<int>, next: seq<int>, t: Task, placed: seq<Placement>, p: Placement)
    requires Marked(now, t, placed) && Sets(next, now, t.d, p)
    requires forall c: Cell | p.Covers(c) :: Open(t, placed, c)
    ensures Marked(next, t, placed + [p])
  {
    hide Get, CoveredX, CoveredY, Free, Owns;
    assert Sized(next, t.d);
    forall c: Cell | t.d.Has(c)
      ensures CellMarked(next, t, placed + [p], c)
    {
      SetCell(next, now, t.d, p, c);
      assert CellMarked(now, t, placed, c);
      MarkIsValid(p, c);
      forall k: nat
        ensures Owns(placed + [p], k, c) <==> Owns(placed, k, c) || (k == |placed| && p.Covers(c))
        ensures Owns(placed, k, c) ==> k < |placed|
      {
        OwnsMore(placed, p, k, c);
        OwnsIndex(placed, k, c);
      }
      if p.Covers(c) {
        assert Owns(placed + [p], |placed|, c);
      }
      hide Places;
    }
  }

  lemma OwnsIndex(placed: seq<Placement>, k: nat, c: Cell)
    ensures Owns(placed, k, c) ==> k < |placed|
  {
  }

  lemma DecodesMore(t: Task, placed: seq<Placement>, p: Placement)
    requires Decodes(t, placed) && |placed| < |t.tokens| && t.tokens[|placed|] == p.strategy && Next(t, placed, p)
    ensures Decodes(t, placed + [p])
  {
    hide Next;
    var more := placed + [p];
    forall k: nat | k < |more|
      ensures NextByToken(t, more, k)
    {
      if k < |placed| {
        assert NextByToken(t, placed, k) && more[..k] == placed[..k];
      } else {
        assert more[..k] == placed;
      }
    }
  }

  // ---------------------------------------------------------------------
  // The decoder's loops.

  // Before row iy, column ix: all blocks visited are taken.
  ghost predicate State(now: seq<int>, t: Task, placed: seq<Placement>, iy: nat, ix: nat) {
    && Decodes(t, placed) && Marked(now, t, placed)
    && forall c: Cell | t.r.Visited(c, iy, ix) :: !Open(t, placed, c)
  }

  predicate IsSharp(sharpness: int) { 0 <= sharpness < SHARP_ENTRIES }

  // Sharpness is a number of three bits.
  lemma SharpHasThreeBits(sharpness: nat)
    ensures IsSharp(sharpness) <==> LowBits(sharpness, 3) == sharpness
  {
    ShiftMask(sharpness, 3);
    assert Pow2(2) == 4;
    if sharpness < Pow2(3) {
      ShiftMaskUnique(0, sharpness, 3);
      assert Shl(0, 3) == 0;
    }
  }

  predicate SharpRows(sharpness: seq<seq<int>>, r: Rect) {
    |sharpness| == r.ysize && forall iy: nat | iy < |sharpness| :: |sharpness[iy]| == r.xsize
  }

  predicate AllSharp(sharpness: seq<seq<int>>, r: Rect)
    requires SharpRows(sharpness, r)
  {
    forall iy: nat, ix: nat | iy < r.ysize && ix < r.xsize :: IsSharp(sharpness[iy][ix])
  }

  ghost predicate Uses(placed: seq<Placement>, strategy: nat) {
    exists k: nat :: k < |placed| && placed[k].strategy == strategy
  }

  ghost predicate UsedIs(used: nat, usedAcs: nat, placed: seq<Placement>) {
    forall s: nat :: Bit(used, s) <==> Bit(usedAcs, s) || Uses(placed, s)
  }

  lemma UsedStep(used: nat, usedAcs: nat, placed: seq<Placement>, p: Placement)
    requires UsedIs(used, usedAcs, placed)
    ensures UsedIs(Or(used, Pow2(p.strategy)), usedAcs, placed + [p])
  {
    hide Bit, Or, Pow2;
    forall s: nat
      ensures Bit(Or(used, Pow2(p.strategy)), s) <==> Bit(usedAcs, s) || Uses(placed + [p], s)
    {
      BitSet(used, p.strategy, s);
      if Uses(placed, s) {
        var k: nat :| k < |placed| && placed[k].strategy == s;
        assert (placed + [p])[k].strategy == s;
      }
      if s == p.strategy {
        assert (placed + [p])[|placed|].strategy == s;
      }
    }
  }

  lemma Begins(t: Task, usedAcs: nat)
    requires Sized(t.was, t.d)
    ensures State(t.was, t, [], 0, 0) && UsedIs(usedAcs, usedAcs, [])
  {
  }

  // At row iy, column ix: the block is taken, or it is the first open one.
  lemma AtBlock(now: seq<int>, t: Task, placed: seq<Placement>, iy: nat, ix: nat)
    requires State(now, t, placed, iy, ix) && iy < t.r.ysize && ix < t.r.xsize && t.r.On(t.d)
    ensures var c := Cell(t.r.x0 + ix, t.r.y0 + iy);
            && t.d.Has(c)
            && (if Get(now, t.d.stride, c) != INVALID then State(now, t, placed, iy, ix + 1)
                else IsFirstOpen(t, placed, c))
  {
    hide Get, Open, Decodes;
    var c := Cell(t.r.x0 + ix, t.r.y0 + iy);
    assert CellMarked(now, t, placed, c);
    assert forall e: Cell | t.r.Visited(e, iy, ix + 1) :: e == c || t.r.Visited(e, iy, ix);
    assert forall e: Cell | t.r.Has(e) && Before(e, c) :: t.r.Visited(e, iy, ix);
  }

  // After a transform is set at the first open block.
  lemma AfterSet(now: seq<int>, next: seq<int>, t: Task, placed: seq<Placement>, p: Placement, iy: nat, ix: nat)
    requires State(now, t, placed, iy, ix) && iy < t.r.ysize && ix < t.r.xsize
    requires p.x == t.r.x0 + ix && p.y == t.r.y0 + iy && |placed| < |t.tokens| && t.tokens[|placed|] == p.strategy
    requires Next(t, placed, p) && Sets(next, now, t.d, p)
    ensures State(next, t, placed + [p], iy, ix + 1)
  {
    MarkedStep(now, next, t, placed, p);
    DecodesMore(t, placed, p);
    CoversSomething(p.strategy);
    hide Get, Marked, Decodes, Next, Sets;
    forall c: Cell | t.r.Visited(c, iy, ix + 1)
      ensures !Open(t, placed + [p], c)
    {
      if c == p.First() {
        assert Owns(placed + [p], |placed|, c);
      } else {
        assert t.r.Visited(c, iy, ix);
        OpenShrinks(t, placed, p, c);
      }
    }
  }

  lemma OpenShrinks(t: Task, placed: seq<Placement>, p: Placement, c: Cell)
    requires p.Ok()
    ensures Open(t, placed + [p], c) ==> Open(t, placed, c)
  {
    if Open(t, placed + [p], c) {
      forall k: nat
        ensures !Owns(placed, k, c)
      {
        OwnsMore(placed, p, k, c);
      }
    }
  }

  // The transform at an open block, if the stream allows it.
  method PlaceNext(image: AcStrategyImage, ghost t: Task, r: Rect, is444: bool, tokens: seq<int>, x: nat, y: nat,
                   num: nat, usedAcs: nat, ghost placed: seq<Placement>, ghost iy: nat, ghost ix: nat)
    returns (ok: bool, used: nat)
    requires image.Valid() && t == Task(t.was, image.dims, r, is444, tokens) && r.On(image.dims)
    requires State(image.row[..], t, placed, iy, ix) && iy < r.ysize && ix < r.xsize
    requires x == r.x0 + ix && y == r.y0 + iy && num == |placed| && IsFirstOpen(t, placed, Cell(x, y))
    modifies image.row
    ensures image.Valid()
    ensures ok <==> (num < |tokens| && 0 <= tokens[num] < C.NUM_STRATEGIES
                     && Next(t, placed, Placement(x, y, tokens[num])))
    ensures ok ==> State(image.row[..], t, placed + [Placement(x, y, tokens[num])], iy, ix + 1)
    ensures ok ==> used == Or(usedAcs, Pow2(tokens[num]))
  {
    hide State, Open, CoveredX, CoveredY, Free, Places, Get, Sized, Or, Pow2;
    used := usedAcs;
    if num >= |tokens| {
      return false, used;
    }
    if !(0 <= tokens[num] < C.NUM_STRATEGIES) {
      return false, used;
    }
    var strategy := tokens[num];
    ghost var p, now := Placement(x, y, strategy), image.row[..];
    used := Or(used, Pow2(strategy));
    if (CoveredX(strategy) > 1 || CoveredY(strategy) > 1) && !is444 {
      return false, used;
    }
    var nextX, nextY := x + CoveredX(strategy), y + CoveredY(strategy);
    if nextX > NextGroup(x) || nextX > r.x0 + r.xsize {
      return false, used;
    }
    if nextY > NextGroup(y) || nextY > r.y0 + r.ysize {
      return false, used;
    }
    StateIsMarked(now, t, placed, iy, ix);
    FreeIsOpen(now, t, placed, p);
    ok := image.SetNoBoundsCheck(x, y, strategy, true);
    if ok {
      AfterSet(now, image.row[..], t, placed, p, iy, ix);
    }
  }

  lemma StateIsMarked(now: seq<int>, t: Task, placed: seq<Placement>, iy: nat, ix: nat)
    requires State(now, t, placed, iy, ix)
    ensures Marked(now, t, placed) && Decodes(t, placed)
  {
  }

  lemma NoWay(now: seq<int>, t: Task, placed: seq<Placement>, iy: nat, ix: nat, c: Cell)
    requires State(now, t, placed, iy, ix) && IsFirstOpen(t, placed, c)
    requires !(|placed| < |t.tokens| && 0 <= t.tokens[|placed|] < C.NUM_STRATEGIES
               && Next(t, placed, Placement(c.x, c.y, t.tokens[|placed|])))
    ensures forall all :: !Fills(t, all)
  {
    hide Next, Fills, IsFirstOpen, Marked;
    forall all
      ensures !Fills(t, all)
    {
      if Fills(t, all) {
        Stuck(t, placed, c, all);
      }
    }
  }

  // The strategies of a rectangle. Succeeds exactly when the sharpness is in
  // range and the tokens fill the rectangle; then each block of it is covered by
  // one transform, or was taken before, and the strategies used are marked.
  method DecodeStrategies(image: AcStrategyImage, r: Rect, is444: bool, tokens: seq<int>, sharpness: seq<seq<int>>,
                          usedAcs: nat)
    returns (ok: bool, used: nat, ghost placed: seq<Placement>)
    requires image.Valid() && r.On(image.dims) && SharpRows(sharpness, r)
    modifies image.row
    ensures image.Valid()
    ensures var t := Task(old(image.row[..]), image.dims, r, is444, tokens);
            && (ok <==> AllSharp(sharpness, r) && exists all :: Fills(t, all))
            && (ok ==> Fills(t, placed) && Marked(image.row[..], t, placed))
            && (ok ==> UsedIs(used, usedAcs, placed))
  {
    hide State, Fills, Marked, UsedIs, Next, IsFirstOpen, Get;
    ghost var t := Task(image.row[..], image.dims, r, is444, tokens);
    Begins(t, usedAcs);
    placed, used := [], usedAcs;
    var num := 0;
    for iy: nat := 0 to r.ysize
      invariant image.Valid() && State(image.row[..], t, placed, iy, 0) && UsedIs(used, usedAcs, placed)
                && num == |placed|
      invariant forall y: nat, x: nat | y < iy && x < r.xsize :: IsSharp(sharpness[y][x])
    {
      for ix: nat := 0 to r.xsize
        invariant image.Valid() && State(image.row[..], t, placed, iy, ix) && UsedIs(used, usedAcs, placed)
        invariant num == |placed|
        invariant forall y: nat, x: nat | y < iy && x < r.xsize :: IsSharp(sharpness[y][x])
        invariant forall x: nat | x < ix :: IsSharp(sharpness[iy][x])
      {
        if !IsSharp(sharpness[iy][ix]) {
          ok := false;
          return;
        }
        AtBlock(image.row[..], t, placed, iy, ix);
        if image.IsTaken(r.x0 + ix, r.y0 + iy) {
          continue;
        }
        ghost var now := image.row[..];
        var used';
        ok, used' := PlaceNext(image, t, r, is444, tokens, r.x0 + ix, r.y0 + iy, num, used, placed, iy, ix);
        if !ok {
          NoWay(now, t, placed, iy, ix, Cell(r.x0 + ix, r.y0 + iy));
          return;
        }
        ghost var p := Placement(r.x0 + ix, r.y0 + iy, tokens[num]);
        UsedStep(used, usedAcs, placed, p);
        placed, used, num := placed + [p], used', num + 1;
      }
      RowDone(image.row[..], t, placed, iy);
    }
    AllDone(image.row[..], t, placed);
    ok := true;
  }

  lemma RowDone(now: seq<int>, t: Task, placed: seq<Placement>, iy: nat)
    requires State(now, t, placed, iy, t.r.xsize)
    ensures State(now, t, placed, iy + 1, 0)
  {
    hide Open, Decodes, Marked;
    assert forall c: Cell | t.r.Visited(c, iy + 1, 0) :: t.r.Visited(c, iy, t.r.xsize);
  }

  lemma AllDone(now: seq<int>, t: Task, placed: seq<Placement>)
    requires State(now, t, placed, t.r.ysize, 0)
    ensures Fills(t, placed) && Marked(now, t, placed)
  {
    hide Open, Decodes, Marked;
    assert forall c: Cell | t.r.Has(c) :: t.r.Visited(c, t.r.ysize, 0);
  }

  // From a map without transforms: the rectangle is tiled without gaps, and all
  // transforms lie in it.
  lemma FilledIsTiled(now: seq<int>, t: Task, placed: seq<Placement>)
    requires AllInvalid(t.was, t.d) && t.r.On(t.d) && Fills(t, placed) && Marked(now, t, placed)
    ensures Tiled(now, t.d, placed)
    ensures forall c: Cell | t.r.Has(c) :: exists k: nat :: Owns(placed, k, c)
    ensures forall k: nat, c: Cell | Owns(placed, k, c) :: t.r.Has(c)
  {
    hide Get, CoveredX, CoveredY;
    forall k: nat | k < |placed|
      ensures placed[k].Ok() && t.d.Fits(placed[k]) && Allowed(t, placed[k]) && t.r.Has(placed[k].First())
    {
      assert NextByToken(t, placed, k);
    }
    forall c: Cell | t.d.Has(c)
      ensures CellTiled(now, t.d, placed, c)
    {
      assert CellMarked(now, t, placed, c);
    }
    forall k: nat, j: nat, c: Cell | Owns(placed, k, c) && Owns(placed, j, c)
      ensures k == j
    {
      if k < j {
        Apart(t, placed, k, j, c);
      } else if j < k {
        Apart(t, placed, j, k, c);
      }
    }
    forall c: Cell | t.r.Has(c)
      ensures exists k: nat :: Owns(placed, k, c)
    {
      assert !Open(t, placed, c) && t.d.Has(c);
    }
  }

  // A transform covers none of the blocks of an earlier one.
  lemma Apart(t: Task, placed: seq<Placement>, k: nat, j: nat, c: Cell)
    requires Decodes(t, placed) && k < j < |placed| && Owns(placed, k, c)
    ensures !Owns(placed, j, c)
  {
    hide Get, CoveredX, CoveredY;
    assert NextByToken(t, placed, j);
    assert placed[..j][k] == placed[k] && Owns(placed[..j], k, c);
  }
}
