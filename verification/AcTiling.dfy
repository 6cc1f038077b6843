// The map of block transforms: libjxl/lib/jxl/ac_strategy.h (AcStrategyImage)
// and ac_strategy.cc (CountBlocks).
module AcTiling {
  import opened Bits
  import opened ZigZag
  import C = CoeffOrders

  const INVALID: int := 0xFF

  function CoveredX(t: nat): nat
    requires t < C.NUM_STRATEGIES
  {
    C.COVERED_X[t]
  }

  function CoveredY(t: nat): nat
    requires t < C.NUM_STRATEGIES
  {
    C.COVERED_Y[t]
  }

  lemma CoversSomething(t: nat)
    requires t < C.NUM_STRATEGIES
    ensures CoveredX(t) >= 1 && CoveredY(t) >= 1
  {
  }

  // A transform placed with its first block at (x, y).
  datatype Placement = Placement(x: nat, y: nat, strategy: nat) {
    predicate Ok() { strategy < C.NUM_STRATEGIES }

    predicate Covers(c: Cell)
      requires Ok()
    {
      x <= c.x < x + CoveredX(strategy) && y <= c.y < y + CoveredY(strategy)
    }

    function First(): Cell { Cell(x, y) }

    // Strategy and first-block bit.
    function Mark(c: Cell): int {
      2 * strategy + (if c == First() then 1 else 0)
    }
  }

  datatype Dims = Dims(xsize: nat, ysize: nat, stride: nat) {
    predicate Ok() { xsize <= stride }
    predicate Has(c: Cell) { c.x < xsize && c.y < ysize }
    predicate Fits(p: Placement)
      requires p.Ok()
    {
      p.x + CoveredX(p.strategy) <= xsize && p.y + CoveredY(p.strategy) <= ysize
    }
  }

  // ---------------------------------------------------------------------
  // Cells of the flat buffer.

  function Flat(stride: nat, c: Cell): nat {
    c.y * stride + c.x
  }

  function Get(s: seq<int>, stride: nat, c: Cell): int {
    if Flat(stride, c) < |s| then s[Flat(stride, c)] else INVALID
  }

  predicate Sized(s: seq<int>, d: Dims) {
    |s| == Times(d.ysize, d.stride)
  }

  lemma FlatBound(d: Dims, c: Cell)
    requires d.Ok() && d.Has(c)
    ensures Flat(d.stride, c) < Times(d.ysize, d.stride)
  {
    FlatLess(c.x, c.y, d.stride, d.ysize);
  }

  lemma FlatInjective(d: Dims, c: Cell, e: Cell)
    requires d.Ok() && d.Has(c) && d.Has(e) && Flat(d.stride, c) == Flat(d.stride, e)
    ensures c == e
  {
    DivIs(Flat(d.stride, c), c.y, d.stride, c.x);
    DivIs(Flat(d.stride, e), e.y, d.stride, e.x);
  }

  lemma GetAfterSet(s: seq<int>, d: Dims, c: Cell, v: int, e: Cell)
    requires Sized(s, d) && d.Ok() && d.Has(c) && d.Has(e)
    ensures Flat(d.stride, c) < |s|
    ensures Get(s[Flat(d.stride, c) := v], d.stride, e) == if e == c then v else Get(s, d.stride, e)
  {
    FlatBound(d, c);
    FlatBound(d, e);
    if Flat(d.stride, c) == Flat(d.stride, e) {
      FlatInjective(d, c, e);
    }
  }

  // ---------------------------------------------------------------------
  // Writing a placement.

  // Cell c comes before row iy, column ix of the placement, in raster order.
  predicate Passed(p: Placement, iy: nat, ix: nat, c: Cell)
    requires p.Ok()
  {
    p.Covers(c) && (c.y < p.y + iy || (c.y == p.y + iy && c.x < p.x + ix))
  }

  ghost predicate CellWritten(s: seq<int>, was: seq<int>, d: Dims, p: Placement, iy: nat, ix: nat, c: Cell)
    requires p.Ok()
  {
    Get(s, d.stride, c) == if Passed(p, iy, ix, c) then p.Mark(c) else Get(was, d.stride, c)
  }

  // The cells of the placement before (iy, ix) are written; all others are as they were.
  ghost predicate WrittenTo(s: seq<int>, was: seq<int>, d: Dims, p: Placement, iy: nat, ix: nat)
    requires p.Ok()
  {
    Sized(s, d) && forall c: Cell | d.Has(c) :: CellWritten(s, was, d, p, iy, ix, c)
  }

  ghost predicate FreeTo(s: seq<int>, d: Dims, p: Placement, iy: nat, ix: nat)
    requires p.Ok()
  {
    forall c: Cell | Passed(p, iy, ix, c) :: Get(s, d.stride, c) == INVALID
  }

  // No cell of the placement is taken.
  ghost predicate Free(s: seq<int>, d: Dims, p: Placement)
    requires p.Ok()
  {
    FreeTo(s, d, p, CoveredY(p.strategy), 0)
  }

  // Exactly the cells of the placement are written.
  ghost predicate Places(s: seq<int>, was: seq<int>, d: Dims, p: Placement)
    requires p.Ok()
  {
    WrittenTo(s, was, d, p, CoveredY(p.strategy), 0)
  }

  lemma WriteStep(s: seq<int>, was: seq<int>, d: Dims, p: Placement, iy: nat, ix: nat)
    requires p.Ok() && d.Ok() && d.Fits(p) && iy < CoveredY(p.strategy) && ix < CoveredX(p.strategy)
    requires WrittenTo(s, was, d, p, iy, ix)
    ensures var c := Cell(p.x + ix, p.y + iy);
      && Flat(d.stride, c) < |s| && s[Flat(d.stride, c)] == Get(was, d.stride, c)
      && WrittenTo(s[Flat(d.stride, c) := p.Mark(c)], was, d, p, iy, ix + 1)
  {
    hide Get, Flat, Times, CoveredX, CoveredY;
    var c, next := Cell(p.x + ix, p.y + iy), ix + 1;
    assert CellWritten(s, was, d, p, iy, ix, c);
    WriteGet(s, d, c);
    var t := s[Flat(d.stride, c) := p.Mark(c)];
    forall e: Cell | d.Has(e)
      ensures CellWritten(t, was, d, p, iy, next, e)
    {
      assert CellWritten(s, was, d, p, iy, ix, e);
      GetAfterSet(s, d, c, p.Mark(c), e);
    }
  }

  lemma WriteGet(s: seq<int>, d: Dims, c: Cell)
    requires Sized(s, d) && d.Ok() && d.Has(c)
    ensures Flat(d.stride, c) < |s| && Get(s, d.stride, c) == s[Flat(d.stride, c)]
  {
    FlatBound(d, c);
  }

  lemma WriteRow(s: seq<int>, was: seq<int>, d: Dims, p: Placement, iy: nat)
    requires p.Ok() && WrittenTo(s, was, d, p, iy, CoveredX(p.strategy))
    ensures WrittenTo(s, was, d, p, iy + 1, 0)
  {
    hide Get, CoveredX, CoveredY;
    var next := iy + 1;
    forall c: Cell | d.Has(c)
      ensures CellWritten(s, was, d, p, next, 0, c)
    {
      assert CellWritten(s, was, d, p, iy, CoveredX(p.strategy), c);
    }
  }

  lemma FreeSteps(s: seq<int>, d: Dims, p: Placement, iy: nat, ix: nat)
    requires p.Ok() && FreeTo(s, d, p, iy, ix)
    ensures var c := Cell(p.x + ix, p.y + iy);
      (ix < CoveredX(p.strategy) && iy < CoveredY(p.strategy) && Get(s, d.stride, c) == INVALID) ==>
        FreeTo(s, d, p, iy, ix + 1)
    ensures ix == CoveredX(p.strategy) ==> FreeTo(s, d, p, iy + 1, 0)
    ensures ix < CoveredX(p.strategy) && iy < CoveredY(p.strategy) && Free(s, d, p) ==>
              Get(s, d.stride, Cell(p.x + ix, p.y + iy)) == INVALID
  {
    hide Get, CoveredX, CoveredY;
    var c := Cell(p.x + ix, p.y + iy);
    if ix < CoveredX(p.strategy) && iy < CoveredY(p.strategy) {
      assert Passed(p, CoveredY(p.strategy), 0, c);
    }
    var nx, ny := ix + 1, iy + 1;
    forall e: Cell | Passed(p, iy, nx, e)
      ensures e == c || Passed(p, iy, ix, e)
    {
    }
    forall e: Cell | Passed(p, ny, 0, e) && ix == CoveredX(p.strategy)
      ensures Passed(p, iy, ix, e)
    {
    }
  }

  class AcStrategyImage {
    const dims: Dims
    const row: array<int>

    ghost predicate Valid()
      reads row
    {
      dims.Ok() && Sized(row[..], dims)
    }

    constructor (xsize: nat, ysize: nat, stride: nat)
      requires xsize <= stride
      ensures Valid() && dims == Dims(xsize, ysize, stride) && fresh(row)
    {
      dims := Dims(xsize, ysize, stride);
      row := new int[Times(ysize, stride)];
    }

    method FillInvalid()
      requires Valid()
      modifies row
      ensures Valid() && forall c: Cell | dims.Has(c) :: Get(row[..], dims.stride, c) == INVALID
    {
      for k := 0 to row.Length
        invariant Sized(row[..], dims) && forall j: nat | j < k :: row[j] == INVALID
      {
        row[k] := INVALID;
      }
    }

    predicate IsTaken(x: nat, y: nat)
      requires Valid() && dims.Has(Cell(x, y))
      reads row
      ensures IsTaken(x, y) <==> Get(row[..], dims.stride, Cell(x, y)) != INVALID
    {
      FlatBound(dims, Cell(x, y));
      row[y * dims.stride + x] != INVALID
    }

    // With the check, succeeds exactly when the whole rectangle is free. When it
    // fails, the cells before the first taken one have already been written.
    method SetNoBoundsCheck(x: nat, y: nat, strategy: nat, check: bool) returns (ok: bool)
      requires Valid() && Placement(x, y, strategy).Ok() && dims.Fits(Placement(x, y, strategy))
      modifies row
      ensures Valid()
      ensures ok <==> !check || Free(old(row[..]), dims, Placement(x, y, strategy))
      ensures ok ==> Places(row[..], old(row[..]), dims, Placement(x, y, strategy))
      ensures !ok ==> exists iy: nat, ix: nat ::
                        Stopped(row[..], old(row[..]), dims, Placement(x, y, strategy), iy, ix)
    {
      hide Get, Flat, Times, CoveredX, CoveredY, FreeTo, WrittenTo;
      var p := Placement(x, y, strategy);
      ghost var was := row[..];
      assert WrittenTo(was, was, dims, p, 0, 0) && FreeTo(was, dims, p, 0, 0) by {
        NothingWritten(was, dims, p);
      }
      for iy := 0 to CoveredY(strategy)
        invariant Sized(row[..], dims) && WrittenTo(row[..], was, dims, p, iy, 0)
        invariant check ==> FreeTo(was, dims, p, iy, 0)
      {
        for ix := 0 to CoveredX(strategy)
          invariant Sized(row[..], dims) && WrittenTo(row[..], was, dims, p, iy, ix)
          invariant check ==> FreeTo(was, dims, p, iy, ix)
        {
          var c := Cell(x + ix, y + iy);
          var pos := Flat(dims.stride, c);
          ghost var s := row[..];
          WriteStep(s, was, dims, p, iy, ix);
          assert row[pos] == Get(was, dims.stride, c);
          if check {
            FreeSteps(was, dims, p, iy, ix);
          }
          if check && row[pos] != INVALID {
            assert Stopped(row[..], was, dims, p, iy, ix);
            return false;
          }
          row[pos] := 2 * strategy + (if iy == 0 && ix == 0 then 1 else 0);
          assert row[..] == s[pos := p.Mark(c)];
        }
        WriteRow(row[..], was, dims, p, iy);
        if check {
          FreeSteps(was, dims, p, iy, CoveredX(strategy));
        }
      }
      return true;
    }
  }

  // The first taken cell is at (iy, ix); the cells before it have been written.
  ghost predicate Stopped(s: seq<int>, was: seq<int>, d: Dims, p: Placement, iy: nat, ix: nat)
    requires p.Ok()
  {
    && ix < CoveredX(p.strategy) && iy < CoveredY(p.strategy) && FreeTo(was, d, p, iy, ix)
    && Get(was, d.stride, Cell(p.x + ix, p.y + iy)) != INVALID && WrittenTo(s, was, d, p, iy, ix)
  }

  lemma NothingWritten(s: seq<int>, d: Dims, p: Placement)
    requires p.Ok() && Sized(s, d)
    ensures WrittenTo(s, s, d, p, 0, 0) && FreeTo(s, d, p, 0, 0)
  {
  }

  // A failed set leaves the map as it was exactly if its first cell was taken.
  lemma FailedSetKeeps(s: seq<int>, was: seq<int>, d: Dims, p: Placement, iy: nat, ix: nat)
    requires p.Ok() && d.Ok() && d.Fits(p) && Stopped(s, was, d, p, iy, ix)
    ensures (forall c: Cell | d.Has(c) :: Get(s, d.stride, c) == Get(was, d.stride, c))
       <==> Get(was, d.stride, p.First()) != INVALID
  {
    hide Get, CoveredX, CoveredY;
    CoversSomething(p.strategy);
    assert d.Has(p.First()) && CellWritten(s, was, d, p, iy, ix, p.First());
    if iy == 0 && ix == 0 {
      forall c: Cell | d.Has(c)
        ensures Get(s, d.stride, c) == Get(was, d.stride, c)
      {
        assert CellWritten(s, was, d, p, iy, ix, c);
      }
    } else {
      assert Passed(p, iy, ix, p.First());
    }
  }

  // ---------------------------------------------------------------------
  // Runs of successful, checked sets.

  ghost predicate AllInvalid(s: seq<int>, d: Dims) {
    Sized(s, d) && forall c: Cell | d.Has(c) :: Get(s, d.stride, c) == INVALID
  }

  // One successful set, in range.
  ghost predicate Sets(s: seq<int>, was: seq<int>, d: Dims, p: Placement) {
    p.Ok() && d.Fits(p) && Free(was, d, p) && Places(s, was, d, p)
  }

  ghost predicate IsRun(states: seq<seq<int>>, placed: seq<Placement>, d: Dims) {
    && |states| == |placed| + 1 && d.Ok() && AllInvalid(states[0], d)
    && forall k: nat, j: nat | k < |placed| && j == k + 1 :: Sets(states[j], states[k], d, placed[k])
  }

  // A cell that is not INVALID belongs to one placement and bears its mark; a
  // cell of a placement bears that placement's mark, so placements are disjoint.
  ghost predicate CellTiled(s: seq<int>, d: Dims, placed: seq<Placement>, c: Cell) {
    && (Get(s, d.stride, c) != INVALID ==> exists k: nat :: Owns(placed, k, c))
    && forall k: nat | Owns(placed, k, c) :: Get(s, d.stride, c) == placed[k].Mark(c)
  }

  predicate Owns(placed: seq<Placement>, k: nat, c: Cell) {
    k < |placed| && placed[k].Ok() && placed[k].Covers(c)
  }

  ghost predicate Tiled(s: seq<int>, d: Dims, placed: seq<Placement>) {
    && (forall k: nat | k < |placed| :: placed[k].Ok() && d.Fits(placed[k]))
    && (forall c: Cell | d.Has(c) :: CellTiled(s, d, placed, c))
    && forall k: nat, j: nat, c: Cell | Owns(placed, k, c) && Owns(placed, j, c) :: k == j
  }

  lemma MarkIsValid(p: Placement, c: Cell)
    requires p.Ok()
    ensures p.Mark(c) != INVALID
  {
  }

  // Seen from a cell, a set marks the cells of the placement, which were free.
  lemma SetCell(s: seq<int>, was: seq<int>, d: Dims, p: Placement, c: Cell)
    requires Sets(s, was, d, p) && d.Has(c)
    ensures Get(s, d.stride, c) == if p.Covers(c) then p.Mark(c) else Get(was, d.stride, c)
    ensures p.Covers(c) ==> Get(was, d.stride, c) == INVALID
  {
    hide Get, CoveredX, CoveredY;
    assert CellWritten(s, was, d, p, CoveredY(p.strategy), 0, c);
    assert p.Covers(c) ==> Passed(p, CoveredY(p.strategy), 0, c);
  }

  lemma TilingStep(s: seq<int>, was: seq<int>, d: Dims, placed: seq<Placement>, p: Placement)
    requires Tiled(was, d, placed) && Sets(s, was, d, p)
    ensures Tiled(s, d, placed + [p])
  {
    hide Get, CoveredX, CoveredY, Free, Places;
    var next := placed + [p];
    forall c: Cell | d.Has(c)
      ensures CellTiled(s, d, next, c)
      ensures forall k: nat | k < |placed| && Owns(next, k, c) :: !p.Covers(c)
    {
      SetCell(s, was, d, p, c);
      assert CellTiled(was, d, placed, c);
      forall k: nat | k < |placed| && Owns(next, k, c)
        ensures !p.Covers(c)
      {
        assert Owns(placed, k, c);
        MarkIsValid(placed[k], c);
      }
      CellStep(s, was, d, placed, p, c);
    }
    forall k: nat, j: nat, c: Cell | Owns(next, k, c) && Owns(next, j, c)
      ensures k == j
    {
      CoveredOnCanvas(d, next[k], c);
      if k < |placed| && j < |placed| {
        assert Owns(placed, k, c) && Owns(placed, j, c);
      }
    }
  }

  lemma CoveredOnCanvas(d: Dims, p: Placement, c: Cell)
    requires p.Ok() && d.Fits(p) && p.Covers(c)
    ensures d.Has(c)
  {
  }

  lemma CellStep(s: seq<int>, was: seq<int>, d: Dims, placed: seq<Placement>, p: Placement, c: Cell)
    requires d.Has(c) && CellTiled(was, d, placed, c) && p.Ok()
    requires Get(s, d.stride, c) == if p.Covers(c) then p.Mark(c) else Get(was, d.stride, c)
    requires forall k: nat | k < |placed| && Owns(placed + [p], k, c) :: !p.Covers(c)
    ensures CellTiled(s, d, placed + [p], c)
  {
    hide Get;
    var next := placed + [p];
    if p.Covers(c) {
      assert Owns(next, |placed|, c);
    } else if Get(s, d.stride, c) != INVALID {
      var k: nat :| Owns(placed, k, c);
      assert Owns(next, k, c);
    }
    forall k: nat | Owns(next, k, c)
      ensures Get(s, d.stride, c) == next[k].Mark(c)
    {
      if k < |placed| {
        assert Owns(placed, k, c);
      }
    }
  }

  // After every run, the map is a disjoint tiling by the placements.
  lemma {:induction false} RunTiles(states: seq<seq<int>>, placed: seq<Placement>, d: Dims)
    requires IsRun(states, placed, d)
    ensures Tiled(states[|placed|], d, placed)
    decreases |placed|
  {
    hide Get, Sets, Owns;
    if placed == [] {
      EmptyTiled(states[0], d);
    } else {
      var n: nat := |placed| - 1;
      assert placed == placed[..n] + [placed[n]];
      RunTiles(states[..|placed|], placed[..n], d);
      TilingStep(states[|placed|], states[n], d, placed[..n], placed[n]);
    }
  }

  lemma EmptyTiled(s: seq<int>, d: Dims)
    requires AllInvalid(s, d)
    ensures Tiled(s, d, [])
  {
    hide Get;
  }

  // A first-block mark belongs to a placement that begins there.
  lemma FirstOwner(s: seq<int>, d: Dims, placed: seq<Placement>, c: Cell, strategy: nat) returns (k: nat)
    requires Tiled(s, d, placed) && d.Has(c) && Get(s, d.stride, c) == 2 * strategy + 1 != INVALID
    ensures Owns(placed, k, c) && placed[k] == Placement(c.x, c.y, strategy)
  {
    hide Get, CoveredX, CoveredY;
    assert CellTiled(s, d, placed, c);
    k :| Owns(placed, k, c);
    assert placed[k].Mark(c) == 2 * strategy + 1;
  }

  // The placement that a cell belongs to, and its first cell.
  lemma OwnerOf(s: seq<int>, d: Dims, placed: seq<Placement>, c: Cell) returns (k: nat)
    requires Tiled(s, d, placed) && d.Has(c) && Get(s, d.stride, c) != INVALID
    ensures Owns(placed, k, c) && d.Has(placed[k].First())
    ensures Get(s, d.stride, placed[k].First()) == 2 * placed[k].strategy + 1 != INVALID
  {
    hide Get;
    assert CellTiled(s, d, placed, c);
    k :| Owns(placed, k, c);
    CoversSomething(placed[k].strategy);
    MarkIsValid(placed[k], placed[k].First());
    CoveredOnCanvas(d, placed[k], placed[k].First());
    hide CoveredX, CoveredY;
    assert Owns(placed, k, placed[k].First());
    assert CellTiled(s, d, placed, placed[k].First());
  }

  // After a failed set the map is still a tiling exactly if the first cell was
  // taken: otherwise that cell stays marked, without the rest of its rectangle.
  lemma FailedSetBreaks(s: seq<int>, was: seq<int>, d: Dims, placed: seq<Placement>, p: Placement, iy: nat, ix: nat)
    requires Tiled(was, d, placed) && d.Ok() && p.Ok() && d.Fits(p) && Stopped(s, was, d, p, iy, ix)
    ensures (exists others :: Tiled(s, d, others)) <==> Get(was, d.stride, p.First()) != INVALID
  {
    hide Get, Tiled, Stopped;
    FailedSetKeeps(s, was, d, p, iy, ix);
    if Get(was, d.stride, p.First()) != INVALID {
      SameTiling(s, was, d, placed);
    } else {
      forall others
        ensures !Tiled(s, d, others)
      {
        LeftOver(s, was, d, placed, p, iy, ix, others);
      }
    }
  }

  lemma SameTiling(s: seq<int>, was: seq<int>, d: Dims, placed: seq<Placement>)
    requires Tiled(was, d, placed) && forall c: Cell | d.Has(c) :: Get(s, d.stride, c) == Get(was, d.stride, c)
    ensures Tiled(s, d, placed)
  {
    hide Get, Owns;
    forall c: Cell | d.Has(c)
      ensures CellTiled(s, d, placed, c)
    {
      assert CellTiled(was, d, placed, c);
    }
  }

  lemma LeftOver(s: seq<int>, was: seq<int>, d: Dims, placed: seq<Placement>, p: Placement, iy: nat, ix: nat,
                 others: seq<Placement>)
    requires Tiled(was, d, placed) && d.Ok() && p.Ok() && d.Fits(p) && Stopped(s, was, d, p, iy, ix)
    requires Get(was, d.stride, p.First()) == INVALID
    ensures !Tiled(s, d, others)
  {
    hide Get, CoveredX, CoveredY, Tiled, CellTiled;
    var first, c := p.First(), Cell(p.x + ix, p.y + iy);
    assert CellWritten(s, was, d, p, iy, ix, first) && Passed(p, iy, ix, first);
    assert CellWritten(s, was, d, p, iy, ix, c);
    var j := OwnerOf(was, d, placed, c);
    var q := placed[j];
    assert CellWritten(s, was, d, p, iy, ix, q.First()) && !Passed(p, iy, ix, q.First());
    if Tiled(s, d, others) {
      var k := FirstOwner(s, d, others, first, p.strategy);
      var m := FirstOwner(s, d, others, q.First(), q.strategy);
      OneOwner(s, d, others, k, m, c);
    }
  }

  lemma OneOwner(s: seq<int>, d: Dims, placed: seq<Placement>, k: nat, j: nat, c: Cell)
    requires Tiled(s, d, placed) && Owns(placed, k, c) && Owns(placed, j, c)
    ensures k == j
  {
  }

  lemma SomeShapes()
    ensures CoveredX(0) == CoveredY(0) == 1 && CoveredX(7) == 2 && CoveredY(7) == 1
  {
  }

  // A DCT block at (1, 0) ...
  lemma OneBlockTiled()
    ensures Tiled([INVALID, 1], Dims(2, 1, 2), [Placement(1, 0, 0)])
  {
    SomeShapes();
    hide CoveredX, CoveredY;
    var was, d, dct := [INVALID, 1], Dims(2, 1, 2), [Placement(1, 0, 0)];
    assert Get(was, 2, Cell(0, 0)) == INVALID && Get(was, 2, Cell(1, 0)) == 1;
    hide Get;
    forall c: Cell | d.Has(c)
      ensures CellTiled(was, d, dct, c)
    {
      if c == Cell(1, 0) {
        assert Owns(dct, 0, c);
      } else {
        assert c == Cell(0, 0);
      }
    }
  }

  // ... and then the two-block DCT8X16 at (0, 0): the set fails at the second
  // cell, and the first one is marked.
  lemma OverlapLeavesMark()
    ensures Placement(0, 0, 7).Ok() && Stopped([15, 1], [INVALID, 1], Dims(2, 1, 2), Placement(0, 0, 7), 0, 1)
  {
    SomeShapes();
    hide CoveredX, CoveredY;
    var s, was, d, p := [15, 1], [INVALID, 1], Dims(2, 1, 2), Placement(0, 0, 7);
    assert Get(was, 2, Cell(0, 0)) == INVALID && Get(was, 2, Cell(1, 0)) == 1;
    assert Get(s, 2, Cell(0, 0)) == 15 && Get(s, 2, Cell(1, 0)) == 1;
    hide Get;
    forall c: Cell | Passed(p, 0, 1, c)
      ensures c == Cell(0, 0)
    {
    }
    forall c: Cell | d.Has(c)
      ensures CellWritten(s, was, d, p, 0, 1, c)
    {
      assert c == Cell(0, 0) || c == Cell(1, 0);
    }
  }

  // Each placement keeps exactly one first-block cell: its own top-left cell.
  lemma OneFirstBlock(s: seq<int>, d: Dims, placed: seq<Placement>, k: nat, c: Cell)
    requires Tiled(s, d, placed) && Owns(placed, k, c)
    ensures Get(s, d.stride, c) == 2 * placed[k].strategy + 1 <==> c == placed[k].First()
    ensures Get(s, d.stride, c) == 2 * placed[k].strategy <==> c != placed[k].First()
  {
    hide Get, CoveredX, CoveredY;
    CoveredOnCanvas(d, placed[k], c);
    assert CellTiled(s, d, placed, c);
  }

  // ---------------------------------------------------------------------
  // Counting.

  ghost function Taken(s: seq<int>, d: Dims): set<Cell> {
    set x: nat, y: nat | x < d.xsize && y < d.ysize && Get(s, d.stride, Cell(x, y)) != INVALID :: Cell(x, y)
  }

  // The first blocks of a strategy.
  ghost function Firsts(s: seq<int>, d: Dims, strategy: nat): set<Cell> {
    set x: nat, y: nat | x < d.xsize && y < d.ysize && Get(s, d.stride, Cell(x, y)) == 2 * strategy + 1 :: Cell(x, y)
  }

  ghost function Rectangle(x0: nat, y0: nat, w: nat, h: nat): set<Cell> {
    set x: nat, y: nat | x0 <= x < x0 + w && y0 <= y < y0 + h :: Cell(x, y)
  }

  ghost function Strip(x0: nat, y: nat, w: nat): set<Cell> {
    set x: nat | x0 <= x < x0 + w :: Cell(x, y)
  }

  lemma {:induction false} StripSize(x0: nat, y: nat, w: nat)
    ensures |Strip(x0, y, w)| == w
  {
    if w == 0 {
      assert Strip(x0, y, w) == {};
    } else {
      StripSize(x0, y, w - 1);
      assert Strip(x0, y, w) == Strip(x0, y, w - 1) + {Cell(x0 + w - 1, y)};
    }
  }

  lemma {:induction false} RectangleSize(x0: nat, y0: nat, w: nat, h: nat)
    ensures |Rectangle(x0, y0, w, h)| == Times(h, w)
  {
    if h == 0 {
      assert Rectangle(x0, y0, w, h) == {};
    } else {
      RectangleSize(x0, y0, w, h - 1);
      var last := y0 + h - 1;
      StripSize(x0, last, w);
      assert Rectangle(x0, y0, w, h) == Rectangle(x0, y0, w, h - 1) + Strip(x0, last, w);
      assert Rectangle(x0, y0, w, h - 1) !! Strip(x0, last, w);
      TimesNext(h - 1, w);
    }
  }

  function CoveredArea(strategy: nat): nat
    requires strategy < C.NUM_STRATEGIES
  {
    Times(CoveredY(strategy), CoveredX(strategy))
  }

  lemma SetTakes(s: seq<int>, was: seq<int>, d: Dims, p: Placement)
    requires Sets(s, was, d, p)
    ensures |Taken(s, d)| == |Taken(was, d)| + CoveredArea(p.strategy)
  {
    hide Get, CoveredX, CoveredY, Sets, Times;
    assert p.Ok() && d.Fits(p) by {
      SetIsInRange(s, was, d, p);
    }
    var rect := Rectangle(p.x, p.y, CoveredX(p.strategy), CoveredY(p.strategy));
    RectangleSize(p.x, p.y, CoveredX(p.strategy), CoveredY(p.strategy));
    forall x: nat, y: nat | x < d.xsize && y < d.ysize
      ensures Cell(x, y) in Taken(s, d) <==> Cell(x, y) in Taken(was, d) || Cell(x, y) in rect
      ensures !(Cell(x, y) in Taken(was, d) && Cell(x, y) in rect)
    {
      SetCell(s, was, d, p, Cell(x, y));
      MarkIsValid(p, Cell(x, y));
    }
    assert Taken(s, d) == Taken(was, d) + rect && Taken(was, d) !! rect;
  }

  lemma SetIsInRange(s: seq<int>, was: seq<int>, d: Dims, p: Placement)
    requires Sets(s, was, d, p)
    ensures p.Ok() && d.Fits(p)
  {
  }

  lemma FirstOfCell(s: seq<int>, was: seq<int>, d: Dims, p: Placement, strategy: nat, c: Cell)
    requires Sets(s, was, d, p) && strategy < C.NUM_STRATEGIES && d.Has(c)
    ensures Get(s, d.stride, c) == 2 * strategy + 1
       <==> Get(was, d.stride, c) == 2 * strategy + 1 || (p.strategy == strategy && c == p.First())
    ensures !(Get(was, d.stride, c) == 2 * strategy + 1 && c == p.First())
  {
    hide Get, CoveredX, CoveredY, Sets;
    SetIsInRange(s, was, d, p);
    CoversSomething(p.strategy);
    SetCell(s, was, d, p, c);
  }

  lemma SetAddsFirst(s: seq<int>, was: seq<int>, d: Dims, p: Placement, strategy: nat)
    requires Sets(s, was, d, p) && strategy < C.NUM_STRATEGIES
    ensures |Firsts(s, d, strategy)| == |Firsts(was, d, strategy)| + (if p.strategy == strategy then 1 else 0)
  {
    hide Get, CoveredX, CoveredY, Sets, Firsts;
    SetIsInRange(s, was, d, p);
    CoversSomething(p.strategy);
    var first := p.First();
    assert d.Has(first);
    FirstsOnCanvas(s, d, strategy);
    FirstsOnCanvas(was, d, strategy);
    forall c: Cell | d.Has(c)
      ensures c in Firsts(s, d, strategy)
         <==> c in Firsts(was, d, strategy) || (p.strategy == strategy && c == first)
      ensures c == first ==> c !in Firsts(was, d, strategy)
    {
      FirstOfCell(s, was, d, p, strategy, c);
    }
    OneMoreFirst(Firsts(s, d, strategy), Firsts(was, d, strategy), first, p.strategy == strategy);
  }

  lemma OneMoreFirst(after: set<Cell>, before: set<Cell>, first: Cell, more: bool)
    requires forall c :: c in after <==> c in before || (more && c == first)
    requires first !in before
    ensures |after| == |before| + (if more then 1 else 0)
  {
    assert after == if more then before + {first} else before;
  }

  lemma FirstsOnCanvas(s: seq<int>, d: Dims, strategy: nat)
    ensures forall c: Cell :: c in Firsts(s, d, strategy) <==> d.Has(c) && Get(s, d.stride, c) == 2 * strategy + 1
  {
    hide Get;
    forall c: Cell
      ensures c in Firsts(s, d, strategy) <==> d.Has(c) && Get(s, d.stride, c) == 2 * strategy + 1
    {
      assert c == Cell(c.x, c.y);
    }
  }

  // Blocks of each strategy below n, times the blocks they cover.
  ghost function CoveredBy(s: seq<int>, d: Dims, n: nat): nat
    requires n <= C.NUM_STRATEGIES
  {
    if n == 0 then 0 else CoveredBy(s, d, n - 1) + Times(|Firsts(s, d, n - 1)|, CoveredArea(n - 1))
  }

  lemma {:induction false} SetCovers(s: seq<int>, was: seq<int>, d: Dims, p: Placement, n: nat)
    requires Sets(s, was, d, p) && p.Ok() && n <= C.NUM_STRATEGIES
    ensures CoveredBy(s, d, n) == CoveredBy(was, d, n) + (if p.strategy < n then CoveredArea(p.strategy) else 0)
  {
    hide Sets, Times, Firsts, CoveredArea;
    if n > 0 {
      SetCovers(s, was, d, p, n - 1);
      SetAddsFirst(s, was, d, p, n - 1);
      TimesNext(|Firsts(was, d, n - 1)|, CoveredArea(n - 1));
    }
  }

  // After every run, the cells that are not INVALID are as many as the blocks
  // counted for each strategy, times the blocks that the strategy covers; and
  // the count is the number of placements.
  lemma {:induction false} RunConserves(states: seq<seq<int>>, placed: seq<Placement>, d: Dims)
    requires IsRun(states, placed, d)
    ensures |Taken(states[|placed|], d)| == CoveredBy(states[|placed|], d, C.NUM_STRATEGIES)
    decreases |placed|
  {
    hide Get, Sets, CoveredBy, Taken;
    if placed == [] {
      EmptyCounts(states[0], d, C.NUM_STRATEGIES);
    } else {
      var n: nat := |placed| - 1;
      RunConserves(states[..|placed|], placed[..n], d);
      var s, was, p := states[|placed|], states[n], placed[n];
      assert Sets(s, was, d, p);
      SetIsInRange(s, was, d, p);
      SetTakes(s, was, d, p);
      SetCovers(s, was, d, p, C.NUM_STRATEGIES);
    }
  }

  lemma {:induction false} EmptyCounts(s: seq<int>, d: Dims, n: nat)
    requires AllInvalid(s, d) && n <= C.NUM_STRATEGIES
    ensures |Taken(s, d)| == 0 && CoveredBy(s, d, n) == 0
  {
    hide Get;
    assert Taken(s, d) == {} by {
      forall x: nat, y: nat | x < d.xsize && y < d.ysize
        ensures Cell(x, y) !in Taken(s, d)
      {
        assert d.Has(Cell(x, y));
      }
    }
    if n > 0 {
      EmptyCounts(s, d, n - 1);
      assert Firsts(s, d, n - 1) == {} by {
        forall x: nat, y: nat | x < d.xsize && y < d.ysize
          ensures Cell(x, y) !in Firsts(s, d, n - 1)
        {
          assert d.Has(Cell(x, y));
        }
      }
    }
  }

  // Placements of a strategy.
  function Placed(placed: seq<Placement>, strategy: nat): nat {
    if placed == [] then 0
    else Placed(placed[..|placed| - 1], strategy) + (if placed[|placed| - 1].strategy == strategy then 1 else 0)
  }

  lemma {:induction false} RunCounts(states: seq<seq<int>>, placed: seq<Placement>, d: Dims, strategy: nat)
    requires IsRun(states, placed, d) && strategy < C.NUM_STRATEGIES
    ensures |Firsts(states[|placed|], d, strategy)| == Placed(placed, strategy)
    decreases |placed|
  {
    hide Get, Sets, Firsts;
    if placed == [] {
      EmptyFirsts(states[0], d, strategy);
    } else {
      var n: nat := |placed| - 1;
      RunCounts(states[..|placed|], placed[..n], d, strategy);
      SetAddsFirst(states[|placed|], states[n], d, placed[n], strategy);
    }
  }

  lemma EmptyFirsts(s: seq<int>, d: Dims, strategy: nat)
    requires AllInvalid(s, d) && strategy < C.NUM_STRATEGIES
    ensures Firsts(s, d, strategy) == {}
  {
    hide Get;
    forall x: nat, y: nat | x < d.xsize && y < d.ysize
      ensures Cell(x, y) !in Firsts(s, d, strategy)
    {
      assert d.Has(Cell(x, y));
    }
  }

  // The cells of the first y rows and the first x cells of the next.
  ghost function FirstsTo(s: seq<int>, d: Dims, strategy: nat, y: nat, x: nat): set<Cell> {
    set c | c in Firsts(s, d, strategy) && (c.y < y || (c.y == y && c.x < x))
  }

  lemma FirstsStep(s: seq<int>, d: Dims, strategy: nat, y: nat, x: nat)
    requires x < d.xsize && y < d.ysize
    ensures |FirstsTo(s, d, strategy, y, x + 1)|
         == |FirstsTo(s, d, strategy, y, x)| + (if Get(s, d.stride, Cell(x, y)) == 2 * strategy + 1 then 1 else 0)
  {
    hide Get;
    var c, next := Cell(x, y), x + 1;
    if Get(s, d.stride, c) == 2 * strategy + 1 {
      assert c in Firsts(s, d, strategy);
      assert FirstsTo(s, d, strategy, y, next) == FirstsTo(s, d, strategy, y, x) + {c};
    } else {
      assert c !in Firsts(s, d, strategy);
      assert FirstsTo(s, d, strategy, y, next) == FirstsTo(s, d, strategy, y, x);
    }
  }

  lemma FirstsRow(s: seq<int>, d: Dims, strategy: nat, y: nat)
    ensures FirstsTo(s, d, strategy, y, d.xsize) == FirstsTo(s, d, strategy, y + 1, 0)
    ensures FirstsTo(s, d, strategy, 0, 0) == {}
    ensures FirstsTo(s, d, strategy, d.ysize, 0) == Firsts(s, d, strategy)
  {
    hide Get;
  }

  // How often a strategy occurs, by its first blocks.
  method CountBlocks(image: AcStrategyImage, strategy: nat) returns (ret: nat)
    requires image.Valid() && strategy < C.NUM_STRATEGIES
    ensures ret == |Firsts(image.row[..], image.dims, strategy)|
  {
    hide Get, Flat, Times, FirstsTo, Firsts;
    var d := image.dims;
    ghost var s := image.row[..];
    ret := 0;
    FirstsRow(s, d, strategy, 0);
    for y := 0 to d.ysize
      invariant ret == |FirstsTo(s, d, strategy, y, 0)|
    {
      for x := 0 to d.xsize
        invariant ret == |FirstsTo(s, d, strategy, y, x)|
      {
        WriteGet(s, d, Cell(x, y));
        FirstsStep(s, d, strategy, y, x);
        if image.row[Flat(d.stride, Cell(x, y))] == 2 * strategy + 1 {
          ret := ret + 1;
        }
      }
      FirstsRow(s, d, strategy, y);
    }
  }
}
