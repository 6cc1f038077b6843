// Natural coefficient orders: libjxl/lib/jxl/ac_strategy.cc, CoeffOrderAndLut.
module ZigZag {
  import opened Bits
  import opened Lehmer

  const BLOCK_DIM: nat := 8

  // A block of cx by cy 8x8 blocks, with cx = cy << xss. Its coefficients are
  // the cells (x, y), x < 8 * cx, y < 8 * cy; cell (x, y) stands at (x, y << xss)
  // in the square of side 8 * cx.
  datatype Layout = Layout(cy: nat, xss: nat) {
    function Cx(): nat { Shl(cy, xss) }
    function Width(): nat { BLOCK_DIM * Cx() }
    function Height(): nat { BLOCK_DIM * cy }
    function Llf(): nat { Cx() * cy }
    function Size(): nat { BLOCK_DIM * BLOCK_DIM * Llf() }
  }

  datatype Cell = Cell(x: nat, y: nat)

  predicate InGrid(l: Layout, c: Cell) {
    c.x < l.Width() && c.y < l.Height()
  }

  // The lowest frequencies, one for each 8x8 block.
  predicate IsLlf(l: Layout, c: Cell) {
    c.x < l.Cx() && c.y < l.cy
  }

  function Diagonal(l: Layout, c: Cell): nat {
    c.x + Shl(c.y, l.xss)
  }

  // Even diagonals are walked by growing x, odd ones by growing y.
  function Key(l: Layout, c: Cell): nat {
    if Diagonal(l, c) % 2 == 0 then c.x else Shl(c.y, l.xss)
  }

  predicate Before(l: Layout, c: Cell, d: nat, key: nat) {
    Diagonal(l, c) < d || (Diagonal(l, c) == d && Key(l, c) < key)
  }

  // The cells outside the lowest frequencies that come before a point of the walk.
  ghost function Walked(l: Layout, d: nat, key: nat): set<Cell> {
    set x: nat, y: nat | x < l.Width() && y < l.Height() && !IsLlf(l, Cell(x, y)) && Before(l, Cell(x, y), d, key)
      :: Cell(x, y)
  }

  // The zig-zag order, stated without the walk: lowest frequencies first, in
  // raster order, then by diagonal, then along the diagonal.
  ghost function Rank(l: Layout, c: Cell): nat {
    if IsLlf(l, c) then c.y * l.Cx() + c.x else l.Llf() + |Walked(l, Diagonal(l, c), Key(l, c))|
  }

  // Position of a cell in the coefficient array.
  function Pos(l: Layout, c: Cell): nat {
    c.y * l.Width() + c.x
  }

  // ---------------------------------------------------------------------
  // Counting cells.

  ghost function Grid(w: nat, h: nat): set<Cell> {
    set x: nat, y: nat | x < w && y < h :: Cell(x, y)
  }

  ghost function Row(w: nat, y: nat): set<Cell> {
    set x: nat | x < w :: Cell(x, y)
  }

  lemma {:induction false} RowSize(w: nat, y: nat)
    ensures |Row(w, y)| == w
  {
    if w == 0 {
      assert Row(w, y) == {};
    } else {
      RowSize(w - 1, y);
      assert Row(w, y) == Row(w - 1, y) + {Cell(w - 1, y)};
    }
  }

  lemma {:induction false} GridSize(w: nat, h: nat)
    ensures |Grid(w, h)| == w * h
  {
    if h == 0 {
      assert Grid(w, h) == {};
    } else {
      GridSize(w, h - 1);
      RowSize(w, h - 1);
      assert Grid(w, h) == Grid(w, h - 1) + Row(w, h - 1) && Grid(w, h - 1) !! Row(w, h - 1);
      assert w * h == w * (h - 1) + w;
    }
  }

  lemma SubsetSize<T>(a: set<T>, b: set<T>)
    requires a <= b
    ensures |a| <= |b| && |b - a| == |b| - |a|
  {
    assert b == a + (b - a);
  }

  ghost function HighCells(l: Layout): set<Cell> {
    Grid(l.Width(), l.Height()) - Grid(l.Cx(), l.cy)
  }

  lemma SizeIs(l: Layout)
    ensures l.Width() * l.Height() == l.Size()
  {
    assert (BLOCK_DIM * l.Cx()) * (BLOCK_DIM * l.cy) == BLOCK_DIM * BLOCK_DIM * (l.Cx() * l.cy);
  }

  lemma HighSize(l: Layout)
    ensures |HighCells(l)| == l.Size() - l.Llf()
  {
    GridSize(l.Width(), l.Height());
    GridSize(l.Cx(), l.cy);
    SizeIs(l);
    SubsetSize(Grid(l.Cx(), l.cy), Grid(l.Width(), l.Height()));
  }

  // ---------------------------------------------------------------------
  // Rank and Pos are bijections from the cells to [0, Size).

  lemma FlatLess(a: nat, b: nat, w: nat, h: nat)
    requires a < w && b < h
    ensures b * w + a < h * w
  {
    MulStep(b, h, w);
  }

  lemma MulStep(b: nat, h: nat, w: nat)
    requires b < h
    ensures b * w + w <= h * w
  {
    MulAtLeastN(b + 1, h, w);
  }

  lemma PosInjective(l: Layout, c: Cell, e: Cell)
    requires InGrid(l, c) && InGrid(l, e) && Pos(l, c) == Pos(l, e)
    ensures c == e
  {
    DivIs(Pos(l, c), c.y, l.Width(), c.x);
    DivIs(Pos(l, e), e.y, l.Width(), e.x);
  }

  lemma PosBound(l: Layout, c: Cell)
    requires InGrid(l, c)
    ensures Pos(l, c) < l.Size()
  {
    FlatLess(c.x, c.y, l.Width(), l.Height());
    SizeIs(l);
  }

  lemma LlfBound(l: Layout, c: Cell)
    requires IsLlf(l, c)
    ensures InGrid(l, c) && Rank(l, c) < l.Llf()
  {
    FlatLess(c.x, c.y, l.Cx(), l.cy);
  }

  lemma RankBound(l: Layout, c: Cell)
    requires InGrid(l, c)
    ensures Rank(l, c) < l.Size() && (IsLlf(l, c) <==> Rank(l, c) < l.Llf())
  {
    if IsLlf(l, c) {
      LlfBound(l, c);
    } else {
      var w := Walked(l, Diagonal(l, c), Key(l, c));
      assert c in HighCells(l) && c !in w && w + {c} <= HighCells(l);
      SubsetSize(w + {c}, HighCells(l));
      HighSize(l);
    }
  }

  // On a diagonal, the key identifies the cell.
  lemma KeyInjective(l: Layout, c: Cell, e: Cell)
    requires Diagonal(l, c) == Diagonal(l, e) && Key(l, c) == Key(l, e)
    ensures c == e
  {
    if c.y < e.y {
      ShlLess(c.y, e.y, l.xss);
    } else if e.y < c.y {
      ShlLess(e.y, c.y, l.xss);
    }
  }

  lemma RankGrows(l: Layout, c: Cell, e: Cell)
    requires InGrid(l, c) && InGrid(l, e) && !IsLlf(l, c) && !IsLlf(l, e)
    requires Before(l, c, Diagonal(l, e), Key(l, e))
    ensures Rank(l, c) < Rank(l, e)
  {
    var a, b := Walked(l, Diagonal(l, c), Key(l, c)), Walked(l, Diagonal(l, e), Key(l, e));
    assert c in b && c !in a && a + {c} <= b;
    SubsetSize(a + {c}, b);
  }

  // The zig-zag: higher frequencies come by diagonals of the stretched block, and
  // turn to and fro, to the right on even diagonals and to the left on odd ones.
  lemma RankIsZigZag(l: Layout, c: Cell, e: Cell)
    requires InGrid(l, c) && InGrid(l, e) && !IsLlf(l, c) && !IsLlf(l, e)
    ensures var a, b := c.x + Shl(c.y, l.xss), e.x + Shl(e.y, l.xss);
            Rank(l, c) < Rank(l, e) <==> a < b || (a == b && if a % 2 == 0 then c.x < e.x else e.x < c.x)
  {
    if Before(l, c, Diagonal(l, e), Key(l, e)) {
      RankGrows(l, c, e);
    } else if Before(l, e, Diagonal(l, c), Key(l, c)) {
      RankGrows(l, e, c);
    } else {
      KeyInjective(l, c, e);
    }
  }

  lemma RankInjective(l: Layout, c: Cell, e: Cell)
    requires InGrid(l, c) && InGrid(l, e) && Rank(l, c) == Rank(l, e)
    ensures c == e
  {
    RankBound(l, c);
    RankBound(l, e);
    if IsLlf(l, c) {
      DivIs(Rank(l, c), c.y, l.Cx(), c.x);
      DivIs(Rank(l, e), e.y, l.Cx(), e.x);
    } else if Before(l, c, Diagonal(l, e), Key(l, e)) {
      RankGrows(l, c, e);
    } else if Before(l, e, Diagonal(l, c), Key(l, c)) {
      RankGrows(l, e, c);
    } else {
      KeyInjective(l, c, e);
    }
  }

  // The array holds the cells row by row, and the lowest frequencies are ranked
  // in the same way.
  lemma RowByRow(l: Layout, c: Cell, e: Cell)
    requires InGrid(l, c) && InGrid(l, e)
    ensures Pos(l, c) < Pos(l, e) <==> c.y < e.y || (c.y == e.y && c.x < e.x)
    ensures IsLlf(l, c) && IsLlf(l, e) ==>
              (Rank(l, c) < Rank(l, e) <==> c.y < e.y || (c.y == e.y && c.x < e.x))
  {
    RowsOrder(c.x, c.y, e.x, e.y, l.Width());
    if IsLlf(l, c) && IsLlf(l, e) {
      RowsOrder(c.x, c.y, e.x, e.y, l.Cx());
    }
  }

  lemma RowsOrder(x: nat, y: nat, x': nat, y': nat, w: nat)
    requires x < w && x' < w
    ensures y * w + x < y' * w + x' <==> y < y' || (y == y' && x < x')
  {
    if y < y' {
      MulStep(y, y', w);
    } else if y' < y {
      MulStep(y', y, w);
    }
  }

  function CellAt(l: Layout, p: nat): Cell
    requires l.Width() > 0
  {
    Cell(p % l.Width(), p / l.Width())
  }

  lemma CellAtPos(l: Layout, p: nat)
    requires p < l.Size()
    ensures l.Width() > 0 && InGrid(l, CellAt(l, p)) && Pos(l, CellAt(l, p)) == p
  {
    SizeIs(l);
    assert l.Width() > 0;
    var c := CellAt(l, p);
    assert Pos(l, c) == p;
    if c.y >= l.Height() {
      MulAtLeastN(l.Height(), c.y, l.Width());
    }
  }

  lemma MulAtLeastN(h: nat, y: nat, w: nat)
    requires h <= y
    ensures w * h <= y * w && h * w <= y * w
  {
    assert (y - h) * w >= 0;
  }

  // Every rank is taken.
  ghost function Ranks(l: Layout, cells: set<Cell>): set<nat> {
    set c | c in cells :: Rank(l, c)
  }

  lemma {:induction false} RanksSize(l: Layout, cells: set<Cell>)
    requires forall c :: c in cells ==> InGrid(l, c)
    ensures |Ranks(l, cells)| == |cells|
    decreases |cells|
  {
    if cells == {} {
      assert Ranks(l, cells) == {};
    } else {
      var c :| c in cells;
      RanksSize(l, cells - {c});
      assert Ranks(l, cells) == Ranks(l, cells - {c}) + {Rank(l, c)};
      if Rank(l, c) in Ranks(l, cells - {c}) {
        var e :| e in cells - {c} && Rank(l, e) == Rank(l, c);
        RankInjective(l, c, e);
      }
    }
  }

  ghost function Below(n: nat): set<nat> {
    if n == 0 then {} else Below(n - 1) + {n - 1}
  }

  lemma {:induction false} BelowIs(n: nat)
    ensures |Below(n)| == n && forall v: nat :: v in Below(n) <==> v < n
  {
    if n > 0 {
      BelowIs(n - 1);
    }
  }

  lemma RankSurjective(l: Layout, v: nat) returns (c: Cell)
    requires v < l.Size()
    ensures InGrid(l, c) && Rank(l, c) == v
  {
    var cells := Grid(l.Width(), l.Height());
    RanksSize(l, cells);
    GridSize(l.Width(), l.Height());
    SizeIs(l);
    BelowIs(l.Size());
    forall r | r in Ranks(l, cells)
      ensures r in Below(l.Size())
    {
      var e :| e in cells && Rank(l, e) == r;
      RankBound(l, e);
    }
    SubsetSize(Ranks(l, cells), Below(l.Size()));
    assert Below(l.Size()) - Ranks(l, cells) == {};
    assert v in Below(l.Size()) && v in Ranks(l, cells);
    c :| c in cells && Rank(l, c) == v;
  }

  // ---------------------------------------------------------------------
  // The walk.

  lemma {:induction false} ShlScale(a: nat, q: nat, k: nat)
    ensures Shl(a * q, k) == a * Shl(q, k)
  {
    if k > 0 {
      ShlScale(a, q, k - 1);
    }
  }

  // Where the walk stands on diagonal d, in the square.
  function WalkX(d: nat, key: nat): nat
    requires key <= d
  {
    if d % 2 == 0 then key else d - key
  }

  lemma WalkCell(l: Layout, d: nat, key: nat)
    requires key <= d && WalkX(d, key) < l.Width() && d - WalkX(d, key) < l.Width()
    requires LowBits(d - WalkX(d, key), l.xss) == 0
    ensures var c := Cell(WalkX(d, key), Shr(d - WalkX(d, key), l.xss));
            InGrid(l, c) && Diagonal(l, c) == d && Key(l, c) == key
  {
    var y := d - WalkX(d, key);
    ShiftMask(y, l.xss);
    ShlScale(BLOCK_DIM, l.cy, l.xss);
    if Shr(y, l.xss) > l.Height() {
      ShlLess(l.Height(), Shr(y, l.xss), l.xss);
    }
  }

  lemma WalkHit(l: Layout, d: nat, key: nat, c: Cell)
    requires InGrid(l, c) && Diagonal(l, c) == d && Key(l, c) == key
    ensures !IsLlf(l, c) ==> Walked(l, d, key + 1) == Walked(l, d, key) + {c} && c !in Walked(l, d, key)
    ensures IsLlf(l, c) ==> Walked(l, d, key + 1) == Walked(l, d, key)
  {
    forall e | InGrid(l, e) && Before(l, e, d, key + 1) && !Before(l, e, d, key)
      ensures e == c
    {
      KeyInjective(l, c, e);
    }
  }

  // Rows of the square between the block's rows hold no cell.
  lemma WalkMiss(l: Layout, d: nat, key: nat, e: Cell)
    requires key <= d && LowBits(d - WalkX(d, key), l.xss) != 0
    ensures !(Diagonal(l, e) == d && Key(l, e) == key)
  {
    ShiftMaskUnique(e.y, 0, l.xss);
  }

  lemma KeyRange(l: Layout, c: Cell)
    requires InGrid(l, c)
    ensures Key(l, c) <= Diagonal(l, c) && Key(l, c) < l.Width() && Diagonal(l, c) - Key(l, c) < l.Width()
    ensures Diagonal(l, c) < 2 * l.Width()
    ensures IsLlf(l, c) ==> Diagonal(l, c) < l.Width()
  {
    ShlScale(BLOCK_DIM, l.cy, l.xss);
    ShlLess(c.y, l.Height(), l.xss);
    if IsLlf(l, c) {
      ShlLess(c.y, l.cy, l.xss);
    }
  }

  // What the two template forms write for a cell: the order maps ranks to
  // positions, the lookup table positions to ranks.
  ghost function Slot(l: Layout, isLut: bool, c: Cell): nat {
    if isLut then Pos(l, c) else Rank(l, c)
  }

  lemma SlotBound(l: Layout, isLut: bool, c: Cell)
    requires InGrid(l, c)
    ensures Slot(l, isLut, c) < l.Size()
  {
    RankBound(l, c);
    PosBound(l, c);
  }

  lemma SlotInjective(l: Layout, isLut: bool, c: Cell, e: Cell)
    requires InGrid(l, c) && InGrid(l, e) && Slot(l, isLut, c) == Slot(l, isLut, e)
    ensures c == e
  {
    if isLut {
      PosInjective(l, c, e);
    } else {
      RankInjective(l, c, e);
    }
  }

  ghost predicate Written(l: Layout, isLut: bool, out: seq<nat>, c: Cell) {
    Slot(l, isLut, c) < |out| && out[Slot(l, isLut, c)] == Slot(l, !isLut, c)
  }

  ghost predicate Progress(l: Layout, isLut: bool, out: seq<nat>, cur: nat, d: nat, key: nat) {
    && |out| >= l.Size()
    && cur == l.Llf() + |Walked(l, d, key)|
    && forall c | InGrid(l, c) && Before(l, c, d, key) :: Written(l, isLut, out, c)
  }

  // Writing one cell's entry keeps the others.
  lemma StoreKeeps(l: Layout, isLut: bool, out: seq<nat>, c: Cell, e: Cell)
    requires InGrid(l, c) && InGrid(l, e) && Slot(l, isLut, c) < |out|
    requires e == c || Written(l, isLut, out, e)
    ensures Written(l, isLut, out[Slot(l, isLut, c) := Slot(l, !isLut, c)], e)
  {
    hide Slot;
    if e != c && Slot(l, isLut, c) == Slot(l, isLut, e) {
      SlotInjective(l, isLut, c, e);
    }
  }

  lemma VisitRank(l: Layout, d: nat, key: nat, c: Cell)
    requires InGrid(l, c) && Diagonal(l, c) == d && Key(l, c) == key
    ensures Rank(l, c) == if IsLlf(l, c) then c.y * l.Cx() + c.x else l.Llf() + |Walked(l, d, key)|
    ensures |Walked(l, d, key + 1)| == |Walked(l, d, key)| + (if IsLlf(l, c) then 0 else 1)
  {
    WalkHit(l, d, key, c);
  }

  // One step of the walk that meets cell c.
  lemma Visit(l: Layout, isLut: bool, out: seq<nat>, cur: nat, d: nat, key: nat, c: Cell)
    requires Progress(l, isLut, out, cur, d, key)
    requires InGrid(l, c) && Diagonal(l, c) == d && Key(l, c) == key
    ensures Slot(l, isLut, c) < |out|
    ensures Rank(l, c) == if IsLlf(l, c) then c.y * l.Cx() + c.x else cur
    ensures Progress(l, isLut, out[Slot(l, isLut, c) := Slot(l, !isLut, c)],
                     if IsLlf(l, c) then cur else cur + 1, d, key + 1)
  {
    VisitRank(l, d, key, c);
    SlotBound(l, isLut, c);
    var out' := out[Slot(l, isLut, c) := Slot(l, !isLut, c)];
    hide Written, Slot, Rank, Walked;
    forall e | InGrid(l, e) && Before(l, e, d, key + 1)
      ensures Written(l, isLut, out', e)
    {
      if !Before(l, e, d, key) {
        KeyInjective(l, c, e);
      }
      StoreKeeps(l, isLut, out, c, e);
    }
  }

  lemma SameWalk(l: Layout, isLut: bool, out: seq<nat>, cur: nat, d: nat, key: nat, d': nat, key': nat)
    requires Progress(l, isLut, out, cur, d, key)
    requires forall c | InGrid(l, c) :: Before(l, c, d, key) <==> Before(l, c, d', key')
    ensures Progress(l, isLut, out, cur, d', key')
  {
    assert Walked(l, d, key) == Walked(l, d', key') by {
      forall x: nat, y: nat | x < l.Width() && y < l.Height()
        ensures Before(l, Cell(x, y), d, key) <==> Before(l, Cell(x, y), d', key')
      {
        assert InGrid(l, Cell(x, y));
      }
    }
  }

  lemma Miss(l: Layout, isLut: bool, out: seq<nat>, cur: nat, d: nat, key: nat)
    requires Progress(l, isLut, out, cur, d, key)
    requires key <= d && LowBits(d - WalkX(d, key), l.xss) != 0
    ensures Progress(l, isLut, out, cur, d, key + 1)
  {
    forall c | InGrid(l, c)
      ensures Before(l, c, d, key) <==> Before(l, c, d, key + 1)
    {
      WalkMiss(l, d, key, c);
    }
    SameWalk(l, isLut, out, cur, d, key, d, key + 1);
  }

  // The end of a diagonal is the start of the next.
  lemma NextDiagonal(l: Layout, isLut: bool, out: seq<nat>, cur: nat, d: nat, key: nat, key': nat)
    requires Progress(l, isLut, out, cur, d, key)
    requires (key > d || key >= l.Width()) && (key' == 0 || key' + l.Width() <= d + 2)
    ensures Progress(l, isLut, out, cur, d + 1, key')
  {
    forall c | InGrid(l, c)
      ensures Before(l, c, d, key) <==> Before(l, c, d + 1, key')
    {
      KeyRange(l, c);
    }
    SameWalk(l, isLut, out, cur, d, key, d + 1, key');
  }

  // The order (or its lookup table) is complete.
  ghost predicate Complete(l: Layout, isLut: bool, out: seq<nat>) {
    forall c | InGrid(l, c) :: Written(l, isLut, out, c)
  }

  lemma WalkStart(l: Layout, isLut: bool, out: seq<nat>)
    requires |out| >= l.Size()
    ensures Progress(l, isLut, out, l.Llf(), 0, 0)
  {
    assert Walked(l, 0, 0) == {};
  }

  lemma WalkEnd(l: Layout, isLut: bool, out: seq<nat>, cur: nat)
    requires l.cy > 0 && l.Width() > 0 && Progress(l, isLut, out, cur, 2 * l.Width() - 1, 0)
    ensures Complete(l, isLut, out) && cur == l.Size()
  {
    AllWalked(l);
    hide Written, Walked, HighCells;
    forall c | InGrid(l, c)
      ensures Before(l, c, 2 * l.Width() - 1, 0)
    {
      KeyRange(l, c);
    }
    HighSize(l);
  }

  lemma AllWalked(l: Layout)
    requires l.Width() > 0
    ensures Walked(l, 2 * l.Width() - 1, 0) == HighCells(l)
  {
    var d: nat := 2 * l.Width() - 1;
    forall c | c in HighCells(l)
      ensures c in Walked(l, d, 0)
    {
      KeyRange(l, c);
    }
  }

  lemma RatioIs(cx: nat, cy: nat, k: nat)
    requires cy > 0 && cx == Shl(cy, k)
    ensures cx / cy == Pow2(k) && CeilLog2(Pow2(k)) == k
  {
    ShlIsProduct(cy, k);
    assert cx == Pow2(k) * cy + 0;
    DivIs(cx, Pow2(k), cy, 0);
    CeilLog2Of(k);
  }

  lemma {:induction false} CeilLog2Of(k: nat)
    ensures CeilLog2(Pow2(k)) == k
  {
    if k > 0 {
      CeilLog2Of(k - 1);
      assert (Pow2(k) + 1) / 2 == Pow2(k - 1);
    }
  }

  lemma PositiveWidth(l: Layout)
    requires l.cy > 0
    ensures l.Width() > 0
  {
    ShlLess(0, l.cy, l.xss);
  }

  // What lies behind the order is not touched.
  ghost predicate TailSame(l: Layout, a: seq<nat>, b: seq<nat>) {
    |a| == |b| && forall p :: l.Size() <= p < |a| ==> a[p] == b[p]
  }

  // The body of both inner loops, at a point of the square. Only the first
  // half looks for the lowest frequencies.
  method VisitPoint(isLut: bool, cx: nat, cy: nat, xss: nat, firstHalf: bool, x: nat, y0: nat, cur0: nat,
                    out: array<nat>, ghost d: nat, ghost key: nat)
    returns (cur: nat)
    requires cx == Shl(cy, xss) && (d < cx * BLOCK_DIM ==> firstHalf)
    requires key <= d && x == WalkX(d, key) < cx * BLOCK_DIM && y0 == d - x < cx * BLOCK_DIM
    requires Progress(Layout(cy, xss), isLut, out[..], cur0, d, key)
    modifies out
    ensures Progress(Layout(cy, xss), isLut, out[..], cur, d, key + 1)
    ensures TailSame(Layout(cy, xss), out[..], old(out[..]))
  {
    hide Progress, Walked;
    cur := cur0;
    ghost var l, before := Layout(cy, xss), out[..];
    if LowBits(y0, xss) != 0 {
      Miss(l, isLut, out[..], cur, d, key);
      return;
    }
    WalkCell(l, d, key);
    var y := Shr(y0, xss);
    ghost var c := Cell(x, y);
    Visit(l, isLut, before, cur, d, key, c);
    SlotBound(l, isLut, c);
    KeyRange(l, c);
    var val := 0;
    if firstHalf && x < cx && y < cy {
      val := y * cx + x;
    } else {
      val := cur;
      cur := cur + 1;
    }
    if isLut {
      out[y * (cx * BLOCK_DIM) + x] := val;
    } else {
      out[val] := y * (cx * BLOCK_DIM) + x;
    }
    assert out[..] == before[Slot(l, isLut, c) := Slot(l, !isLut, c)];
  }

  // Diagonal i of the first half, from its start to its end.
  method FirstDiagonal(isLut: bool, cx: nat, cy: nat, xss: nat, i: nat, cur0: nat, out: array<nat>)
    returns (cur: nat)
    requires cx == Shl(cy, xss) && i < cx * BLOCK_DIM
    requires Progress(Layout(cy, xss), isLut, out[..], cur0, i, 0)
    modifies out
    ensures Progress(Layout(cy, xss), isLut, out[..], cur, i, i + 1)
    ensures TailSame(Layout(cy, xss), out[..], old(out[..]))
  {
    hide Progress;
    cur := cur0;
    for j: nat := 0 to i + 1
      invariant Progress(Layout(cy, xss), isLut, out[..], cur, i, j)
      invariant TailSame(Layout(cy, xss), out[..], old(out[..]))
    {
      var x: nat, y: nat := j, i - j;
      if i % 2 == 1 {
        x, y := y, x;
      }
      cur := VisitPoint(isLut, cx, cy, xss, true, x, y, cur, out, i, j);
    }
  }

  lemma SecondPoint(m: nat, i: nat, j: nat, d: nat)
    requires j <= i && i + 1 < m && d == 2 * m - 2 - i
    ensures m - 1 - i + j <= d
    ensures WalkX(d, m - 1 - i + j) == if i % 2 == 1 then m - 1 - j else m - 1 - (i - j)
    ensures d - WalkX(d, m - 1 - i + j) == if i % 2 == 1 then m - 1 - (i - j) else m - 1 - j
  {
  }

  // The diagonal of the second half that mirrors diagonal i.
  method SecondDiagonal(isLut: bool, cx: nat, cy: nat, xss: nat, i: nat, cur0: nat, out: array<nat>,
                        ghost d: nat)
    returns (cur: nat)
    requires cx == Shl(cy, xss) && i + 1 < cx * BLOCK_DIM && d == 2 * (cx * BLOCK_DIM) - 2 - i
    requires Progress(Layout(cy, xss), isLut, out[..], cur0, d, cx * BLOCK_DIM - 1 - i)
    modifies out
    ensures Progress(Layout(cy, xss), isLut, out[..], cur, d, cx * BLOCK_DIM)
    ensures TailSame(Layout(cy, xss), out[..], old(out[..]))
  {
    hide Progress, WalkX;
    cur := cur0;
    var m := cx * BLOCK_DIM;
    for j: nat := 0 to i + 1
      invariant Progress(Layout(cy, xss), isLut, out[..], cur, d, m - 1 - i + j)
      invariant TailSame(Layout(cy, xss), out[..], old(out[..]))
    {
      var x: nat, y: nat := m - 1 - (i - j), m - 1 - j;
      if i % 2 == 1 {
        x, y := y, x;
      }
      SecondPoint(m, i, j, d);
      cur := VisitPoint(isLut, cx, cy, xss, false, x, y, cur, out, d, m - 1 - i + j);
    }
  }

  // Writes the natural order, or its lookup table, for a block of cx by cy
  // blocks with cx / cy a power of two (the exponent is the ghost parameter).
  method CoeffOrderAndLut(isLut: bool, cx: nat, cy: nat, ghost k: nat, out: array<nat>)
    requires cy > 0 && cx == Shl(cy, k) && out.Length >= Layout(cy, k).Size()
    modifies out
    ensures Complete(Layout(cy, k), isLut, out[..])
    ensures TailSame(Layout(cy, k), out[..], old(out[..]))
  {
    hide Complete, Progress, Walked;
    var xs := cx / cy;
    RatioIs(cx, cy, k);
    var xss := CeilLog2(xs);
    ghost var l, before := Layout(cy, k), out[..];
    var m := cx * BLOCK_DIM;
    PositiveWidth(l);
    var cur: nat := cx * cy;
    WalkStart(l, isLut, out[..]);
    for i: nat := 0 to m
      invariant Progress(l, isLut, out[..], cur, i, 0)
      invariant TailSame(l, out[..], before)
    {
      cur := FirstDiagonal(isLut, cx, cy, xss, i, cur, out);
      NextDiagonal(l, isLut, out[..], cur, i, i + 1, 0);
    }
    HalfWay(l, isLut, out[..], cur);
    var ip: nat := m - 1;
    while ip > 0
      invariant ip < m
      invariant Progress(l, isLut, out[..], cur, 2 * m - 1 - ip, m - ip)
      invariant TailSame(l, out[..], before)
    {
      ghost var d: nat := 2 * m - 1 - ip;
      cur := SecondDiagonal(isLut, cx, cy, xss, ip - 1, cur, out, d);
      NextDiagonal(l, isLut, out[..], cur, d, m, m - (ip - 1));
      ip := ip - 1;
    }
    LastDiagonal(l, isLut, out[..], cur);
    WalkEnd(l, isLut, out[..], cur);
  }

  lemma HalfWay(l: Layout, isLut: bool, out: seq<nat>, cur: nat)
    requires Progress(l, isLut, out, cur, l.Width(), 0)
    ensures Progress(l, isLut, out, cur, l.Width(), 1)
  {
    forall c | InGrid(l, c)
      ensures Before(l, c, l.Width(), 0) <==> Before(l, c, l.Width(), 1)
    {
      KeyRange(l, c);
    }
    SameWalk(l, isLut, out, cur, l.Width(), 0, l.Width(), 1);
  }

  lemma LastDiagonal(l: Layout, isLut: bool, out: seq<nat>, cur: nat)
    requires l.Width() > 0 && Progress(l, isLut, out, cur, 2 * l.Width() - 1, l.Width())
    ensures Progress(l, isLut, out, cur, 2 * l.Width() - 1, 0)
  {
    forall c | InGrid(l, c)
      ensures Before(l, c, 2 * l.Width() - 1, l.Width()) <==> Before(l, c, 2 * l.Width() - 1, 0)
    {
      KeyRange(l, c);
    }
    SameWalk(l, isLut, out, cur, 2 * l.Width() - 1, l.Width(), 2 * l.Width() - 1, 0);
  }

  // ---------------------------------------------------------------------
  // What the finished orders are.

  // Entry (x, y) of the raster of lowest frequencies.
  ghost predicate LlfAt(l: Layout, order: seq<nat>, x: nat, y: nat) {
    y * l.Cx() + x < |order| && order[y * l.Cx() + x] == Pos(l, Cell(x, y))
  }

  // The order is a permutation of [0, size) that starts with the lowest
  // frequencies in raster order.
  lemma NaturalOrderIsPermutation(l: Layout, order: seq<nat>)
    requires |order| == l.Size() && Complete(l, false, order)
    ensures IsPermutation(l.Size(), order)
    ensures forall x: nat, y: nat | x < l.Cx() && y < l.cy :: LlfAt(l, order, x, y)
  {
    forall u: nat | u < l.Size()
      ensures order[u] < l.Size() && forall v: nat | u < v < l.Size() :: order[u] != order[v]
    {
      var c := RankSurjective(l, u);
      assert Written(l, false, order, c);
      PosBound(l, c);
      forall v: nat | u < v < l.Size()
        ensures order[u] != order[v]
      {
        var e := RankSurjective(l, v);
        assert Written(l, false, order, e);
        if order[u] == order[v] {
          PosInjective(l, c, e);
        }
      }
    }
    forall x: nat, y: nat | x < l.Cx() && y < l.cy
      ensures LlfAt(l, order, x, y)
    {
      var c := Cell(x, y);
      LlfBound(l, c);
      assert Written(l, false, order, c);
    }
  }

  // The order and its lookup table are inverse to each other.
  lemma OrderAndLutAreInverse(l: Layout, order: seq<nat>, lut: seq<nat>, v: nat)
    requires l.Size() <= |order| && l.Size() <= |lut| && v < l.Size()
    requires Complete(l, false, order) && Complete(l, true, lut)
    ensures order[v] < l.Size() && lut[order[v]] == v
    ensures lut[v] < l.Size() && order[lut[v]] == v
  {
    var c := RankSurjective(l, v);
    PosBound(l, c);
    assert Written(l, false, order, c) && Written(l, true, lut, c);
    CellAtPos(l, v);
    var e := CellAt(l, v);
    RankBound(l, e);
    assert Written(l, false, order, e) && Written(l, true, lut, e);
  }
}
