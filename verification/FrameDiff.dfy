// Exact differences between frames: jxlpy/multiframe.py.
module FrameDiff {

  // Samples of the main image and of each extra channel, at one position.
  datatype Pixel = Pixel(main: seq<real>, extras: seq<real>)

  datatype Shape = Shape(height: nat, width: nat, channels: nat, extras: nat)

  datatype Frame = Frame(shape: Shape, rows: seq<seq<Pixel>>) {
    predicate Valid() {
      && |rows| == shape.height
      && (forall y: nat | y < |rows| :: |rows[y]| == shape.width)
      && forall y: nat, x: nat | y < |rows| && x < shape.width :: PixelFits(rows[y][x], shape)
    }
  }

  predicate PixelFits(p: Pixel, shape: Shape) {
    |p.main| == shape.channels && |p.extras| == shape.extras
  }

  datatype Result<T> = Ok(value: T) | ValueError

  type Mask = seq<seq<bool>>

  // The pixels in which two frames of one shape differ.
  function Changed(current: Frame, reference: Frame): (mask: Mask)
    requires current.Valid() && reference.Valid() && current.shape == reference.shape
    ensures |mask| == current.shape.height && forall y: nat | y < |mask| :: |mask[y]| == current.shape.width
  {
    seq(current.shape.height, y requires 0 <= y < current.shape.height =>
      seq(current.shape.width, x requires 0 <= x < current.shape.width => current.rows[y][x] != reference.rows[y][x]))
  }

  // The arrays that the encoder works on: a main image, and a plane for each
  // extra channel. Their sizes are their own.
  datatype Image = Image(height: nat, width: nat, channels: nat, rows: seq<seq<seq<real>>>) {
    predicate Valid() {
      && |rows| == height && (forall y: nat | y < |rows| :: |rows[y]| == width)
      && forall y: nat, x: nat | y < |rows| && x < width :: |rows[y][x]| == channels
    }

    predicate SameShape(other: Image) { height == other.height && width == other.width && channels == other.channels }
  }

  datatype Plane = Plane(height: nat, width: nat, rows: seq<seq<real>>) {
    predicate Valid() { |rows| == height && forall y: nat | y < |rows| :: |rows[y]| == width }
    predicate Covers(image: Image) { height == image.height && width == image.width }
  }

  ghost predicate AllValid(planes: seq<Plane>) {
    forall e: nat | e < |planes| :: planes[e].Valid()
  }

  predicate AllCover(planes: seq<Plane>, image: Image) {
    forall e: nat | e < |planes| :: planes[e].Covers(image)
  }

  // A frame holds the samples of all of them at each pixel.
  function ExtrasAt(planes: seq<Plane>, y: nat, x: nat): seq<real>
    requires forall e: nat | e < |planes| :: y < |planes[e].rows| && x < |planes[e].rows[y]|
  {
    seq(|planes|, e requires 0 <= e < |planes| => planes[e].rows[y][x])
  }

  ghost function Joined(image: Image, planes: seq<Plane>): (f: Frame)
    requires image.Valid() && AllValid(planes) && AllCover(planes, image)
    ensures f.Valid() && f.shape == Shape(image.height, image.width, image.channels, |planes|)
  {
    Frame(Shape(image.height, image.width, image.channels, |planes|),
          seq(image.height, y requires 0 <= y < image.height => seq(image.width, x requires 0 <= x < image.width =>
            Pixel(image.rows[y][x], ExtrasAt(planes, y, x)))))
  }

  ghost predicate OneCanvas(current: Image, reference: Image, currentExtras: seq<Plane>, referenceExtras: seq<Plane>) {
    && current.SameShape(reference) && |currentExtras| == |referenceExtras|
    && AllCover(currentExtras, current) && AllCover(referenceExtras, reference)
  }

  // Whether the main samples or a sample of one of the first n planes differ.
  ghost predicate DiffersUpTo(current: Image, reference: Image, ps: seq<Plane>, qs: seq<Plane>, n: nat, y: nat, x: nat)
    requires current.Valid() && reference.Valid() && AllValid(ps) && AllValid(qs) && n <= |ps| == |qs|
    requires current.SameShape(reference) && AllCover(ps[..n], current) && AllCover(qs[..n], current)
    requires y < current.height && x < current.width
  {
    || current.rows[y][x] != reference.rows[y][x]
    || exists e: nat :: e < n && ps[..n][e].rows[y][x] != qs[..n][e].rows[y][x]
  }

  ghost predicate IsMaskUpTo(mask: Mask, current: Image, reference: Image, ps: seq<Plane>, qs: seq<Plane>, n: nat)
    requires current.Valid() && reference.Valid() && AllValid(ps) && AllValid(qs) && n <= |ps| == |qs|
    requires current.SameShape(reference) && AllCover(ps[..n], current) && AllCover(qs[..n], current)
  {
    && |mask| == current.height && (forall y: nat | y < |mask| :: |mask[y]| == current.width)
    && forall y: nat, x: nat | y < |mask| && x < current.width ::
         mask[y][x] == DiffersUpTo(current, reference, ps, qs, n, y, x)
  }

  // One channel after the other; together they tell exactly which pixels
  // changed. Refuses arrays of different sizes.
  method ChangedMask(current: Image, reference: Image, currentExtras: seq<Plane>, referenceExtras: seq<Plane>)
    returns (r: Result<Mask>)
    requires current.Valid() && reference.Valid() && AllValid(currentExtras) && AllValid(referenceExtras)
    ensures r.Ok? <==> OneCanvas(current, reference, currentExtras, referenceExtras)
    ensures r.Ok? ==> r.value == Changed(Joined(current, currentExtras), Joined(reference, referenceExtras))
  {
    if !current.SameShape(reference) || |currentExtras| != |referenceExtras| {
      return ValueError;
    }
    hide DiffersUpTo, AllValid;
    var mask: Mask := MainMask(current, reference, currentExtras, referenceExtras);
    for e := 0 to |currentExtras|
      invariant AllCover(currentExtras[..e], current) && AllCover(referenceExtras[..e], current)
      invariant IsMaskUpTo(mask, current, reference, currentExtras, referenceExtras, e)
    {
      var p, q := currentExtras[e], referenceExtras[e];
      if p.height != q.height || p.width != q.width || !p.Covers(current) {
        return ValueError;
      }
      OneMoreCovers(currentExtras, current, e);
      OneMoreCovers(referenceExtras, current, e);
      mask := OrPlane(mask, current, reference, currentExtras, referenceExtras, e);
    }
    assert currentExtras[..|currentExtras|] == currentExtras && referenceExtras[..|referenceExtras|] == referenceExtras;
    MaskIsChanged(mask, current, reference, currentExtras, referenceExtras);
    return Ok(mask);
  }

  function MainMask(current: Image, reference: Image, ps: seq<Plane>, qs: seq<Plane>): (mask: Mask)
    requires current.Valid() && reference.Valid() && current.SameShape(reference) && |ps| == |qs|
    requires AllValid(ps) && AllValid(qs)
    ensures IsMaskUpTo(mask, current, reference, ps, qs, 0)
  {
    seq(current.height, y requires 0 <= y < current.height =>
      seq(current.width, x requires 0 <= x < current.width => current.rows[y][x] != reference.rows[y][x]))
  }

  lemma OneMoreCovers(planes: seq<Plane>, image: Image, e: nat)
    requires e < |planes| && AllCover(planes[..e], image) && planes[e].Covers(image)
    ensures AllCover(planes[..e + 1], image)
  {
    var more := planes[..e + 1];
    forall j: nat | j < |more|
      ensures more[j].Covers(image)
    {
      assert j < e ==> planes[..e][j] == planes[j];
    }
  }

  function OrPlane(mask: Mask, current: Image, reference: Image, ps: seq<Plane>, qs: seq<Plane>, e: nat): (r: Mask)
    requires current.Valid() && reference.Valid() && AllValid(ps) && AllValid(qs) && e < |ps| == |qs|
    requires current.SameShape(reference) && AllCover(ps[..e], current) && AllCover(qs[..e], current)
    requires AllCover(ps[..e + 1], current) && AllCover(qs[..e + 1], current)
    requires IsMaskUpTo(mask, current, reference, ps, qs, e)
    ensures IsMaskUpTo(r, current, reference, ps, qs, e + 1)
  {
    assert ps[..e + 1][e].Covers(current) && qs[..e + 1][e].Covers(current);
    assert forall y: nat, x: nat | y < |mask| && x < current.width ::
        DiffersUpTo(current, reference, ps, qs, e + 1, y, x)
        == (DiffersUpTo(current, reference, ps, qs, e, y, x) || ps[e].rows[y][x] != qs[e].rows[y][x]) by {
      forall y: nat, x: nat | y < |mask| && x < current.width {
        DiffersStep(current, reference, ps, qs, e, y, x);
      }
    }
    seq(|mask|, y requires 0 <= y < |mask| => seq(current.width, x requires 0 <= x < current.width =>
      mask[y][x] || ps[e].rows[y][x] != qs[e].rows[y][x]))
  }

  lemma DiffersStep(current: Image, reference: Image, ps: seq<Plane>, qs: seq<Plane>, e: nat, y: nat, x: nat)
    requires current.Valid() && reference.Valid() && AllValid(ps) && AllValid(qs) && e < |ps| == |qs|
    requires current.SameShape(reference) && AllCover(ps[..e], current) && AllCover(qs[..e], current)
    requires AllCover(ps[..e + 1], current) && AllCover(qs[..e + 1], current)
    requires y < current.height && x < current.width
    ensures ps[e].Covers(current) && qs[e].Covers(current)
    ensures DiffersUpTo(current, reference, ps, qs, e + 1, y, x)
         == (DiffersUpTo(current, reference, ps, qs, e, y, x) || ps[e].rows[y][x] != qs[e].rows[y][x])
  {
    var n := e + 1;
    assert ps[..n][e] == ps[e] && qs[..n][e] == qs[e];
    assert forall j: nat | j < e :: ps[..n][j] == ps[..e][j] && qs[..n][j] == qs[..e][j];
  }

  lemma MaskIsChanged(mask: Mask, current: Image, reference: Image, ps: seq<Plane>, qs: seq<Plane>)
    requires current.Valid() && reference.Valid() && AllValid(ps) && AllValid(qs) && |ps| == |qs|
    requires current.SameShape(reference) && AllCover(ps, current) && AllCover(qs, current)
    requires ps[..|ps|] == ps && qs[..|qs|] == qs && IsMaskUpTo(mask, current, reference, ps, qs, |ps|)
    ensures mask == Changed(Joined(current, ps), Joined(reference, qs))
  {
    var changed := Changed(Joined(current, ps), Joined(reference, qs));
    forall y: nat, x: nat | y < |mask| && x < current.width
      ensures mask[y][x] == changed[y][x]
    {
      PixelsDiffer(current, reference, ps, qs, y, x);
    }
    forall y: nat | y < |mask|
      ensures mask[y] == changed[y]
    {
    }
  }

  lemma PixelsDiffer(current: Image, reference: Image, ps: seq<Plane>, qs: seq<Plane>, y: nat, x: nat)
    requires current.Valid() && reference.Valid() && AllValid(ps) && AllValid(qs) && |ps| == |qs|
    requires current.SameShape(reference) && AllCover(ps, current) && AllCover(qs, current)
    requires ps[..|ps|] == ps && qs[..|qs|] == qs && y < current.height && x < current.width
    ensures DiffersUpTo(current, reference, ps, qs, |ps|, y, x)
       <==> Joined(current, ps).rows[y][x] != Joined(reference, qs).rows[y][x]
  {
    var xs, ys := ExtrasAt(ps, y, x), ExtrasAt(qs, y, x);
    if xs != ys {
      var e :| 0 <= e < |xs| && xs[e] != ys[e];
      assert ps[..|ps|][e].rows[y][x] != qs[..|qs|][e].rows[y][x];
    } else {
      forall e: nat | e < |ps|
        ensures ps[..|ps|][e].rows[y][x] == qs[..|qs|][e].rows[y][x]
      {
        assert xs[e] == ys[e];
      }
    }
  }

  // ---------------------------------------------------------------------
  // The arrays of a frame.

  function MainOf(f: Frame): (image: Image)
    requires f.Valid()
    ensures image.Valid()
  {
    Image(f.shape.height, f.shape.width, f.shape.channels,
          seq(f.shape.height, y requires 0 <= y < f.shape.height =>
            seq(f.shape.width, x requires 0 <= x < f.shape.width => f.rows[y][x].main)))
  }

  function PlaneOf(f: Frame, e: nat): (plane: Plane)
    requires f.Valid() && e < f.shape.extras
    ensures plane.Valid() && plane.Covers(MainOf(f))
  {
    Plane(f.shape.height, f.shape.width,
          seq(f.shape.height, y requires 0 <= y < f.shape.height =>
            seq(f.shape.width, x requires 0 <= x < f.shape.width => f.rows[y][x].extras[e])))
  }

  function ExtrasOf(f: Frame): (planes: seq<Plane>)
    requires f.Valid()
    ensures |planes| == f.shape.extras && AllValid(planes) && AllCover(planes, MainOf(f))
  {
    seq(f.shape.extras, e requires 0 <= e < f.shape.extras => PlaneOf(f, e))
  }

  lemma JoinedIsFrame(f: Frame)
    requires f.Valid()
    ensures Joined(MainOf(f), ExtrasOf(f)) == f
  {
    var g := Joined(MainOf(f), ExtrasOf(f));
    forall y: nat, x: nat | y < f.shape.height && x < f.shape.width
      ensures g.rows[y][x] == f.rows[y][x]
    {
      assert ExtrasAt(ExtrasOf(f), y, x) == f.rows[y][x].extras;
    }
    forall y: nat | y < f.shape.height
      ensures g.rows[y] == f.rows[y]
    {
    }
  }

  // The mask of two frames.
  method FrameMask(current: Frame, reference: Frame) returns (r: Result<Mask>)
    requires current.Valid() && reference.Valid()
    ensures r.Ok? <==> current.shape == reference.shape
    ensures r.Ok? ==> r.value == Changed(current, reference)
  {
    JoinedIsFrame(current);
    JoinedIsFrame(reference);
    hide AllValid, Joined, Changed;
    r := ChangedMask(MainOf(current), MainOf(reference), ExtrasOf(current), ExtrasOf(reference));
  }

  // ---------------------------------------------------------------------
  // Statistics.

  // Corners: x1 and y1 are exclusive.
  datatype Box = Box(x0: nat, y0: nat, x1: nat, y1: nat)

  datatype DiffStats = DiffStats(bbox: Box, changedPixels: nat, changedPct: real, bboxArea: nat)

  // Indices of the true elements, in order.
  function Flatnonzero(bs: seq<bool>): seq<nat> {
    if bs == [] then []
    else Flatnonzero(bs[..|bs| - 1]) + (if bs[|bs| - 1] then [|bs| - 1] else [])
  }

  function RowHit(row: seq<bool>): bool {
    true in row
  }

  function ColumnHit(mask: Mask, x: nat): bool {
    exists y :: 0 <= y < |mask| && x < |mask[y]| && mask[y][x]
  }

  function RowFlags(mask: Mask): (r: seq<bool>)
    ensures |r| == |mask| && forall y: nat | y < |mask| :: r[y] == RowHit(mask[y])
  {
    seq(|mask|, y requires 0 <= y < |mask| => RowHit(mask[y]))
  }

  function ColumnFlags(mask: Mask, width: nat): (r: seq<bool>)
    ensures |r| == width && forall x: nat | x < width :: r[x] == ColumnHit(mask, x)
  {
    seq(width, x requires 0 <= x < width => ColumnHit(mask, x))
  }

  function CountRow(row: seq<bool>): nat {
    if row == [] then 0 else CountRow(row[..|row| - 1]) + (if row[|row| - 1] then 1 else 0)
  }

  function CountNonzero(mask: Mask): nat {
    if mask == [] then 0 else CountNonzero(mask[..|mask| - 1]) + CountRow(mask[|mask| - 1])
  }

  function Area(box: Box): nat
    requires box.x0 <= box.x1 && box.y0 <= box.y1
  {
    Product(box.x1 - box.x0, box.y1 - box.y0)
  }

  function Product(a: nat, b: nat): nat {
    a * b
  }

  function Percent(part: nat, full: nat): real {
    if full != 0 then part as real / full as real * 100.0 else 0.0
  }

  predicate IsMask(mask: Mask, width: nat) {
    forall y: nat | y < |mask| :: |mask[y]| == width
  }

  function DiffStatsFromMask(mask: Mask, width: nat): (r: DiffStats)
    requires IsMask(mask, width)
    ensures r.bbox.x0 < r.bbox.x1 && r.bbox.y0 < r.bbox.y1 && r.bboxArea == Area(r.bbox)
  {
    var count := CountNonzero(mask);
    var box := BoxOf(mask, width, count);
    DiffStats(box, count, Percent(count, Product(|mask|, width)), Area(box))
  }

  function BoxOf(mask: Mask, width: nat, count: nat): (box: Box)
    requires IsMask(mask, width) && count == CountNonzero(mask)
    ensures box.x0 < box.x1 && box.y0 < box.y1
  {
    if count == 0 then Box(0, 0, 1, 1)
    else
      var rows := Flatnonzero(RowFlags(mask));
      var cols := Flatnonzero(ColumnFlags(mask, width));
      SomethingHit(mask, width);
      assert rows[0] <= rows[|rows| - 1] && cols[0] <= cols[|cols| - 1];
      Box(cols[0], rows[0], cols[|cols| - 1] + 1, rows[|rows| - 1] + 1)
  }

  // The indices are exactly the true positions, in increasing order.
  lemma {:induction false} FlatnonzeroIs(bs: seq<bool>)
    ensures forall i: nat :: i in Flatnonzero(bs) <==> i < |bs| && bs[i]
    ensures forall i: nat, j: nat | i < j < |Flatnonzero(bs)| :: Flatnonzero(bs)[i] < Flatnonzero(bs)[j]
  {
    if bs != [] {
      var last := |bs| - 1;
      FlatnonzeroIs(bs[..last]);
      var f := Flatnonzero(bs[..last]);
      forall i: nat | i < |f|
        ensures f[i] < last
      {
        assert f[i] in f;
      }
    }
  }

  lemma {:induction false} CountRowPositive(row: seq<bool>)
    ensures CountRow(row) > 0 <==> true in row
  {
    if row != [] {
      CountRowPositive(row[..|row| - 1]);
      assert row == row[..|row| - 1] + [row[|row| - 1]];
    }
  }

  lemma {:induction false} CountPositive(mask: Mask)
    ensures CountNonzero(mask) > 0 <==> exists y: nat :: y < |mask| && true in mask[y]
  {
    if mask != [] {
      var last := |mask| - 1;
      CountPositive(mask[..last]);
      CountRowPositive(mask[last]);
      if y: nat :| y < last && true in mask[..last][y] {
        assert true in mask[y];
      }
      if y: nat :| y < |mask| && true in mask[y] && y != last {
        assert true in mask[..last][y];
      }
    }
  }

  lemma SomethingHit(mask: Mask, width: nat)
    requires IsMask(mask, width) && CountNonzero(mask) > 0
    ensures var rows := Flatnonzero(RowFlags(mask));
      rows != [] && rows[0] <= rows[|rows| - 1]
    ensures var cols := Flatnonzero(ColumnFlags(mask, width));
      cols != [] && cols[0] <= cols[|cols| - 1]
  {
    CountPositive(mask);
    var y: nat :| y < |mask| && true in mask[y];
    var x: nat :| x < |mask[y]| && mask[y][x];
    var hitRows := RowFlags(mask);
    var hitCols := ColumnFlags(mask, width);
    FlatnonzeroIs(hitRows);
    FlatnonzeroIs(hitCols);
    assert hitRows[y] && hitCols[x];
    assert y in Flatnonzero(hitRows) && x in Flatnonzero(hitCols);
  }

  predicate Inside(box: Box, x: nat, y: nat) {
    box.x0 <= x < box.x1 && box.y0 <= y < box.y1
  }

  ghost predicate Covers(box: Box, mask: Mask) {
    forall y: nat, x: nat | y < |mask| && x < |mask[y]| && mask[y][x] :: Inside(box, x, y)
  }

  predicate Contains(outer: Box, inner: Box) {
    outer.x0 <= inner.x0 && inner.x1 <= outer.x1 && outer.y0 <= inner.y0 && inner.y1 <= outer.y1
  }

  ghost predicate Blank(mask: Mask) {
    forall y: nat, x: nat | y < |mask| && x < |mask[y]| :: !mask[y][x]
  }

  lemma CountZero(mask: Mask)
    ensures CountNonzero(mask) == 0 <==> Blank(mask)
  {
    CountPositive(mask);
    if y: nat :| y < |mask| && true in mask[y] {
      var x: nat :| x < |mask[y]| && mask[y][x];
    }
    if y: nat, x: nat :| y < |mask| && x < |mask[y]| && mask[y][x] {
      assert true in mask[y];
    }
  }

  lemma EndsAreHits(bs: seq<bool>)
    requires Flatnonzero(bs) != []
    ensures var f := Flatnonzero(bs);
      f[0] < |bs| && f[|f| - 1] < |bs| && bs[f[0]] && bs[f[|f| - 1]]
  {
    FlatnonzeroIs(bs);
    assert Flatnonzero(bs)[0] in Flatnonzero(bs);
  }

  // Each side of the box has a changed pixel, and no changed pixel lies outside.
  lemma BoxRows(mask: Mask, width: nat)
    requires IsMask(mask, width) && CountNonzero(mask) > 0
    ensures var box := BoxOf(mask, width, CountNonzero(mask));
      box.y1 <= |mask| && RowHit(mask[box.y0]) && RowHit(mask[box.y1 - 1])
  {
    hide RowFlags, ColumnFlags, Flatnonzero, CountNonzero, RowHit, IsMask;
    SomethingHit(mask, width);
    EndsAreHits(RowFlags(mask));
  }

  lemma BoxColumns(mask: Mask, width: nat)
    requires IsMask(mask, width) && CountNonzero(mask) > 0
    ensures var box := BoxOf(mask, width, CountNonzero(mask));
      box.x1 <= width && ColumnHit(mask, box.x0) && ColumnHit(mask, box.x1 - 1)
  {
    hide RowFlags, ColumnFlags, Flatnonzero, CountNonzero, ColumnHit, IsMask;
    SomethingHit(mask, width);
    EndsAreHits(ColumnFlags(mask, width));
  }

  lemma BoxCovers(mask: Mask, width: nat)
    requires IsMask(mask, width) && CountNonzero(mask) > 0
    ensures Covers(BoxOf(mask, width, CountNonzero(mask)), mask)
  {
    hide BoxOf, CountNonzero, Inside;
    forall y: nat, x: nat | y < |mask| && x < |mask[y]| && mask[y][x]
      ensures Inside(BoxOf(mask, width, CountNonzero(mask)), x, y)
    {
      HitInside(mask, width, y, x);
    }
  }

  lemma HitInside(mask: Mask, width: nat, y: nat, x: nat)
    requires IsMask(mask, width) && CountNonzero(mask) > 0 && y < |mask| && x < |mask[y]| && mask[y][x]
    ensures Inside(BoxOf(mask, width, CountNonzero(mask)), x, y)
  {
    hide RowFlags, ColumnFlags, Flatnonzero, CountNonzero, RowHit, ColumnHit;
    var rows, cols := Flatnonzero(RowFlags(mask)), Flatnonzero(ColumnFlags(mask, width));
    FlatnonzeroIs(RowFlags(mask));
    FlatnonzeroIs(ColumnFlags(mask, width));
    Hit(mask, y, x);
    assert RowFlags(mask)[y] && ColumnFlags(mask, width)[x];
    FirstToLast(rows, y);
    FirstToLast(cols, x);
  }

  lemma FirstToLast(s: seq<nat>, k: nat)
    requires k in s && forall i: nat, j: nat | i < j < |s| :: s[i] < s[j]
    ensures s[0] <= k <= s[|s| - 1]
  {
  }

  lemma Hit(mask: Mask, y: nat, x: nat)
    requires y < |mask| && x < |mask[y]| && mask[y][x]
    ensures RowHit(mask[y]) && ColumnHit(mask, x)
  {
  }

  // The box holds every change, stays on the canvas, and is the least such box.
  lemma BoxIsTight(mask: Mask, width: nat, outer: Box)
    requires IsMask(mask, width)
    ensures var r := DiffStatsFromMask(mask, width);
      && (r.changedPixels == 0 <==> Blank(mask)) && Covers(r.bbox, mask)
      && (r.changedPixels == 0 ==> r.bbox == Box(0, 0, 1, 1))
      && (r.changedPixels > 0 ==> r.bbox.x1 <= width && r.bbox.y1 <= |mask|)
      && (r.changedPixels > 0 && Covers(outer, mask) ==> Contains(outer, r.bbox))
  {
    CountZero(mask);
    if CountNonzero(mask) > 0 {
      BoxRows(mask, width);
      BoxColumns(mask, width);
      BoxCovers(mask, width);
      var box := BoxOf(mask, width, CountNonzero(mask));
      if Covers(outer, mask) {
        RowInside(mask, box.y0, outer);
        RowInside(mask, box.y1 - 1, outer);
        ColumnInside(mask, box.x0, outer);
        ColumnInside(mask, box.x1 - 1, outer);
      }
    }
  }

  lemma RowInside(mask: Mask, y: nat, outer: Box)
    requires y < |mask| && RowHit(mask[y]) && Covers(outer, mask)
    ensures outer.y0 <= y < outer.y1
  {
    var x: nat :| x < |mask[y]| && mask[y][x];
    assert Inside(outer, x, y);
  }

  lemma ColumnInside(mask: Mask, x: nat, outer: Box)
    requires ColumnHit(mask, x) && Covers(outer, mask)
    ensures outer.x0 <= x < outer.x1
  {
    var y: nat :| y < |mask| && x < |mask[y]| && mask[y][x];
    assert Inside(outer, x, y);
  }

  // On a canvas with pixels, no box is larger than the canvas.
  lemma AreaFits(mask: Mask, width: nat)
    requires IsMask(mask, width) && Product(|mask|, width) > 0
    ensures DiffStatsFromMask(mask, width).bboxArea <= Product(|mask|, width)
  {
    hide Product, BoxOf, CountNonzero;
    var box := DiffStatsFromMask(mask, width).bbox;
    BoxIsTight(mask, width, box);
    ProductFits(box.x1 - box.x0, box.y1 - box.y0, width, |mask|);
  }

  lemma ProductFits(a: nat, b: nat, c: nat, d: nat)
    requires Product(d, c) > 0 && ((a <= c && b <= d) || a == b == 1)
    ensures Product(a, b) <= Product(d, c)
  {
    if a == b == 1 {
    } else {
      assert a * b <= c * b <= c * d;
    }
  }

  // What a frame differs in, as the encoder and the analyzer measure it.
  function Stats(current: Frame, reference: Frame): (r: DiffStats)
    requires current.Valid() && reference.Valid() && current.shape == reference.shape
    ensures r.bbox.x0 < r.bbox.x1 && r.bbox.y0 < r.bbox.y1 && r.bboxArea == Area(r.bbox)
  {
    DiffStatsFromMask(Changed(current, reference), current.shape.width)
  }

  // ---------------------------------------------------------------------
  // What is counted: positions.

  ghost function RowHits(row: seq<bool>, y: nat): set<(nat, nat)> {
    set x: nat | x < |row| && row[x] :: (y, x)
  }

  ghost function Hits(mask: Mask): set<(nat, nat)> {
    set y: nat, x: nat | y < |mask| && x < |mask[y]| && mask[y][x] :: (y, x)
  }

  lemma {:induction false} CountRowIs(row: seq<bool>, y: nat)
    ensures CountRow(row) == |RowHits(row, y)|
  {
    if row == [] {
      assert RowHits(row, y) == {};
    } else {
      var last: nat := |row| - 1;
      CountRowIs(row[..last], y);
      assert RowHits(row, y) == RowHits(row[..last], y) + (if row[last] then {(y, last)} else {});
    }
  }

  // The count is the number of true positions.
  lemma {:induction false} CountIs(mask: Mask)
    ensures CountNonzero(mask) == |Hits(mask)|
  {
    if mask == [] {
      assert Hits(mask) == {};
    } else {
      var last: nat := |mask| - 1;
      CountIs(mask[..last]);
      CountRowIs(mask[last], last);
      assert Hits(mask) == Hits(mask[..last]) + RowHits(mask[last], last);
      assert Hits(mask[..last]) !! RowHits(mask[last], last);
    }
  }

  lemma {:induction false} SubsetSize(a: set<(nat, nat)>, b: set<(nat, nat)>)
    requires a <= b
    ensures |a| <= |b|
  {
    assert b == a + (b - a);
  }

  ghost function Positions(box: Box): set<(nat, nat)> {
    set y: nat, x: nat | y < box.y1 && x < box.x1 && Inside(box, x, y) :: (y, x)
  }

  lemma {:induction false} RowSize(y: nat, x0: nat, x1: nat)
    requires x0 <= x1
    ensures |Positions(Box(x0, y, x1, y + 1))| == x1 - x0
    decreases x1
  {
    var row := Positions(Box(x0, y, x1, y + 1));
    if x0 == x1 {
      assert row == {};
    } else {
      RowSize(y, x0, x1 - 1);
      assert row == Positions(Box(x0, y, x1 - 1, y + 1)) + {(y, x1 - 1)};
    }
  }

  lemma LastRow(box: Box, above: Box, row: Box)
    requires box.y0 < box.y1 && above == box.(y1 := box.y1 - 1) && row == box.(y0 := box.y1 - 1)
    ensures Positions(box) == Positions(above) + Positions(row) && Positions(above) !! Positions(row)
  {
    forall p | p in Positions(box)
      ensures p in Positions(above) || p in Positions(row)
    {
    }
  }

  lemma LastRowArea(box: Box)
    requires box.x0 <= box.x1 && box.y0 < box.y1
    ensures Area(box) == Area(box.(y1 := box.y1 - 1)) + (box.x1 - box.x0)
  {
    var w, h := box.x1 - box.x0, box.y1 - box.y0;
    assert w * h == w * (h - 1) + w;
  }

  // The area of a box is the number of its positions.
  lemma {:induction false} AreaIs(box: Box)
    requires box.x0 <= box.x1 && box.y0 <= box.y1
    ensures Area(box) == |Positions(box)|
    decreases box.y1
  {
    if box.y0 == box.y1 {
      assert Positions(box) == {};
    } else {
      hide Positions, Area;
      AreaIs(box.(y1 := box.y1 - 1));
      RowSize(box.y1 - 1, box.x0, box.x1);
      LastRow(box, box.(y1 := box.y1 - 1), box.(y0 := box.y1 - 1));
      LastRowArea(box);
    }
  }

  ghost function Differing(current: Frame, reference: Frame): set<(nat, nat)>
    requires current.Valid() && reference.Valid() && current.shape == reference.shape
  {
    set y: nat, x: nat | y < current.shape.height && x < current.shape.width
                         && current.rows[y][x] != reference.rows[y][x] :: (y, x)
  }

  lemma PercentIs(part: nat, full: nat)
    ensures full > 0 ==> Percent(part, full) * full as real == part as real * 100.0
    ensures full == 0 ==> Percent(part, full) == 0.0
  {
  }

  lemma HitsAreDifferences(current: Frame, reference: Frame)
    requires current.Valid() && reference.Valid() && current.shape == reference.shape
    ensures Hits(Changed(current, reference)) == Differing(current, reference)
  {
  }

  lemma HitsInside(mask: Mask, box: Box)
    requires Covers(box, mask) && box.x0 <= box.x1 && box.y0 <= box.y1
    ensures |Hits(mask)| <= Area(box)
  {
    AreaIs(box);
    SubsetSize(Hits(mask), Positions(box));
  }

  // The number of pixels that differ, as a count and in percent of the canvas;
  // the box has at least as many.
  lemma StatsCount(current: Frame, reference: Frame)
    requires current.Valid() && reference.Valid() && current.shape == reference.shape
    ensures var r, n, full := Stats(current, reference), |Differing(current, reference)|,
                              Product(current.shape.height, current.shape.width);
            && r.changedPixels == n <= r.bboxArea
            && (full > 0 ==> r.changedPct * full as real == n as real * 100.0)
            && (full == 0 ==> r.changedPct == 0.0)
  {
    hide Frame.Valid, Percent, Product, CountNonzero, BoxOf, Area, Changed, Hits, Differing, IsMask, Covers;
    var mask, r := Changed(current, reference), Stats(current, reference);
    MaskOf(current, reference);
    CountIs(mask);
    HitsAreDifferences(current, reference);
    BoxIsTight(mask, current.shape.width, r.bbox);
    HitsInside(mask, r.bbox);
    PercentIs(r.changedPixels, Product(current.shape.height, current.shape.width));
  }

  lemma MaskOf(current: Frame, reference: Frame)
    requires current.Valid() && reference.Valid() && current.shape == reference.shape
    ensures IsMask(Changed(current, reference), current.shape.width)
    ensures |Changed(current, reference)| == current.shape.height
  {
  }
}
