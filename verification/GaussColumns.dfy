// The recursive Gaussian, vertical pass with a ring buffer, and the 2D blur:
// libjxl/tools/gauss_blur.cc, over exact reals.
module GaussColumns {
  import opened GaussRow

  const RING_BUFFER_LEN: nat := 4
  const PREFETCH_ROWS: nat := 8

  // Column x of an image given by rows.
  ghost function Column(image: seq<seq<real>>, x: nat): seq<real>
    requires forall row :: row in image ==> x < |row|
  {
    seq(|image|, y requires 0 <= y < |image| => image[y][x])
  }

  ghost predicate HasColumns(image: seq<seq<real>>, width: nat) {
    forall row :: row in image ==> width <= |row|
  }

  // The ring buffer has four rows for each filter; a row has one value for
  // each column of the strip. Row n of filter k is at 4 * k + (n & 3).
  ghost predicate IsRing(ring: seq<seq<real>>, lanes: nat) {
    |ring| == 12 && forall r: nat | r < 12 :: |ring[r]| == lanes
  }

  ghost predicate RingLane(ring: seq<seq<real>>, fs: Filters, image: seq<seq<real>>, x: nat, lanes: nat,
                           radius: nat, n: int, i: nat)
    requires IsRing(ring, lanes) && i < lanes && HasColumns(image, x + lanes)
  {
    var col, slot := Column(image, x + i), n % RING_BUFFER_LEN;
    && ring[slot][i] == Y(fs.k1, col, radius, n)
    && ring[RING_BUFFER_LEN + slot][i] == Y(fs.k3, col, radius, n)
    && ring[2 * RING_BUFFER_LEN + slot][i] == Y(fs.k5, col, radius, n)
  }

  // Lanes [lo, hi) hold row n.
  ghost predicate RingPart(ring: seq<seq<real>>, fs: Filters, image: seq<seq<real>>, x: nat, lanes: nat,
                           radius: nat, n: int, lo: nat, hi: nat)
    requires HasColumns(image, x + lanes)
  {
    IsRing(ring, lanes) && forall i: nat | lo <= i < hi && i < lanes ::
      RingLane(ring, fs, image, x, lanes, radius, n, i)
  }

  ghost predicate RingHolds(ring: seq<seq<real>>, fs: Filters, image: seq<seq<real>>, x: nat, lanes: nat,
                            radius: nat, n: int)
    requires HasColumns(image, x + lanes)
  {
    RingPart(ring, fs, image, x, lanes, radius, n, 0, lanes)
  }

  ghost predicate InputLane(input: seq<real>, image: seq<seq<real>>, x: nat, radius: nat, n: int, i: nat)
    requires i < |input| && HasColumns(image, x + |input|)
  {
    input[i] == Input(Column(image, x + i), radius, n)
  }

  // The sums that the filters take in at row n.
  ghost predicate IsInput(input: seq<real>, image: seq<seq<real>>, x: nat, radius: nat, n: int)
    requires HasColumns(image, x + |input|)
  {
    forall i: nat | i < |input| :: InputLane(input, image, x, radius, n, i)
  }

  // Row n of the strip [x, x1) is blurred.
  ghost predicate RowBlurred(row: seq<real>, fs: Filters, image: seq<seq<real>>, x: nat, x1: nat, radius: nat, n: int)
    requires HasColumns(image, x1)
  {
    x1 <= |row| && forall c: nat | x <= c < x1 :: row[c] == Blurred(fs, Column(image, c), radius, n)
  }

  // The rows agree outside [x, x1).
  ghost predicate RowSame(a: seq<real>, b: seq<real>, x: nat, x1: nat) {
    |a| == |b| && forall c: nat | c < |a| && !(x <= c < x1) :: a[c] == b[c]
  }

  // Column i of row n was overwritten for each filter, and nothing else.
  ghost predicate LaneStored(ring: seq<seq<real>>, ring': seq<seq<real>>, lanes: nat, n: int, i: nat, y1: real,
                             y3: real, y5: real) {
    && IsRing(ring, lanes) && IsRing(ring', lanes)
    && forall s: nat, j: nat | s < 12 && j < lanes ::
         ring'[s][j] == if j != i || s % 4 != n % 4 then ring[s][j] else if s < 4 then y1 else if s < 8 then y3 else y5
  }

  // Overwriting row n of lane i keeps row n - 1, and row n - 2 of the others.
  lemma LaneStep(ring: seq<seq<real>>, ring': seq<seq<real>>, fs: Filters, image: seq<seq<real>>, x: nat, lanes: nat,
                 radius: nat, n: int, i: nat, y1: real, y3: real, y5: real)
    requires HasColumns(image, x + lanes) && i < lanes
    requires LaneStored(ring, ring', lanes, n, i, y1, y3, y5)
    requires var col := Column(image, x + i);
             y1 == Y(fs.k1, col, radius, n) && y3 == Y(fs.k3, col, radius, n) && y5 == Y(fs.k5, col, radius, n)
    requires RingPart(ring, fs, image, x, lanes, radius, n, 0, i)
    requires RingPart(ring, fs, image, x, lanes, radius, n - 1, 0, lanes)
    requires RingPart(ring, fs, image, x, lanes, radius, n - 2, i, lanes)
    ensures RingPart(ring', fs, image, x, lanes, radius, n, 0, i + 1)
    ensures RingPart(ring', fs, image, x, lanes, radius, n - 1, 0, lanes)
    ensures RingPart(ring', fs, image, x, lanes, radius, n - 2, i + 1, lanes)
  {
    hide Y;
    var m, l := n - 1, n - 2;
    forall j: nat | j < i
      ensures RingLane(ring', fs, image, x, lanes, radius, n, j)
    {
      assert RingLane(ring, fs, image, x, lanes, radius, n, j);
    }
    forall j: nat | j < lanes
      ensures RingLane(ring', fs, image, x, lanes, radius, m, j)
    {
      assert RingLane(ring, fs, image, x, lanes, radius, m, j);
    }
    forall j: nat | i < j < lanes
      ensures RingLane(ring', fs, image, x, lanes, radius, l, j)
    {
      assert RingLane(ring, fs, image, x, lanes, radius, l, j);
    }
  }

  lemma YStep(f: Filter, row: seq<real>, radius: nat, n: int)
    requires n + radius >= 0
    ensures Y(f, row, radius, n) == Next(f, Input(row, radius, n), Y(f, row, radius, n - 1), Y(f, row, radius, n - 2))
  {
  }

  // One row of one strip: reads the ring at n - 1 and n - 2, writes it at n,
  // and stores the row's outputs unless the row is above the image.
  method VerticalBlock(fs: Filters, input: seq<real>, n: int, ring: array<seq<real>>, store: bool,
                       ghost image: seq<seq<real>>, x: nat, radius: nat, out: array<seq<real>>)
    requires HasColumns(image, x + |input|) && ring != out
    requires RingHolds(ring[..], fs, image, x, |input|, radius, n - 1)
    requires RingHolds(ring[..], fs, image, x, |input|, radius, n - 2)
    requires n + radius >= 0 && IsInput(input, image, x, radius, n)
    requires store ==> 0 <= n < out.Length && x + |input| <= |out[n]|
    modifies ring, out
    ensures RingHolds(ring[..], fs, image, x, |input|, radius, n)
    ensures RingHolds(ring[..], fs, image, x, |input|, radius, n - 1)
    ensures store ==> RowBlurred(out[n], fs, image, x, x + |input|, radius, n)
    ensures store ==> RowSame(out[n], old(out[n]), x, x + |input|)
    ensures forall r: nat | r < out.Length && !(store && r == n) :: out[r] == old(out[r])
  {
    var lanes := |input|;
    for i: nat := 0 to lanes
      invariant RingPart(ring[..], fs, image, x, lanes, radius, n, 0, i)
      invariant RingPart(ring[..], fs, image, x, lanes, radius, n - 1, 0, lanes)
      invariant RingPart(ring[..], fs, image, x, lanes, radius, n - 2, i, lanes)
      invariant store ==> RowBlurred(out[n], fs, image, x, x + i, radius, n)
      invariant store ==> RowSame(out[n], old(out[n]), x, x + lanes)
      invariant forall r: nat | r < out.Length && !(store && r == n) :: out[r] == old(out[r])
    {
      var total := VerticalLane(fs, input, n, ring, image, x, radius, i);
      if store {
        out[n] := out[n][x + i := total];
      }
    }
  }

  // Overwrites column i in row n of each filter.
  method StoreLane(ring: array<seq<real>>, lanes: nat, n: int, i: nat, y1: real, y3: real, y5: real)
    requires IsRing(ring[..], lanes) && i < lanes
    modifies ring
    ensures LaneStored(old(ring[..]), ring[..], lanes, n, i, y1, y3, y5)
  {
    var n0 := n % RING_BUFFER_LEN;
    ring[n0] := ring[n0][i := y1];
    ring[4 + n0] := ring[4 + n0][i := y3];
    ring[8 + n0] := ring[8 + n0][i := y5];
  }

  // One lane of VerticalBlock.
  method VerticalLane(fs: Filters, input: seq<real>, n: int, ring: array<seq<real>>, ghost image: seq<seq<real>>,
                      x: nat, radius: nat, i: nat)
    returns (total: real)
    requires HasColumns(image, x + |input|) && i < |input|
    requires RingPart(ring[..], fs, image, x, |input|, radius, n, 0, i)
    requires RingPart(ring[..], fs, image, x, |input|, radius, n - 1, 0, |input|)
    requires RingPart(ring[..], fs, image, x, |input|, radius, n - 2, i, |input|)
    requires n + radius >= 0 && IsInput(input, image, x, radius, n)
    modifies ring
    ensures RingPart(ring[..], fs, image, x, |input|, radius, n, 0, i + 1)
    ensures RingPart(ring[..], fs, image, x, |input|, radius, n - 1, 0, |input|)
    ensures RingPart(ring[..], fs, image, x, |input|, radius, n - 2, i + 1, |input|)
    ensures total == Blurred(fs, Column(image, x + i), radius, n)
  {
    hide Y, Input, Next;
    ghost var before := ring[..];
    var n1, n2 := (n - 1) % RING_BUFFER_LEN, (n - 2) % RING_BUFFER_LEN;
    assert RingLane(before, fs, image, x, |input|, radius, n - 1, i);
    assert RingLane(before, fs, image, x, |input|, radius, n - 2, i);
    assert InputLane(input, image, x, radius, n, i);
    var y1 := Next(fs.k1, input[i], ring[n1][i], ring[n2][i]);
    var y3 := Next(fs.k3, input[i], ring[4 + n1][i], ring[4 + n2][i]);
    var y5 := Next(fs.k5, input[i], ring[8 + n1][i], ring[8 + n2][i]);
    YStep(fs.k1, Column(image, x + i), radius, n);
    YStep(fs.k3, Column(image, x + i), radius, n);
    YStep(fs.k5, Column(image, x + i), radius, n);
    hide RingPart, RingLane, LaneStored;
    StoreLane(ring, |input|, n, i, y1, y3, y5);
    LaneStep(before, ring[..], fs, image, x, |input|, radius, n, i, y1, y3, y5);
    total := y1 + (y3 + y5);
  }

  // ---------------------------------------------------------------------
  // A strip of columns.

  const SIZE_T: int := 0x1_0000_0000_0000_0000

  // Sizes that a program can hold.
  predicate Sizes(image: seq<seq<real>>, radius: nat) {
    |image| + 2 * radius + 1 < SIZE_T
  }

  // The row below, as an unsigned number: it wraps around when it is -1.
  function Bottom(n: int, radius: nat): nat {
    (n + radius - 1) % SIZE_T
  }

  function ZeroRow(lanes: nat): seq<real> {
    seq(lanes, _ => 0.0)
  }

  function RowAt(image: seq<seq<real>>, y: nat, x: nat, lanes: nat): seq<real>
    requires y < |image| && HasColumns(image, x + lanes)
  {
    assert image[y] in image;
    image[y][x..x + lanes]
  }

  // At the borders: one row of the image, or zeros below its end.
  function SingleInput(image: seq<seq<real>>, y: nat, x: nat, lanes: nat): seq<real>
    requires HasColumns(image, x + lanes)
  {
    if y < |image| then RowAt(image, y, x, lanes) else ZeroRow(lanes)
  }

  // In the interior: the sum of a row above and a row below.
  function TwoInputs(image: seq<seq<real>>, top: nat, bottom: nat, x: nat, lanes: nat): seq<real>
    requires HasColumns(image, x + lanes) && top < |image|
  {
    var a, b := RowAt(image, top, x, lanes), SingleInput(image, bottom, x, lanes);
    seq(lanes, i requires 0 <= i < lanes => a[i] + b[i])
  }

  lemma SingleInputIs(image: seq<seq<real>>, x: nat, lanes: nat, radius: nat, n: int)
    requires HasColumns(image, x + lanes) && Sizes(image, radius) && n + radius >= 0 && n - radius - 1 < 0
    ensures |SingleInput(image, Bottom(n, radius), x, lanes)| == lanes
    ensures IsInput(SingleInput(image, Bottom(n, radius), x, lanes), image, x, radius, n)
  {
    var input := SingleInput(image, Bottom(n, radius), x, lanes);
    forall i: nat | i < lanes
      ensures InputLane(input, image, x, radius, n, i)
    {
      assert n + radius - 1 < SIZE_T;
    }
  }

  lemma TwoInputsIs(image: seq<seq<real>>, x: nat, lanes: nat, radius: nat, n: nat)
    requires HasColumns(image, x + lanes) && Sizes(image, radius) && radius < n < |image|
    ensures |TwoInputs(image, n - radius - 1, Bottom(n, radius), x, lanes)| == lanes
    ensures IsInput(TwoInputs(image, n - radius - 1, Bottom(n, radius), x, lanes), image, x, radius, n)
  {
    var input := TwoInputs(image, n - radius - 1, Bottom(n, radius), x, lanes);
    forall i: nat | i < lanes
      ensures InputLane(input, image, x, radius, n, i)
    {
      assert Bottom(n, radius) == n + radius - 1;
    }
  }

  // A prefetched row must exist.
  method Prefetch(image: seq<seq<real>>, row: nat)
    requires row < |image|
  {
    var _ := image[row];
  }

  lemma RingAtRest(ring: seq<seq<real>>, fs: Filters, image: seq<seq<real>>, x: nat, lanes: nat, radius: nat)
    requires HasColumns(image, x + lanes) && ring == seq(12, _ => ZeroRow(lanes))
    ensures RingHolds(ring, fs, image, x, lanes, radius, 0 - radius)
    ensures RingHolds(ring, fs, image, x, lanes, radius, 0 - radius - 1)
  {
  }

  // With radius 0 the warm-up is empty and the first row is row 0: the ring is
  // at rest there, too.
  lemma RingAtRest0(ring: seq<seq<real>>, fs: Filters, image: seq<seq<real>>, x: nat, lanes: nat)
    requires HasColumns(image, x + lanes) && ring == seq(12, _ => ZeroRow(lanes))
    ensures RingHolds(ring, fs, image, x, lanes, 0, -1) && RingHolds(ring, fs, image, x, lanes, 0, -2)
  {
  }

  // Rows [0, n) of the strip are blurred, each stored once and in order.
  ghost predicate StripTo(out: seq<seq<real>>, before: seq<seq<real>>, fs: Filters, image: seq<seq<real>>, x: nat,
                          x1: nat, radius: nat, written: seq<nat>)
    requires HasColumns(image, x1)
  {
    && |out| == |before| && |written| <= |out|
    && (forall r: nat | r < |written| :: written[r] == r && RowBlurred(out[r], fs, image, x, x1, radius, r)
                                         && RowSame(out[r], before[r], x, x1))
    && (forall r: nat | |written| <= r < |out| :: out[r] == before[r])
  }

  lemma StripStep(o: seq<seq<real>>, o': seq<seq<real>>, before: seq<seq<real>>, fs: Filters, image: seq<seq<real>>,
                  x: nat, x1: nat, radius: nat, written: seq<nat>)
    requires HasColumns(image, x1) && StripTo(o, before, fs, image, x, x1, radius, written)
    requires |written| < |o| == |o'| && forall r: nat | r < |o| && r != |written| :: o'[r] == o[r]
    requires RowBlurred(o'[|written|], fs, image, x, x1, radius, |written|)
    requires RowSame(o'[|written|], o[|written|], x, x1)
    ensures StripTo(o', before, fs, image, x, x1, radius, written + [|written|])
  {
  }

  // Before the first output the row above is outside, and nothing is stored.
  method WarmUp(fs: Filters, radius: nat, x: nat, lanes: nat, image: seq<seq<real>>, out: array<seq<real>>)
    returns (ring: array<seq<real>>)
    requires HasColumns(image, x + lanes) && Sizes(image, radius)
    modifies out
    ensures fresh(ring) && out[..] == old(out[..])
    ensures RingHolds(ring[..], fs, image, x, lanes, radius, -1)
    ensures RingHolds(ring[..], fs, image, x, lanes, radius, -2)
  {
    hide IsInput, SingleInput, RingHolds, RowBlurred, HasColumns;
    ring := new seq<real>[12](_ => ZeroRow(lanes));
    assert ring[..] == seq(12, _ => ZeroRow(lanes));
    var n: int := 1 - radius;
    if radius == 0 {
      RingAtRest0(ring[..], fs, image, x, lanes);
    } else {
      RingAtRest(ring[..], fs, image, x, lanes, radius);
    }
    while n < 0
      invariant 1 - radius <= n && (n <= 0 || radius == 0)
      invariant fresh(ring) && forall r: nat | r < out.Length :: out[r] == old(out[r])
      invariant RingHolds(ring[..], fs, image, x, lanes, radius, (if radius == 0 then 0 else n) - 1)
      invariant RingHolds(ring[..], fs, image, x, lanes, radius, (if radius == 0 then 0 else n) - 2)
    {
      SingleInputIs(image, x, lanes, radius, n);
      VerticalBlock(fs, SingleInput(image, Bottom(n, radius), x, lanes), n, ring, false, image, x, radius, out);
      n := n + 1;
    }
  }

  // The strip before row |written|: the ring and the stored rows.
  ghost predicate StripState(ring: seq<seq<real>>, o: seq<seq<real>>, before: seq<seq<real>>, fs: Filters,
                             image: seq<seq<real>>, x: nat, lanes: nat, radius: nat, written: seq<nat>)
    requires HasColumns(image, x + lanes)
  {
    && RingHolds(ring, fs, image, x, lanes, radius, |written| - 1)
    && RingHolds(ring, fs, image, x, lanes, radius, |written| - 2)
    && |o| == |before| == |image| && (forall r: nat | r < |before| :: x + lanes <= |before[r]|)
    && StripTo(o, before, fs, image, x, x + lanes, radius, written)
  }

  // A block whose outputs are stored.
  method StripRow(fs: Filters, input: seq<real>, n: nat, ring: array<seq<real>>, image: seq<seq<real>>,
                  x: nat, radius: nat, out: array<seq<real>>, ghost before: seq<seq<real>>, ghost written: seq<nat>)
    returns (ghost written': seq<nat>)
    requires HasColumns(image, x + |input|) && ring != out && n == |written| < |image|
    requires IsInput(input, image, x, radius, n)
    requires StripState(ring[..], out[..], before, fs, image, x, |input|, radius, written)
    modifies ring, out
    ensures written' == written + [n]
    ensures StripState(ring[..], out[..], before, fs, image, x, |input|, radius, written')
  {
    hide RingHolds, RowBlurred, RowSame, HasColumns, IsInput;
    ghost var o := out[..];
    VerticalBlock(fs, input, n, ring, true, image, x, radius, out);
    StripStep(o, out[..], before, fs, image, x, x + |input|, radius, written);
    written' := written + [n];
  }

  // The first outputs; the row above is still outside.
  method TopRows(fs: Filters, radius: nat, x: nat, lanes: nat, image: seq<seq<real>>, ring: array<seq<real>>,
                 out: array<seq<real>>, ghost before: seq<seq<real>>)
    returns (n: nat, ghost written: seq<nat>)
    requires HasColumns(image, x + lanes) && Sizes(image, radius) && ring != out
    requires StripState(ring[..], out[..], before, fs, image, x, lanes, radius, [])
    modifies ring, out
    ensures |written| == n <= |image| && (radius < n || n == |image|)
    ensures StripState(ring[..], out[..], before, fs, image, x, lanes, radius, written)
  {
    hide IsInput, SingleInput, StripState, HasColumns;
    n, written := 0, [];
    while n < radius + 1 && n < |image|
      invariant n == |written| <= |image|
      invariant StripState(ring[..], out[..], before, fs, image, x, lanes, radius, written)
    {
      SingleInputIs(image, x, lanes, radius, n);
      written := StripRow(fs, SingleInput(image, Bottom(n, radius), x, lanes), n, ring, image, x, radius, out,
                          before, written);
      n := n + 1;
    }
  }

  // Interior, with prefetching and without bounds checks.
  method InteriorRows(fs: Filters, radius: nat, x: nat, lanes: nat, image: seq<seq<real>>, ring: array<seq<real>>,
                      out: array<seq<real>>, n0: nat, ghost before: seq<seq<real>>, ghost written0: seq<nat>)
    returns (n: nat, ghost written: seq<nat>)
    requires HasColumns(image, x + lanes) && Sizes(image, radius) && ring != out
    requires |written0| == n0 <= |image| && (radius < n0 || n0 == |image|)
    requires StripState(ring[..], out[..], before, fs, image, x, lanes, radius, written0)
    modifies ring, out
    ensures |written| == n <= |image| && (radius < n || n == |image|)
    ensures StripState(ring[..], out[..], before, fs, image, x, lanes, radius, written)
  {
    hide IsInput, TwoInputs, StripState, HasColumns;
    n, written := n0, written0;
    while n < |image| - radius + 1 - PREFETCH_ROWS
      invariant n == |written| <= |image| && (radius < n || n == |image|)
      invariant StripState(ring[..], out[..], before, fs, image, x, lanes, radius, written)
    {
      var top, bottom := n - radius - 1, Bottom(n, radius);
      assert bottom < |image|;
      TwoInputsIs(image, x, lanes, radius, n);
      written := StripRow(fs, TwoInputs(image, top, bottom, x, lanes), n, ring, image, x, radius, out,
                          before, written);
      Prefetch(image, top + PREFETCH_ROWS);
      Prefetch(image, bottom + PREFETCH_ROWS);
      n := n + 1;
    }
  }

  // Bottom border, without prefetching and with bounds checks.
  method BottomRows(fs: Filters, radius: nat, x: nat, lanes: nat, image: seq<seq<real>>, ring: array<seq<real>>,
                    out: array<seq<real>>, n0: nat, ghost before: seq<seq<real>>, ghost written0: seq<nat>)
    returns (ghost written: seq<nat>)
    requires HasColumns(image, x + lanes) && Sizes(image, radius) && ring != out
    requires |written0| == n0 <= |image| && (radius < n0 || n0 == |image|)
    requires StripState(ring[..], out[..], before, fs, image, x, lanes, radius, written0)
    modifies ring, out
    ensures |written| == |image|
    ensures StripState(ring[..], out[..], before, fs, image, x, lanes, radius, written)
  {
    hide IsInput, TwoInputs, StripState, HasColumns;
    written := written0;
    var n := n0;
    while n < |image|
      invariant n == |written| <= |image| && (radius < n || n == |image|)
      invariant StripState(ring[..], out[..], before, fs, image, x, lanes, radius, written)
    {
      TwoInputsIs(image, x, lanes, radius, n);
      written := StripRow(fs, TwoInputs(image, n - radius - 1, Bottom(n, radius), x, lanes), n, ring, image, x,
                          radius, out, before, written);
      n := n + 1;
    }
  }

  // Blurs one strip of columns. Every row is stored exactly once, in order,
  // and only rows of the image are read or prefetched.
  method VerticalStrip(fs: Filters, radius: nat, x: nat, lanes: nat, image: seq<seq<real>>, out: array<seq<real>>)
    returns (ghost written: seq<nat>)
    requires HasColumns(image, x + lanes) && Sizes(image, radius) && out.Length == |image|
    requires forall r: nat | r < out.Length :: x + lanes <= |out[r]|
    modifies out
    ensures |written| == |image| && StripTo(out[..], old(out[..]), fs, image, x, x + lanes, radius, written)
  {
    ghost var before := out[..];
    var ring := WarmUp(fs, radius, x, lanes, image, out);
    var n;
    n, written := TopRows(fs, radius, x, lanes, image, ring, out, before);
    n, written := InteriorRows(fs, radius, x, lanes, image, ring, out, n, before, written);
    written := BottomRows(fs, radius, x, lanes, image, ring, out, n, before, written);
  }

  // ---------------------------------------------------------------------
  // The whole image.

  // Columns [0, x) of the output are blurred.
  ghost predicate ImageBlurred(o: seq<seq<real>>, fs: Filters, image: seq<seq<real>>, x: nat, radius: nat)
    requires HasColumns(image, x)
  {
    |o| == |image| && forall r: nat | r < |o| :: RowBlurred(o[r], fs, image, 0, x, radius, r)
  }

  lemma StripDone(o: seq<seq<real>>, before: seq<seq<real>>, fs: Filters, image: seq<seq<real>>, x: nat, x1: nat,
                  radius: nat, written: seq<nat>)
    requires x <= x1 && HasColumns(image, x1) && HasColumns(image, x)
    requires StripTo(o, before, fs, image, x, x1, radius, written) && |written| == |image|
    requires ImageBlurred(before, fs, image, x, radius)
    ensures ImageBlurred(o, fs, image, x1, radius)
    ensures forall r: nat | r < |o| :: |o[r]| == |before[r]|
  {
    forall r: nat | r < |o|
      ensures RowBlurred(o[r], fs, image, 0, x1, radius, r) && |o[r]| == |before[r]|
    {
      assert written[r] == r && RowBlurred(before[r], fs, image, 0, x, radius, r);
    }
  }

  // Vectors in a strip, so that a strip is a cache line of 16 samples or more.
  function Unroll(lanes: nat): nat
    requires lanes > 0
  {
    if 16 / lanes > 4 then 16 / lanes else 4
  }

  lemma UnrollIs(lanes: nat)
    requires lanes > 0
    ensures Unroll(lanes) == (if lanes == 1 then 16 else if lanes == 2 then 8 else if lanes == 3 then 5 else 4)
  {
    var q := 16 / lanes;
    assert q * lanes <= 16;
    if lanes > 3 {
      assert q * (lanes - 4) >= 0;
    }
  }

  ghost predicate Wide(o: seq<seq<real>>, width: nat) {
    forall r: nat | r < |o| :: width <= |o[r]|
  }

  // One strip of the loop over columns.
  method NextStrip(fs: Filters, radius: nat, x: nat, pace: nat, image: seq<seq<real>>, out: array<seq<real>>,
                   ghost width: nat)
    requires HasColumns(image, width) && x + pace <= width && Sizes(image, radius) && out.Length == |image|
    requires Wide(out[..], width) && HasColumns(image, x) && ImageBlurred(out[..], fs, image, x, radius)
    modifies out
    ensures Wide(out[..], width) && HasColumns(image, x + pace)
    ensures ImageBlurred(out[..], fs, image, x + pace, radius)
  {
    hide StripTo, ImageBlurred;
    ghost var before := out[..];
    ghost var written := VerticalStrip(fs, radius, x, pace, image, out);
    StripDone(out[..], before, fs, image, x, x + pace, radius, written);
  }

  // All columns: strips of several vectors, then of one. Rows are padded to
  // whole vectors. Fails only for a vector size with no unrolled version.
  method FastGaussianVertical(fs: Filters, radius: nat, xsize: nat, lanes: nat, image: seq<seq<real>>,
                              out: array<seq<real>>)
    returns (ok: bool)
    requires lanes > 0 && HasColumns(image, xsize + lanes) && Sizes(image, radius) && out.Length == |image|
    requires Wide(out[..], xsize + lanes)
    modifies out
    ensures ok == (lanes != 3)
    ensures ok ==> HasColumns(image, xsize) && ImageBlurred(out[..], fs, image, xsize, radius)
    ensures Wide(out[..], xsize + lanes)
  {
    UnrollIs(lanes);
    NothingBlurred(out[..], fs, image, radius);
    hide ImageBlurred, Wide, Unroll;
    var unroll := Unroll(lanes);
    if unroll != 4 && unroll != 8 && unroll != 16 {
      return false;
    }
    var fastPace, x := unroll * lanes, 0;
    while x + fastPace <= xsize
      invariant x <= xsize && HasColumns(image, x) && ImageBlurred(out[..], fs, image, x, radius)
      invariant Wide(out[..], xsize + lanes)
      decreases xsize - x
    {
      NextStrip(fs, radius, x, fastPace, image, out, xsize + lanes);
      x := x + fastPace;
    }
    while x < xsize
      invariant x <= xsize + lanes && HasColumns(image, x) && ImageBlurred(out[..], fs, image, x, radius)
      invariant Wide(out[..], xsize + lanes)
    {
      NextStrip(fs, radius, x, lanes, image, out, xsize + lanes);
      x := x + lanes;
    }
    FewerColumns(out[..], fs, image, xsize, x, radius);
    ok := true;
  }

  lemma NothingBlurred(o: seq<seq<real>>, fs: Filters, image: seq<seq<real>>, radius: nat)
    requires |o| == |image|
    ensures HasColumns(image, 0) && ImageBlurred(o, fs, image, 0, radius)
  {
  }

  lemma FewerColumns(o: seq<seq<real>>, fs: Filters, image: seq<seq<real>>, x: nat, x1: nat, radius: nat)
    requires x <= x1 && HasColumns(image, x1) && ImageBlurred(o, fs, image, x1, radius)
    ensures HasColumns(image, x) && ImageBlurred(o, fs, image, x, radius)
  {
  }

  // ---------------------------------------------------------------------
  // Both passes.

  // What a pass over a row leaves in a buffer that held `was`: at radius 0 the
  // first sample stays.
  ghost function PassRow(fs: Filters, row: seq<real>, radius: nat, was: seq<real>): (b: seq<real>)
    requires |row| <= |was|
    ensures |b| == |row|
  {
    seq(|row|, k requires 0 <= k < |row| => if Written(radius, k) then Blurred(fs, row, radius, k) else was[k])
  }

  // Rows of the same number, each with room for the other's samples.
  ghost predicate Room(image: seq<seq<real>>, was: seq<seq<real>>) {
    |image| == |was| && forall y: nat | y < |image| :: |image[y]| <= |was[y]|
  }

  ghost function PassRows(fs: Filters, image: seq<seq<real>>, radius: nat, was: seq<seq<real>>): (b: seq<seq<real>>)
    requires Room(image, was)
    ensures |b| == |image|
  {
    seq(|image|, y requires 0 <= y < |image| => PassRow(fs, image[y], radius, was[y]))
  }

  // The image with each row blurred.
  ghost function BlurredRows(fs: Filters, image: seq<seq<real>>, radius: nat): (b: seq<seq<real>>)
    ensures |b| == |image|
  {
    seq(|image|, y requires 0 <= y < |image| =>
      seq(|image[y]|, k requires 0 <= k < |image[y]| => Blurred(fs, image[y], radius, k)))
  }

  // The pass left row t of the temporary image behind.
  ghost predicate TempRow(t: seq<real>, fs: Filters, row: seq<real>, radius: nat, was: seq<real>) {
    |was| >= |row| && OutputTo(fs, row, radius, was, t, End(radius, |row|))
  }

  // Blurs the rows into a temporary image; it fails exactly when a row there
  // has no room for the pass.
  method FastGaussianHorizontal(rg: RecursiveGaussian, ghost fs: Filters, image: seq<seq<real>>,
                                temp: array<seq<real>>)
    returns (ok: bool)
    requires IsGaussian(rg, fs) && Room(image, temp[..])
    modifies temp
    ensures ok <==> forall y: nat | y < |image| :: End(rg.radius, |image[y]|) <= old(|temp[y]|)
    ensures ok ==> forall y: nat | y < |image| :: TempRow(temp[y], fs, image[y], rg.radius, old(temp[y]))
  {
    hide IsGaussian, OutputTo, End;
    ok := true;
    for y: nat := 0 to |image|
      invariant forall k: nat | y <= k < |image| :: temp[k] == old(temp[k])
      invariant ok && forall k: nat | k < y :: End(rg.radius, |image[k]|) <= old(|temp[k]|)
      invariant forall k: nat | k < y :: TempRow(temp[k], fs, image[k], rg.radius, old(temp[k]))
    {
      var was := temp[y];
      var out := new real[|was|](i requires 0 <= i < |was| => was[i]);
      assert out[..] == was;
      ok := FastGaussian1D(rg, fs, image[y], out);
      if !ok {
        return;
      }
      temp[y] := out[..];
    }
  }

  // Pixel (y, x) is the column filter of the given rows.
  ghost predicate PixelBlurred(o: seq<seq<real>>, fs: Filters, rows: seq<seq<real>>, radius: nat, y: nat, x: nat) {
    && y < |o| && x < |o[y]| && HasColumns(rows, x + 1)
    && o[y][x] == Blurred(fs, Column(rows, x), radius, y)
  }

  // The blurred image is the column filter of what the pass over the rows
  // leaves, at every pixel: the rows' filter, except that column 0 is the old
  // one of the temporary image when the radius is 0.
  method FastGaussian(rg: RecursiveGaussian, fs: Filters, xsize: nat, lanes: nat, image: seq<seq<real>>,
                      temp: array<seq<real>>, out: array<seq<real>>)
    returns (ok: bool)
    requires IsGaussian(rg, fs) && lanes > 0 && Sizes(image, rg.radius)
    requires forall y: nat | y < |image| :: |image[y]| == xsize
    requires temp.Length == out.Length == |image| && temp != out
    requires Wide(temp[..], xsize + lanes) && Wide(out[..], xsize + lanes)
    modifies temp, out
    ensures ok == (lanes != 3)
    ensures Room(image, old(temp[..]))
    ensures ok ==> forall y: nat, x: nat | y < |image| && x < xsize ::
              PixelBlurred(out[..], fs, PassRows(fs, image, rg.radius, old(temp[..])), rg.radius, y, x)
    ensures ok ==> forall y: nat, x: nat | y < |image| && x < xsize && Written(rg.radius, x) ::
              PixelBlurred(out[..], fs, BlurredRows(fs, image, rg.radius), rg.radius, y, x)
  {
    hide Blurred, IsGaussian, OutputTo;
    ghost var was := temp[..];
    var done := FastGaussianHorizontal(rg, fs, image, temp);
    ghost var passed := temp[..];
    forall y: nat | y < |image|
      ensures TempRow(passed[y], fs, image[y], rg.radius, was[y])
      ensures |passed[y]| == |was[y]|
    {
      assert TempRow(temp[y], fs, image[y], rg.radius, old(temp[y]));
      SameSize(passed[y], fs, image[y], rg.radius, was[y]);
    }
    ok := FastGaussianVertical(fs, rg.radius, xsize, lanes, temp[..], out);
    forall y: nat, x: nat | ok && y < |image| && x < xsize
      ensures PixelBlurred(out[..], fs, PassRows(fs, image, rg.radius, was), rg.radius, y, x)
    {
      SameColumn(passed, fs, image, rg.radius, was, xsize, x);
      assert RowBlurred(out[y], fs, passed, 0, xsize, rg.radius, y);
    }
    forall y: nat, x: nat | ok && y < |image| && x < xsize && Written(rg.radius, x)
      ensures PixelBlurred(out[..], fs, BlurredRows(fs, image, rg.radius), rg.radius, y, x)
    {
      PassBlurs(fs, image, rg.radius, was, xsize, x);
      assert PixelBlurred(out[..], fs, PassRows(fs, image, rg.radius, was), rg.radius, y, x);
    }
  }

  lemma SameSize(t: seq<real>, fs: Filters, row: seq<real>, radius: nat, was: seq<real>)
    requires TempRow(t, fs, row, radius, was)
    ensures |t| == |was|
  {
  }

  lemma SameColumn(temp: seq<seq<real>>, fs: Filters, image: seq<seq<real>>, radius: nat, was: seq<seq<real>>,
                   xsize: nat, x: nat)
    requires |temp| == |image| && Room(image, was) && x < xsize
    requires forall y: nat | y < |image| :: |image[y]| == xsize && TempRow(temp[y], fs, image[y], radius, was[y])
    ensures var rows := PassRows(fs, image, radius, was);
            HasColumns(temp, xsize) && HasColumns(rows, xsize) && Column(temp, x) == Column(rows, x)
  {
    hide Blurred;
    var rows := PassRows(fs, image, radius, was);
    forall y: nat | y < |image|
      ensures |rows[y]| == xsize && |temp[y]| >= xsize && temp[y][x] == rows[y][x]
    {
      assert TempRow(temp[y], fs, image[y], radius, was[y]);
      assert rows[y] == PassRow(fs, image[y], radius, was[y]);
    }
  }

  // Every column the pass writes is blurred.
  lemma PassBlurs(fs: Filters, image: seq<seq<real>>, radius: nat, was: seq<seq<real>>, xsize: nat, x: nat)
    requires Room(image, was) && x < xsize && forall y: nat | y < |image| :: |image[y]| == xsize
    ensures HasColumns(PassRows(fs, image, radius, was), xsize) && HasColumns(BlurredRows(fs, image, radius), xsize)
    ensures Written(radius, x) ==>
              Column(PassRows(fs, image, radius, was), x) == Column(BlurredRows(fs, image, radius), x)
  {
    hide Blurred;
  }
}
