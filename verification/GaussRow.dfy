// The recursive Gaussian, horizontal pass: libjxl/tools/gauss_blur.cc, over
// exact reals, for a target with four lanes.
module GaussRow {
  import opened Samples

  // A second-order filter: y(n) = n2 * input(n) - d1 * y(n - 1) - y(n - 2).
  datatype Filter = Filter(n2: real, d1: real)

  datatype Filters = Filters(k1: Filter, k3: Filter, k5: Filter)

  // Samples outside the row are zero.
  ghost function Sample(row: seq<real>, i: int): real {
    if 0 <= i < |row| then row[i] else 0.0
  }

  ghost function Input(row: seq<real>, radius: nat, n: int): real {
    Sample(row, n - radius - 1) + Sample(row, n + radius - 1)
  }

  function Next(f: Filter, input: real, p: real, pp: real): real {
    Times(f.n2, input) - Times(f.d1, p) - pp
  }

  // The recurrence, from rest at -radius.
  ghost function Y(f: Filter, row: seq<real>, radius: nat, n: int): real
    decreases if n + radius < 0 then 0 else n + radius
  {
    if n + radius <= 0 then 0.0
    else Next(f, Input(row, radius, n), Y(f, row, radius, n - 1), Y(f, row, radius, n - 2))
  }

  // The blurred sample: the sum of the three filters.
  ghost function Blurred(fs: Filters, row: seq<real>, radius: nat, n: int): real {
    Y(fs.k1, row, radius, n) + (Y(fs.k3, row, radius, n) + Y(fs.k5, row, radius, n))
  }

  // ---------------------------------------------------------------------
  // Vectors of four lanes.

  datatype V4 = V4(l0: real, l1: real, l2: real, l3: real)

  function Set(x: real): V4 { V4(x, x, x, x) }

  function Add(a: V4, b: V4): V4 { V4(a.l0 + b.l0, a.l1 + b.l1, a.l2 + b.l2, a.l3 + b.l3) }

  function Mul(a: V4, b: V4): V4 {
    V4(Times(a.l0, b.l0), Times(a.l1, b.l1), Times(a.l2, b.l2), Times(a.l3, b.l3))
  }

  function MulAdd(a: V4, b: V4, c: V4): V4 { Add(Mul(a, b), c) }

  // Lane i takes lane i - k; the lowest lanes become zero.
  function ShiftLeftLanes(k: nat, v: V4): V4 {
    match k
    case 0 => v
    case 1 => V4(0.0, v.l0, v.l1, v.l2)
    case 2 => V4(0.0, 0.0, v.l0, v.l1)
    case 3 => V4(0.0, 0.0, 0.0, v.l0)
    case _ => Set(0.0)
  }

  function Lane(i: nat, v: V4): real
    requires i < 4
  {
    if i == 0 then v.l0 else if i == 1 then v.l1 else if i == 2 then v.l2 else v.l3
  }

  function Broadcast(i: nat, v: V4): V4
    requires i < 4
  {
    Set(Lane(i, v))
  }

  function Load(a: seq<real>, i: nat): V4
    requires i + 4 <= |a|
  {
    V4(a[i], a[i + 1], a[i + 2], a[i + 3])
  }

  // ---------------------------------------------------------------------
  // Coefficients.

  datatype RecursiveGaussian = RecursiveGaussian(
    n2: seq<real>, d1: seq<real>, mulPrev: seq<real>, mulPrev2: seq<real>, mulIn: seq<real>, radius: nat)

  function MulPrev(f: Filter): V4 {
    var d2 := f.d1 * f.d1;
    V4(-f.d1, d2 - 1.0, -d2 * f.d1 + 2.0 * f.d1, d2 * d2 - 3.0 * d2 + 1.0)
  }

  function MulPrev2(f: Filter): V4 {
    var d2 := f.d1 * f.d1;
    V4(-1.0, f.d1, -d2 + 1.0, d2 * f.d1 - 2.0 * f.d1)
  }

  function MulIn(f: Filter): V4 {
    var d2 := f.d1 * f.d1;
    V4(f.n2, -f.d1 * f.n2, d2 * f.n2 - f.n2, -d2 * f.d1 * f.n2 + 2.0 * f.d1 * f.n2)
  }

  ghost predicate Coefficients(rg: RecursiveGaussian, k: nat, f: Filter)
    requires k < 3
  {
    && |rg.n2| == |rg.d1| == |rg.mulPrev| == |rg.mulPrev2| == |rg.mulIn| == 12
    && Load(rg.n2, 4 * k) == Set(f.n2) && Load(rg.d1, 4 * k) == Set(f.d1)
    && Load(rg.mulPrev, 4 * k) == MulPrev(f) && Load(rg.mulPrev2, 4 * k) == MulPrev2(f)
    && Load(rg.mulIn, 4 * k) == MulIn(f)
  }

  ghost predicate IsGaussian(rg: RecursiveGaussian, fs: Filters) {
    Coefficients(rg, 0, fs.k1) && Coefficients(rg, 1, fs.k3) && Coefficients(rg, 2, fs.k5)
  }

  // ---------------------------------------------------------------------
  // One output from lane 0, and four at once.

  function ScalarStep(mulIn: V4, mulPrev: V4, mulPrev2: V4, prev: V4, prev2: V4, sum: V4): V4 {
    MulAdd(mulPrev, prev, MulAdd(mulPrev2, prev2, Mul(sum, mulIn)))
  }

  // Broadcast inputs times shifted multipliers.
  function InputPart(mulIn: V4, sum: V4): V4 {
    var out := Mul(Broadcast(0, sum), mulIn);
    var out := MulAdd(ShiftLeftLanes(1, mulIn), Broadcast(1, sum), out);
    var out := MulAdd(ShiftLeftLanes(2, mulIn), Broadcast(2, sum), out);
    MulAdd(ShiftLeftLanes(3, mulIn), Broadcast(3, sum), out)
  }

  function VectorStep(mulIn: V4, mulPrev: V4, mulPrev2: V4, prev: V4, prev2: V4, sum: V4): V4 {
    MulAdd(mulPrev, prev, MulAdd(mulPrev2, prev2, InputPart(mulIn, sum)))
  }

  // Lane 0 of the scalar step is one step of the recurrence.
  lemma ScalarStepIs(f: Filter, prev: V4, prev2: V4, sum: V4)
    ensures ScalarStep(MulIn(f), MulPrev(f), MulPrev2(f), prev, prev2, sum).l0
         == Next(f, sum.l0, prev.l0, prev2.l0)
  {
  }

  // The lanes, expanded.
  lemma Lanes(i: V4, a: V4, b: V4, p: real, pp: real, s: V4)
    ensures var o := VectorStep(i, a, b, Set(p), Set(pp), s);
            && o.l0 == Times(a.l0, p) + (Times(b.l0, pp) + Times(s.l0, i.l0))
            && o.l1 == Times(a.l1, p) + (Times(b.l1, pp) + (Times(i.l0, s.l1) + Times(s.l0, i.l1)))
            && o.l2 == Times(a.l2, p)
                       + (Times(b.l2, pp) + (Times(i.l0, s.l2) + (Times(i.l1, s.l1) + Times(s.l0, i.l2))))
            && o.l3 == Times(a.l3, p)
                       + (Times(b.l3, pp)
                          + (Times(i.l0, s.l3) + (Times(i.l1, s.l2) + (Times(i.l2, s.l1) + Times(s.l0, i.l3)))))
  {
    assert forall x: real :: Times(0.0, x) == 0.0;
    hide Times;
  }

  // Each lane is one step of the recurrence from the lanes before it.
  lemma Lane0(f: Filter, p: real, pp: real, s: V4)
    ensures Times(MulPrev(f).l0, p) + (Times(MulPrev2(f).l0, pp) + Times(s.l0, MulIn(f).l0))
         == f.n2 * s.l0 - f.d1 * p - pp
  {
  }

  lemma Lane1(f: Filter, p: real, pp: real, s: V4)
    ensures Times(MulPrev(f).l1, p)
            + (Times(MulPrev2(f).l1, pp) + (Times(MulIn(f).l0, s.l1) + Times(s.l0, MulIn(f).l1)))
         == f.n2 * s.l1 - f.d1 * (f.n2 * s.l0 - f.d1 * p - pp) - p
  {
  }

  lemma Lane2(f: Filter, p: real, pp: real, s: V4)
    ensures Times(MulPrev(f).l2, p)
            + (Times(MulPrev2(f).l2, pp)
               + (Times(MulIn(f).l0, s.l2) + (Times(MulIn(f).l1, s.l1) + Times(s.l0, MulIn(f).l2))))
         == f.n2 * s.l2 - f.d1 * (f.n2 * s.l1 - f.d1 * (f.n2 * s.l0 - f.d1 * p - pp) - p)
            - (f.n2 * s.l0 - f.d1 * p - pp)
  {
  }

  lemma Lane3(f: Filter, p: real, pp: real, s: V4)
    ensures Times(MulPrev(f).l3, p)
            + (Times(MulPrev2(f).l3, pp)
               + (Times(MulIn(f).l0, s.l3)
                  + (Times(MulIn(f).l1, s.l2) + (Times(MulIn(f).l2, s.l1) + Times(s.l0, MulIn(f).l3)))))
         == f.n2 * s.l3
            - f.d1 * (f.n2 * s.l2 - f.d1 * (f.n2 * s.l1 - f.d1 * (f.n2 * s.l0 - f.d1 * p - pp) - p)
                      - (f.n2 * s.l0 - f.d1 * p - pp))
            - (f.n2 * s.l1 - f.d1 * (f.n2 * s.l0 - f.d1 * p - pp) - p)
  {
    var n, d := f.n2, f.d1;
    assert Times(MulPrev(f).l3, p) == (d * d * (d * d) - 3.0 * (d * d) + 1.0) * p;
    assert Times(MulPrev2(f).l3, pp) == (d * d * d - 2.0 * d) * pp;
    assert Times(MulIn(f).l2, s.l1) == (d * d * n - n) * s.l1;
    assert Times(MulIn(f).l1, s.l2) == (-d * n) * s.l2;
    assert Times(s.l0, MulIn(f).l3) == (-(d * d) * d * n + 2.0 * d * n) * s.l0;
    Lane3Polynomial(n, d, p, pp, s.l0, s.l1, s.l2, s.l3);
  }

  lemma Lane3Polynomial(n: real, d: real, p: real, pp: real, s0: real, s1: real, s2: real, s3: real)
    ensures (d * d * (d * d) - 3.0 * (d * d) + 1.0) * p
            + ((d * d * d - 2.0 * d) * pp
               + (n * s3 + ((-d * n) * s2 + ((d * d * n - n) * s1 + (-(d * d) * d * n + 2.0 * d * n) * s0))))
         == n * s3 - d * (n * s2 - d * (n * s1 - d * (n * s0 - d * p - pp) - p) - (n * s0 - d * p - pp))
            - (n * s1 - d * (n * s0 - d * p - pp) - p)
  {
  }

  // One to four steps of the recurrence, multiplied out.
  lemma OneStep(f: Filter, i0: real, p: real, pp: real)
    ensures Next(f, i0, p, pp) == f.n2 * i0 - f.d1 * p - pp
  {
  }

  lemma TwoSteps(f: Filter, i0: real, i1: real, p: real, pp: real)
    ensures Next(f, i1, Next(f, i0, p, pp), p) == f.n2 * i1 - f.d1 * (f.n2 * i0 - f.d1 * p - pp) - p
  {
  }

  lemma ThreeSteps(f: Filter, i0: real, i1: real, i2: real, p: real, pp: real)
    ensures Next(f, i2, Next(f, i1, Next(f, i0, p, pp), p), Next(f, i0, p, pp))
         == f.n2 * i2 - f.d1 * (f.n2 * i1 - f.d1 * (f.n2 * i0 - f.d1 * p - pp) - p) - (f.n2 * i0 - f.d1 * p - pp)
  {
  }

  lemma FourSteps(f: Filter, i0: real, i1: real, i2: real, i3: real, p: real, pp: real)
    ensures Next(f, i3, Next(f, i2, Next(f, i1, Next(f, i0, p, pp), p), Next(f, i0, p, pp)),
                 Next(f, i1, Next(f, i0, p, pp), p))
         == f.n2 * i3
            - f.d1 * (f.n2 * i2 - f.d1 * (f.n2 * i1 - f.d1 * (f.n2 * i0 - f.d1 * p - pp) - p)
                      - (f.n2 * i0 - f.d1 * p - pp))
            - (f.n2 * i1 - f.d1 * (f.n2 * i0 - f.d1 * p - pp) - p)
  {
    hide Next;
    TwoSteps(f, i0, i1, p, pp);
    ThreeSteps(f, i0, i1, i2, p, pp);
    var o0 := Next(f, i0, p, pp);
    var o1 := Next(f, i1, o0, p);
    OneStep(f, i3, Next(f, i2, o1, o0), o1);
  }

  // The vector step is four steps of the recurrence.
  lemma VectorStepIs(f: Filter, p: real, pp: real, sum: V4)
    ensures var o := VectorStep(MulIn(f), MulPrev(f), MulPrev2(f), Set(p), Set(pp), sum);
            && o.l0 == Next(f, sum.l0, p, pp) && o.l1 == Next(f, sum.l1, o.l0, p)
            && o.l2 == Next(f, sum.l2, o.l1, o.l0) && o.l3 == Next(f, sum.l3, o.l2, o.l1)
  {
    hide Times, VectorStep, MulIn, MulPrev, MulPrev2, Next;
    OneStep(f, sum.l0, p, pp);
    TwoSteps(f, sum.l0, sum.l1, p, pp);
    ThreeSteps(f, sum.l0, sum.l1, sum.l2, p, pp);
    FourSteps(f, sum.l0, sum.l1, sum.l2, sum.l3, p, pp);
    Lanes(MulIn(f), MulPrev(f), MulPrev2(f), p, pp, sum);
    Lane0(f, p, pp, sum);
    Lane1(f, p, pp, sum);
    Lane2(f, p, pp, sum);
    Lane3(f, p, pp, sum);
  }

  // ---------------------------------------------------------------------
  // The coefficient tables, as CreateRecursiveGaussian fills them.

  method ExpandCoefficients(n2: seq<real>, d1: seq<real>, radius: nat) returns (rg: RecursiveGaussian)
    requires |n2| == |d1| == 3
    ensures IsGaussian(rg, Filters(Filter(n2[0], d1[0]), Filter(n2[1], d1[1]), Filter(n2[2], d1[2])))
    ensures rg.radius == radius
  {
    hide MulPrev, MulPrev2, MulIn, Put;
    var zeros := seq(12, _ => 0.0);
    rg := RecursiveGaussian(zeros, zeros, zeros, zeros, zeros, radius);
    for i: nat := 0 to 3
      invariant |rg.n2| == |rg.d1| == |rg.mulPrev| == |rg.mulPrev2| == |rg.mulIn| == 12 && rg.radius == radius
      invariant forall k: nat | k < i :: Coefficients(rg, k, Filter(n2[k], d1[k]))
    {
      ghost var before := rg;
      for lane: nat := 0 to 4
        invariant |rg.n2| == |rg.d1| == 12
        invariant rg == before.(n2 := rg.n2, d1 := rg.d1)
        invariant forall j: nat | j < 12 :: rg.n2[j] == (if 4 * i <= j < 4 * i + lane then n2[i] else before.n2[j])
        invariant forall j: nat | j < 12 :: rg.d1[j] == (if 4 * i <= j < 4 * i + lane then d1[i] else before.d1[j])
      {
        rg := rg.(n2 := rg.n2[4 * i + lane := n2[i]], d1 := rg.d1[4 * i + lane := d1[i]]);
      }
      var f := Filter(n2[i], d1[i]);
      rg := rg.(mulPrev := Put(rg.mulPrev, 4 * i, MulPrev(f)), mulPrev2 := Put(rg.mulPrev2, 4 * i, MulPrev2(f)),
                mulIn := Put(rg.mulIn, 4 * i, MulIn(f)));
      PutKeeps(before.mulPrev, 4 * i, MulPrev(f));
      PutKeeps(before.mulPrev2, 4 * i, MulPrev2(f));
      PutKeeps(before.mulIn, 4 * i, MulIn(f));
      forall k: nat | k < i
        ensures Coefficients(rg, k, Filter(n2[k], d1[k]))
      {
        assert Coefficients(before, k, Filter(n2[k], d1[k]));
      }
    }
  }

  function Put(a: seq<real>, i: nat, v: V4): seq<real>
    requires i + 4 <= |a|
  {
    a[i := v.l0][i + 1 := v.l1][i + 2 := v.l2][i + 3 := v.l3]
  }

  lemma PutKeeps(a: seq<real>, i: nat, v: V4)
    requires i + 4 <= |a|
    ensures |Put(a, i, v)| == |a| && Load(Put(a, i, v), i) == v
    ensures forall j: nat | j + 4 <= i :: Load(Put(a, i, v), j) == Load(a, j)
  {
  }

  // ---------------------------------------------------------------------
  // The pass over a row.

  // A value for each of the three filters.
  datatype Triple = Triple(k1: V4, k3: V4, k5: V4)

  function LoadTriple(a: seq<real>): Triple
    requires |a| == 12
  {
    Triple(Load(a, 0), Load(a, 4), Load(a, 8))
  }

  function Total(t: Triple): V4 {
    Add(t.k1, Add(t.k3, t.k5))
  }

  function BroadcastTriple(i: nat, t: Triple): Triple
    requires i < 4
  {
    Triple(Broadcast(i, t.k1), Broadcast(i, t.k3), Broadcast(i, t.k5))
  }

  // Lane 0 holds the three filters at n.
  ghost predicate Holds(fs: Filters, row: seq<real>, radius: nat, t: Triple, n: int) {
    && t.k1.l0 == Y(fs.k1, row, radius, n) && t.k3.l0 == Y(fs.k3, row, radius, n)
    && t.k5.l0 == Y(fs.k5, row, radius, n)
  }

  // Lane i holds the three filters at n + i.
  ghost predicate HoldsFour(fs: Filters, row: seq<real>, radius: nat, t: Triple, n: int) {
    forall i: nat | i < 4 ::
      && Lane(i, t.k1) == Y(fs.k1, row, radius, n + i) && Lane(i, t.k3) == Y(fs.k3, row, radius, n + i)
      && Lane(i, t.k5) == Y(fs.k5, row, radius, n + i)
  }

  lemma ScalarStepY(f: Filter, row: seq<real>, radius: nat, n: int, prev: V4, prev2: V4, sum: V4)
    requires n + radius > 0 && sum.l0 == Input(row, radius, n)
    requires prev.l0 == Y(f, row, radius, n - 1) && prev2.l0 == Y(f, row, radius, n - 2)
    ensures ScalarStep(MulIn(f), MulPrev(f), MulPrev2(f), prev, prev2, sum).l0 == Y(f, row, radius, n)
  {
    hide ScalarStep, MulIn, MulPrev, MulPrev2, Next;
    ScalarStepIs(f, prev, prev2, sum);
  }

  lemma VectorStepY(f: Filter, row: seq<real>, radius: nat, n: int, prev: V4, prev2: V4, sum: V4)
    requires n + radius > 0 && forall i: nat | i < 4 :: Lane(i, sum) == Input(row, radius, n + i)
    requires prev == Set(Y(f, row, radius, n - 1)) && prev2 == Set(Y(f, row, radius, n - 2))
    ensures var o := VectorStep(MulIn(f), MulPrev(f), MulPrev2(f), prev, prev2, sum);
            forall i: nat | i < 4 :: Lane(i, o) == Y(f, row, radius, n + i)
  {
    hide VectorStep, MulIn, MulPrev, MulPrev2, Input, Next;
    VectorStepIs(f, Y(f, row, radius, n - 1), Y(f, row, radius, n - 2), sum);
    assert sum.l0 == Lane(0, sum) && sum.l1 == Lane(1, sum) && sum.l2 == Lane(2, sum) && sum.l3 == Lane(3, sum);
    assert n + 0 == n;
    var o := VectorStep(MulIn(f), MulPrev(f), MulPrev2(f), prev, prev2, sum);
    assert o.l0 == Y(f, row, radius, n);
    assert o.l1 == Y(f, row, radius, n + 1);
    assert o.l2 == Y(f, row, radius, n + 2);
    assert o.l3 == Y(f, row, radius, n + 3);
  }

  lemma Loaded(rg: RecursiveGaussian, fs: Filters)
    requires IsGaussian(rg, fs)
    ensures |rg.mulIn| == |rg.mulPrev| == |rg.mulPrev2| == 12
    ensures LoadTriple(rg.mulIn) == Triple(MulIn(fs.k1), MulIn(fs.k3), MulIn(fs.k5))
    ensures LoadTriple(rg.mulPrev) == Triple(MulPrev(fs.k1), MulPrev(fs.k3), MulPrev(fs.k5))
    ensures LoadTriple(rg.mulPrev2) == Triple(MulPrev2(fs.k1), MulPrev2(fs.k3), MulPrev2(fs.k5))
  {
  }

  // One output, with bounds checks on the inputs.
  method ScalarOutput(rg: RecursiveGaussian, ghost fs: Filters, row: seq<real>, n: int, prev: Triple, prev2: Triple)
    returns (out: Triple)
    requires IsGaussian(rg, fs) && 0 < n + rg.radius && n < |row|
    requires Holds(fs, row, rg.radius, prev, n - 1) && Holds(fs, row, rg.radius, prev2, n - 2)
    ensures Holds(fs, row, rg.radius, out, n)
  {
    hide Y, MulIn, MulPrev, MulPrev2, ScalarStep, IsGaussian, LoadTriple;
    Loaded(rg, fs);
    var left, right := n - rg.radius - 1, n + rg.radius - 1;
    var leftVal := if left >= 0 then row[left] else 0.0;
    var rightVal := if right < |row| then row[right] else 0.0;
    var sum := Set(leftVal + rightVal);
    var mulIn, mulPrev, mulPrev2 := LoadTriple(rg.mulIn), LoadTriple(rg.mulPrev), LoadTriple(rg.mulPrev2);
    out := Triple(ScalarStep(mulIn.k1, mulPrev.k1, mulPrev2.k1, prev.k1, prev2.k1, sum),
                  ScalarStep(mulIn.k3, mulPrev.k3, mulPrev2.k3, prev.k3, prev2.k3, sum),
                  ScalarStep(mulIn.k5, mulPrev.k5, mulPrev2.k5, prev.k5, prev2.k5, sum));
    ScalarStepY(fs.k1, row, rg.radius, n, prev.k1, prev2.k1, sum);
    ScalarStepY(fs.k3, row, rg.radius, n, prev.k3, prev2.k3, sum);
    ScalarStepY(fs.k5, row, rg.radius, n, prev.k5, prev2.k5, sum);
  }

  // Four outputs, without bounds checks: all eight inputs are in the row.
  method VectorOutput(rg: RecursiveGaussian, ghost fs: Filters, row: seq<real>, n: int, prev: Triple, prev2: Triple)
    returns (out: Triple)
    requires IsGaussian(rg, fs) && rg.radius < n < |row| - rg.radius - 2
    requires Holds(fs, row, rg.radius, prev, n - 1) && Holds(fs, row, rg.radius, prev2, n - 2)
    requires prev == BroadcastTriple(0, prev) && prev2 == BroadcastTriple(0, prev2)
    ensures HoldsFour(fs, row, rg.radius, out, n)
  {
    hide Y, MulIn, MulPrev, MulPrev2, VectorStep, IsGaussian, LoadTriple;
    Loaded(rg, fs);
    var sum := Add(Load(row, n - rg.radius - 1), Load(row, n + rg.radius - 1));
    var mulIn, mulPrev, mulPrev2 := LoadTriple(rg.mulIn), LoadTriple(rg.mulPrev), LoadTriple(rg.mulPrev2);
    out := Triple(VectorStep(mulIn.k1, mulPrev.k1, mulPrev2.k1, prev.k1, prev2.k1, sum),
                  VectorStep(mulIn.k3, mulPrev.k3, mulPrev2.k3, prev.k3, prev2.k3, sum),
                  VectorStep(mulIn.k5, mulPrev.k5, mulPrev2.k5, prev.k5, prev2.k5, sum));
    assert forall i: nat | i < 4 :: Lane(i, sum) == Input(row, rg.radius, n + i);
    VectorStepY(fs.k1, row, rg.radius, n, prev.k1, prev2.k1, sum);
    VectorStepY(fs.k3, row, rg.radius, n, prev.k3, prev2.k3, sum);
    VectorStepY(fs.k5, row, rg.radius, n, prev.k5, prev2.k5, sum);
  }

  function RoundUpTo(what: nat, align: nat): nat
    requires align > 0
  {
    (what + align - 1) / align * align
  }

  // Whether the pass writes sample k of the output: it starts at 1 - radius.
  predicate Written(radius: nat, k: nat) { k > 0 || radius > 0 }

  // The output so far: blurred samples below n, where they are written, and
  // what the buffer held everywhere else.
  ghost predicate OutputTo(fs: Filters, row: seq<real>, radius: nat, was: seq<real>, out: seq<real>, n: int) {
    && |out| == |was|
    && forall k: nat | k < |out| ::
         out[k] == if k < n && Written(radius, k) then Blurred(fs, row, radius, k) else was[k]
  }

  // Before output n: the last two triples, and the output so far.
  ghost predicate State(fs: Filters, row: seq<real>, radius: nat, was: seq<real>, out: seq<real>, prev: Triple,
                        prev2: Triple, n: int) {
    && 0 < n + radius && Holds(fs, row, radius, prev, n - 1) && Holds(fs, row, radius, prev2, n - 2)
    && OutputTo(fs, row, radius, was, out, n)
  }

  lemma AtRest(fs: Filters, row: seq<real>, radius: nat, was: seq<real>)
    ensures var zero := Triple(Set(0.0), Set(0.0), Set(0.0));
            State(fs, row, radius, was, was, zero, zero, 1 - radius)
  {
  }

  lemma TotalIs(fs: Filters, row: seq<real>, radius: nat, o: Triple, n: int)
    requires Holds(fs, row, radius, o, n)
    ensures Total(o).l0 == Blurred(fs, row, radius, n)
  {
  }

  lemma Broadcasted(fs: Filters, row: seq<real>, radius: nat, was: seq<real>, out: seq<real>, prev: Triple,
                    prev2: Triple, n: int)
    requires State(fs, row, radius, was, out, prev, prev2, n)
    ensures State(fs, row, radius, was, out, BroadcastTriple(0, prev), BroadcastTriple(0, prev2), n)
    ensures BroadcastTriple(0, BroadcastTriple(0, prev)) == BroadcastTriple(0, prev)
    ensures BroadcastTriple(0, BroadcastTriple(0, prev2)) == BroadcastTriple(0, prev2)
  {
    hide OutputTo, Y;
  }

  lemma LastTwo(fs: Filters, row: seq<real>, radius: nat, o: Triple, n: int)
    requires HoldsFour(fs, row, radius, o, n)
    ensures Holds(fs, row, radius, BroadcastTriple(3, o), n + 3)
    ensures Holds(fs, row, radius, BroadcastTriple(2, o), n + 2)
  {
    hide Y;
    assert Lane(3, o.k1) == Y(fs.k1, row, radius, n + 3);
    assert Lane(2, o.k1) == Y(fs.k1, row, radius, n + 2);
  }

  lemma FourTotals(fs: Filters, row: seq<real>, radius: nat, o: Triple, n: int, i: nat)
    requires HoldsFour(fs, row, radius, o, n) && i < 4
    ensures Lane(i, Total(o)) == Blurred(fs, row, radius, n + i)
  {
    hide Y;
    assert Lane(i, o.k1) == Y(fs.k1, row, radius, n + i);
  }

  // One more sample, or four.
  lemma OneMore(fs: Filters, row: seq<real>, radius: nat, was: seq<real>, before: seq<real>, after: seq<real>,
                n: int, o: Triple)
    requires OutputTo(fs, row, radius, was, before, n) && Holds(fs, row, radius, o, n)
             && 0 < n + radius < radius + |was|
    requires after == if n >= 0 then before[n := Total(o).l0] else before
    ensures OutputTo(fs, row, radius, was, after, n + 1)
  {
    hide Blurred, Holds, Total;
    TotalIs(fs, row, radius, o, n);
  }

  ghost predicate Stored(v: V4, before: seq<real>, after: seq<real>, n: nat) {
    && |after| == |before| && n + 4 <= |after|
    && (forall i: nat | i < 4 :: after[n + i] == Lane(i, v))
    && forall k: nat | k < |after| && !(n <= k < n + 4) :: after[k] == before[k]
  }

  lemma FourMore(fs: Filters, row: seq<real>, radius: nat, was: seq<real>, before: seq<real>, after: seq<real>,
                 n: nat, o: Triple)
    requires OutputTo(fs, row, radius, was, before, n) && HoldsFour(fs, row, radius, o, n) && n > 0
    requires Stored(Total(o), before, after, n)
    ensures OutputTo(fs, row, radius, was, after, n + 4)
  {
    hide Blurred, HoldsFour, Total, Lane;
    forall k: nat | n <= k < n + 4
      ensures after[k] == Blurred(fs, row, radius, k)
    {
      FourTotals(fs, row, radius, o, n, k - n);
      assert after[n + (k - n)] == Lane(k - n, Total(o));
    }
  }

  method Store(v: V4, out: array<real>, n: nat)
    requires n + 4 <= out.Length
    modifies out
    ensures Stored(v, old(out[..]), out[..], n)
  {
    out[n], out[n + 1], out[n + 2], out[n + 3] := v.l0, v.l1, v.l2, v.l3;
  }

  // One bounds-checked output, written unless it lies before the row.
  method ScalarTurn(rg: RecursiveGaussian, ghost fs: Filters, row: seq<real>, out: array<real>, ghost was: seq<real>,
                    n: int, prev: Triple, prev2: Triple)
    returns (o: Triple)
    requires IsGaussian(rg, fs) && n < |row| <= out.Length == |was|
    requires State(fs, row, rg.radius, was, out[..], prev, prev2, n)
    modifies out
    ensures State(fs, row, rg.radius, was, out[..], o, prev, n + 1)
  {
    hide IsGaussian, Holds, OutputTo, Total;
    ghost var before := out[..];
    o := ScalarOutput(rg, fs, row, n, prev, prev2);
    if n >= 0 {
      out[n] := Total(o).l0;
    }
    OneMore(fs, row, rg.radius, was, before, out[..], n, o);
  }

  // Bounds-checked outputs from start up to end.
  method BoundsChecked(rg: RecursiveGaussian, ghost fs: Filters, row: seq<real>, out: array<real>,
                       ghost was: seq<real>, start: int, end: int, prev0: Triple, prev20: Triple)
    returns (n: int, prev: Triple, prev2: Triple)
    requires IsGaussian(rg, fs) && end <= |row| <= out.Length == |was|
    requires State(fs, row, rg.radius, was, out[..], prev0, prev20, start)
    modifies out
    ensures n == if start < end then end else start
    ensures State(fs, row, rg.radius, was, out[..], prev, prev2, n)
  {
    hide IsGaussian, State;
    n, prev, prev2 := start, prev0, prev20;
    while n < end
      invariant n == start || n <= end
      invariant State(fs, row, rg.radius, was, out[..], prev, prev2, n)
    {
      var o := ScalarTurn(rg, fs, row, out, was, n, prev, prev2);
      prev, prev2 := o, prev;
      n := n + 1;
    }
  }

  // With radius 0 the unrolled loop runs up to four outputs at once to within
  // two samples of the end; from some sizes its last store is one too long.
  predicate StoresPastEnd(radius: nat, xsize: nat) { radius == 0 && xsize >= 7 && xsize % 4 == 3 }

  function End(radius: nat, xsize: nat): nat {
    if StoresPastEnd(radius, xsize) then xsize + 1 else xsize
  }

  // Where the unrolled loop may be.
  predicate Spot(radius: nat, xsize: nat, n: int) {
    && (n >= xsize || (radius < n && (radius == 0 ==> n % 4 == 0)))
    && (StoresPastEnd(radius, xsize) ==> n > 0 && n % 4 == 0)
    && (n <= End(radius, xsize) || (radius == 0 && xsize == 0 && n == 1))
  }

  lemma HeadSpot(radius: nat, xsize: nat, n: int)
    requires var end := Min(RoundUpTo(radius + 1, 4), xsize); n == if 1 - radius < end then end else 1 - radius
    ensures Spot(radius, xsize, n)
  {
    assert RoundUpTo(radius + 1, 4) > radius && (radius == 0 ==> RoundUpTo(radius + 1, 4) == 4);
  }

  function Min(a: int, b: int): int { if a < b then a else b }

  // Four outputs, stored at once.
  method VectorTurn(rg: RecursiveGaussian, ghost fs: Filters, row: seq<real>, out: array<real>, ghost was: seq<real>,
                    n: int, prev: Triple, prev2: Triple)
    returns (o: Triple)
    requires IsGaussian(rg, fs) && rg.radius < n < |row| - rg.radius - 2 && n + 4 <= out.Length
    requires State(fs, row, rg.radius, was, out[..], prev, prev2, n)
    requires prev == BroadcastTriple(0, prev) && prev2 == BroadcastTriple(0, prev2)
    modifies out
    ensures State(fs, row, rg.radius, was, out[..], BroadcastTriple(3, o), BroadcastTriple(2, o), n + 4)
  {
    hide IsGaussian, Holds, HoldsFour, OutputTo, Total, Stored, BroadcastTriple;
    ghost var before := out[..];
    o := VectorOutput(rg, fs, row, n, prev, prev2);
    LastTwo(fs, row, rg.radius, o, n);
    Store(Total(o), out, n);
    FourMore(fs, row, rg.radius, was, before, out[..], n, o);
  }

  // The unrolled loop. A store past the buffer stops the model.
  method Unrolled(rg: RecursiveGaussian, ghost fs: Filters, row: seq<real>, out: array<real>, ghost was: seq<real>,
                  start: int, prev0: Triple, prev20: Triple)
    returns (ok: bool, n: int, prev: Triple, prev2: Triple)
    requires IsGaussian(rg, fs) && |row| <= out.Length == |was| && Spot(rg.radius, |row|, start)
    requires State(fs, row, rg.radius, was, out[..], prev0, prev20, start)
    requires prev0 == BroadcastTriple(0, prev0) && prev20 == BroadcastTriple(0, prev20)
    requires start <= |row| || start == 1
    modifies out
    ensures ok == (End(rg.radius, |row|) <= out.Length)
    ensures ok ==> State(fs, row, rg.radius, was, out[..], prev, prev2, n) && Spot(rg.radius, |row|, n)
    ensures ok ==> n >= |row| - rg.radius - 2
  {
    hide IsGaussian, State;
    ok, n, prev, prev2 := true, start, prev0, prev20;
    while n < |row| - rg.radius + 1 - 3
      invariant State(fs, row, rg.radius, was, out[..], prev, prev2, n) && Spot(rg.radius, |row|, n)
      invariant prev == BroadcastTriple(0, prev) && prev2 == BroadcastTriple(0, prev2)
      invariant n <= out.Length || n == 1
    {
      if n + 4 > out.Length {
        ok := false;
        return;
      }
      var o := VectorTurn(rg, fs, row, out, was, n, prev, prev2);
      prev2, prev := BroadcastTriple(2, o), BroadcastTriple(3, o);
      n := n + 4;
    }
  }

  lemma AtEnd(fs: Filters, row: seq<real>, radius: nat, was: seq<real>, out: seq<real>, prev: Triple, prev2: Triple,
              n: int, last: int)
    requires Spot(radius, |row|, n) && n >= |row| - radius - 2 && last == if n < |row| then |row| else n
    requires State(fs, row, radius, was, out, prev, prev2, last)
    ensures OutputTo(fs, row, radius, was, out, End(radius, |row|))
  {
    hide Blurred, Holds;
  }

  // The whole row is blurred.
  ghost predicate IsBlurred(fs: Filters, row: seq<real>, radius: nat, out: seq<real>) {
    forall k: nat | k < |row| :: k < |out| && out[k] == Blurred(fs, row, radius, k)
  }

  lemma BlurredAll(fs: Filters, row: seq<real>, radius: nat, was: seq<real>, out: seq<real>)
    requires |row| <= |was| && OutputTo(fs, row, radius, was, out, End(radius, |row|))
    ensures IsBlurred(fs, row, radius, out) <==> radius > 0 || row == [] || was[0] == 0.0
  {
    if radius == 0 && row != [] {
      assert Blurred(fs, row, radius, 0) == 0.0;
      hide Blurred;
      assert out[0] == was[0];
      assert IsBlurred(fs, row, radius, out) ==> out[0] == Blurred(fs, row, radius, 0);
    }
  }

  // Blurs a row. With a radius of 0 the pass starts at 1, so the first sample
  // keeps what the buffer held, and for some sizes one sample more is stored.
  method FastGaussian1D(rg: RecursiveGaussian, ghost fs: Filters, row: seq<real>, out: array<real>)
    returns (ok: bool)
    requires IsGaussian(rg, fs) && |row| <= out.Length
    modifies out
    ensures ok == (End(rg.radius, |row|) <= out.Length)
    ensures ok ==> OutputTo(fs, row, rg.radius, old(out[..]), out[..], End(rg.radius, |row|))
    ensures ok ==> (IsBlurred(fs, row, rg.radius, out[..]) <==> rg.radius > 0 || row == [] || old(out[0]) == 0.0)
  {
    hide IsGaussian, State, OutputTo, IsBlurred, Spot, End, RoundUpTo, BroadcastTriple;
    ghost var was := out[..];
    var zero := Triple(Set(0.0), Set(0.0), Set(0.0));
    AtRest(fs, row, rg.radius, was);
    var firstAligned := RoundUpTo(rg.radius + 1, 4);
    // Left side.
    var n, prev, prev2 := BoundsChecked(rg, fs, row, out, was, 1 - rg.radius, Min(firstAligned, |row|), zero, zero);
    HeadSpot(rg.radius, |row|, n);
    Broadcasted(fs, row, rg.radius, was, out[..], prev, prev2, n);
    ok, n, prev, prev2 := Unrolled(rg, fs, row, out, was, n, BroadcastTriple(0, prev), BroadcastTriple(0, prev2));
    if ok {
      // Remainder.
      ghost var m := n;
      n, prev, prev2 := BoundsChecked(rg, fs, row, out, was, n, |row|, prev, prev2);
      AtEnd(fs, row, rg.radius, was, out[..], prev, prev2, m, n);
      BlurredAll(fs, row, rg.radius, was, out[..]);
    }
  }
}
