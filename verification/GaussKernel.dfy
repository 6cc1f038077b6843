// What the recursive Gaussian computes: a symmetric window of the row, with
// zeros outside. libjxl/tools/gauss_blur.{h,cc}, over exact reals.
module GaussKernel {
  import opened GaussRow
  import opened Samples

  // The answer of a filter of n2 == 1 to a single sample.
  ghost function Response(d1: real, k: int): real
    decreases if k < 0 then 0 else k
  {
    if k < 0 then 0.0 else if k == 0 then 1.0 else -Times(d1, Response(d1, k - 1)) - Response(d1, k - 2)
  }

  // The response is back at its start after 2 * radius steps, with opposite sign:
  // so it is for d1 == -2 * cos(k * pi / (2 * radius)) and odd k.
  ghost predicate Closes(d1: real, radius: nat) {
    radius > 0 && Response(d1, 2 * radius - 1) == 0.0 && Response(d1, 2 * radius) == -1.0
  }

  ghost predicate AllClose(fs: Filters, radius: nat) {
    Closes(fs.k1.d1, radius) && Closes(fs.k3.d1, radius) && Closes(fs.k5.d1, radius)
  }

  // The response to the samples from a on, to the left, over k of them.
  ghost function Answer(d1: real, row: seq<real>, a: int, k: int): real
    decreases if k < 0 then 0 else k
  {
    if k <= 0 then 0.0 else Answer(d1, row, a, k - 1) + Times(Response(d1, k - 1), Sample(row, a - (k - 1)))
  }

  lemma TimesSum(c: real, x: real, y: real)
    ensures Times(c, x + y) == Times(c, x) + Times(c, y) && Times(x + y, c) == Times(x, c) + Times(y, c)
  {
  }

  lemma TimesNegative(c: real, x: real)
    ensures Times(-c, x) == -Times(c, x)
  {
  }

  lemma TimesGroups(c: real, x: real, y: real)
    ensures Times(c, Times(x, y)) == Times(Times(c, x), y) == Times(x, Times(c, y))
  {
  }

  lemma ResponseStep(d1: real, k: int, x: real)
    requires k >= 1
    ensures Times(Response(d1, k), x) + Times(d1, Times(Response(d1, k - 1), x)) + Times(Response(d1, k - 2), x) == 0.0
  {
    var p, q := Response(d1, k - 1), Response(d1, k - 2);
    assert Response(d1, k) == -Times(d1, p) - q;
    hide Response, Times;
    TimesSum(x, -Times(d1, p), -q);
    TimesNegative(Times(d1, p), x);
    TimesNegative(q, x);
    TimesGroups(d1, p, x);
  }

  // What two steps of the recurrence leave of the answers: the newest sample.
  lemma {:induction false} AnswerStep(d1: real, row: seq<real>, a: int, k: int)
    requires k >= 1
    ensures Answer(d1, row, a, k) + Times(d1, Answer(d1, row, a - 1, k - 1)) + Answer(d1, row, a - 2, k - 2)
         == Sample(row, a)
    decreases k
  {
    if k == 1 {
      OneSample(d1, row, a);
    } else {
      hide Answer, Response, Sample, Times;
      AnswerStep(d1, row, a, k - 1);
      var x := Sample(row, a - (k - 1));
      ResponseStep(d1, k - 1, x);
      OneMore(d1, row, a, k);
      OneMore(d1, row, a - 1, k - 1);
      OneMore(d1, row, a - 2, k - 2);
      TimesSum(d1, Answer(d1, row, a - 1, k - 2), Times(Response(d1, k - 2), x));
    }
  }

  lemma OneSample(d1: real, row: seq<real>, a: int)
    ensures Answer(d1, row, a, 1) == Sample(row, a)
    ensures Answer(d1, row, a - 1, 0) == Answer(d1, row, a - 2, -1) == Times(d1, 0.0) == 0.0
  {
    OneMore(d1, row, a, 1);
  }

  lemma OneMore(d1: real, row: seq<real>, a: int, k: int)
    ensures k >= 1 ==>
      Answer(d1, row, a, k) == Answer(d1, row, a, k - 1) + Times(Response(d1, k - 1), Sample(row, a - (k - 1)))
    ensures k < 1 ==> Answer(d1, row, a, k) == Answer(d1, row, a, k - 1) == Times(Response(d1, k - 1), 0.0) == 0.0
    ensures k < 1 ==> Times(Response(d1, k - 1), Sample(row, a - (k - 1))) == 0.0
  {
  }

  // The window of 2 * radius - 1 samples follows the recurrence.
  lemma WindowStep(d1: real, row: seq<real>, a: int, radius: nat)
    requires Closes(d1, radius)
    ensures var w := 2 * radius - 1;
            Answer(d1, row, a, w) + Times(d1, Answer(d1, row, a - 1, w)) + Answer(d1, row, a - 2, w)
            == Sample(row, a) + Sample(row, a - 2 * radius)
  {
    var w := 2 * radius - 1;
    AnswerStep(d1, row, a, w + 2);
    OneMore(d1, row, a, w + 2);
    OneMore(d1, row, a, w + 1);
    OneMore(d1, row, a - 1, w + 1);
  }

  lemma {:induction false} LeftOfRow(d1: real, row: seq<real>, a: int, k: int)
    requires a < 0
    ensures Answer(d1, row, a, k) == 0.0
    decreases if k < 0 then 0 else k
  {
    if k > 0 {
      LeftOfRow(d1, row, a, k - 1);
    }
  }

  // A filter of the recurrence weighs 2 * radius - 1 samples around the output.
  lemma {:induction false} ShortResponse(f: Filter, row: seq<real>, radius: nat, n: int)
    requires Closes(f.d1, radius)
    ensures Y(f, row, radius, n) == Times(f.n2, Answer(f.d1, row, n + radius - 1, 2 * radius - 1))
    decreases if n + radius < 0 then 0 else n + radius
  {
    var a, w := n + radius - 1, 2 * radius - 1;
    if n + radius <= 0 {
      LeftOfRow(f.d1, row, a, w);
    } else {
      ShortResponse(f, row, radius, n - 1);
      ShortResponse(f, row, radius, n - 2);
      WindowStep(f.d1, row, a, radius);
      hide Answer, Sample, Closes, Next, Times;
      Factor(f, Answer(f.d1, row, a, w), Answer(f.d1, row, a - 1, w), Answer(f.d1, row, a - 2, w),
             Input(row, radius, n));
    }
  }

  lemma Factor(f: Filter, x: real, p: real, pp: real, input: real)
    requires x + Times(f.d1, p) + pp == input
    ensures Next(f, input, Times(f.n2, p), Times(f.n2, pp)) == Times(f.n2, x)
  {
    hide Times;
    TimesSum(f.n2, x + Times(f.d1, p), pp);
    TimesSum(f.n2, x, Times(f.d1, p));
    TimesGroups(f.n2, f.d1, p);
  }

  // ---------------------------------------------------------------------
  // All three filters.

  // The weight of the i-th sample of the window.
  ghost function Kernel(fs: Filters, i: int): real {
    Times(fs.k1.n2, Response(fs.k1.d1, i)) + Times(fs.k3.n2, Response(fs.k3.d1, i))
    + Times(fs.k5.n2, Response(fs.k5.d1, i))
  }

  // The first k samples of the window around n, from the right.
  ghost function Weighed(fs: Filters, row: seq<real>, radius: nat, n: int, k: nat): real {
    if k == 0 then 0.0
    else Weighed(fs, row, radius, n, k - 1) + Times(Kernel(fs, k - 1), Sample(row, n + radius - k))
  }

  lemma {:induction false} WeighedIs(fs: Filters, row: seq<real>, radius: nat, n: int, k: nat)
    ensures var a := n + radius - 1;
            Weighed(fs, row, radius, n, k)
            == Times(fs.k1.n2, Answer(fs.k1.d1, row, a, k)) + Times(fs.k3.n2, Answer(fs.k3.d1, row, a, k))
               + Times(fs.k5.n2, Answer(fs.k5.d1, row, a, k))
    decreases k
  {
    if k > 0 {
      WeighedIs(fs, row, radius, n, k - 1);
      var a, x := n + radius - 1, Sample(row, n + radius - k);
      OneMore(fs.k1.d1, row, a, k);
      OneMore(fs.k3.d1, row, a, k);
      OneMore(fs.k5.d1, row, a, k);
      var u, v, w := Response(fs.k1.d1, k - 1), Response(fs.k3.d1, k - 1), Response(fs.k5.d1, k - 1);
      hide Answer, Response, Sample;
      Spread(fs.k1.n2, Answer(fs.k1.d1, row, a, k - 1), u, x);
      Spread(fs.k3.n2, Answer(fs.k3.d1, row, a, k - 1), v, x);
      Spread(fs.k5.n2, Answer(fs.k5.d1, row, a, k - 1), w, x);
      Gather(Times(fs.k1.n2, u), Times(fs.k3.n2, v), Times(fs.k5.n2, w), x);
    }
  }

  lemma Spread(c: real, s: real, u: real, x: real)
    ensures Times(c, s + Times(u, x)) == Times(c, s) + Times(Times(c, u), x)
  {
    assert c * (u * x) == (c * u) * x;
  }

  lemma Gather(p: real, q: real, r: real, x: real)
    ensures Times(p + q + r, x) == Times(p, x) + Times(q, x) + Times(r, x)
  {
  }

  // The blur of a sample is a weighted sum of the 2 * radius - 1 samples around
  // it, all three filters together.
  lemma BlurIsWindow(fs: Filters, row: seq<real>, radius: nat, n: int)
    requires AllClose(fs, radius)
    ensures Blurred(fs, row, radius, n) == Weighed(fs, row, radius, n, 2 * radius - 1)
  {
    ShortResponse(fs.k1, row, radius, n);
    ShortResponse(fs.k3, row, radius, n);
    ShortResponse(fs.k5, row, radius, n);
    WeighedIs(fs, row, radius, n, 2 * radius - 1);
  }

  lemma {:induction false} ResponseMirrors(d1: real, radius: nat, i: nat)
    requires Closes(d1, radius) && i <= 2 * radius - 2
    ensures Response(d1, 2 * radius - 2 - i) == Response(d1, i)
    ensures Response(d1, 2 * radius - 1 - i) == Response(d1, i - 1)
    decreases i
  {
    var last: nat := 2 * radius - 2;
    if i == 0 {
      assert Response(d1, last + 2) == -Times(d1, Response(d1, last + 1)) - Response(d1, last);
    } else {
      ResponseMirrors(d1, radius, i - 1);
      var j := last - i;
      assert Response(d1, j + 2) == -Times(d1, Response(d1, j + 1)) - Response(d1, j);
    }
  }

  // The window is symmetric: the sample at distance t on either side has the
  // same weight.
  lemma SymmetricWindow(fs: Filters, radius: nat, t: int)
    requires AllClose(fs, radius) && t < radius && -t < radius
    ensures Kernel(fs, radius - 1 + t) == Kernel(fs, radius - 1 - t)
  {
    var i := radius - 1 + t;
    ResponseMirrors(fs.k1.d1, radius, i);
    ResponseMirrors(fs.k3.d1, radius, i);
    ResponseMirrors(fs.k5.d1, radius, i);
  }
}
