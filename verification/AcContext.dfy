// Numbering of the entropy-coding contexts of AC coefficients:
// libjxl/lib/jxl/ac_context.h.
module AcContext {
  import opened Bits
  import C = CoeffOrders

  const NON_ZERO_BUCKETS: nat := 37
  const ZERO_DENSITY_CONTEXT_COUNT: nat := 458
  const ZERO_DENSITY_CONTEXT_LIMIT: nat := 474

  // Entry 0 is never used.
  const COEFF_FREQ_CONTEXT: seq<nat> :=
    [0xBAD, 0, 1, 2, 3, 4, 5, 6, 7, 8, 9, 10, 11, 12, 13, 14] +
    [15, 15, 16, 16, 17, 17, 18, 18, 19, 19, 20, 20, 21, 21, 22, 22] +
    [23, 23, 23, 23, 24, 24, 24, 24, 25, 25, 25, 25, 26, 26, 26, 26] +
    [27, 27, 27, 27, 28, 28, 28, 28, 29, 29, 29, 29, 30, 30, 30, 30]

  const COEFF_NUM_NONZERO_CONTEXT: seq<nat> :=
    [0xBAD, 0, 31, 62, 62, 93, 93, 93, 93, 123, 123, 123, 123] +
    [152, 152, 152, 152, 152, 152, 152, 152, 180, 180, 180, 180, 180] +
    [180, 180, 180, 180, 180, 180, 180, 206, 206, 206, 206, 206, 206] +
    [206, 206, 206, 206, 206, 206, 206, 206, 206, 206, 206, 206, 206] +
    [206, 206, 206, 206, 206, 206, 206, 206, 206, 206, 206, 206]

  // ---------------------------------------------------------------------
  // The tables, as step functions.

  // Bucket of a frequency index.
  function FreqBucket(y: nat): nat
    requires 1 <= y < 64
  {
    if y < 16 then y - 1 else if y < 32 then 15 + (y - 16) / 2 else 23 + (y - 32) / 4
  }

  // Bucket of a number of coefficients left; the contexts of bucket b begin at
  // BUCKET_BASE[b].
  function NonZeroBucket(x: nat): nat
    requires 1 <= x < 64
  {
    if x == 1 then 0 else if x == 2 then 1 else if x <= 4 then 2 else if x <= 8 then 3
    else if x <= 12 then 4 else if x <= 20 then 5 else if x <= 32 then 6 else 7
  }

  const BUCKET_BASE: seq<nat> := [0, 31, 62, 93, 123, 152, 180, 206, 229]

  lemma FreqTable(y: nat)
    requires 1 <= y < 64
    ensures COEFF_FREQ_CONTEXT[y] == FreqBucket(y)
  {
    if y < 32 {
      FreqTableLow(y);
    } else {
      FreqTableHigh(y);
    }
  }

  lemma FreqTableLow(y: nat)
    requires 1 <= y < 32
    ensures COEFF_FREQ_CONTEXT[y] == FreqBucket(y)
  {
  }

  lemma FreqTableHigh(y: nat)
    requires 32 <= y < 64
    ensures COEFF_FREQ_CONTEXT[y] == FreqBucket(y)
  {
    var i := y - 32;
    assert i / 4 == if i < 4 then 0 else if i < 8 then 1 else if i < 12 then 2 else if i < 16 then 3
                    else if i < 20 then 4 else if i < 24 then 5 else if i < 28 then 6 else 7;
  }

  lemma NonZeroTable(x: nat)
    requires 1 <= x < 64
    ensures COEFF_NUM_NONZERO_CONTEXT[x] == BUCKET_BASE[NonZeroBucket(x)]
  {
  }

  // As x and y together are at most 64, the contexts of a bucket end before
  // those of the next one begin.
  lemma BucketFits(x: nat, y: nat)
    requires 1 <= x < 64 && 1 <= y < 64 && x + y <= 64
    ensures var b := NonZeroBucket(x);
      b < 8 && BUCKET_BASE[b] + FreqBucket(y) < BUCKET_BASE[b + 1]
  {
  }

  // ---------------------------------------------------------------------
  // Contexts of one block context.

  // By the number of coefficients left and the index in scan order, for one
  // 8x8 block.
  function ZeroDensity(x: nat, y: nat, prev: nat): nat
    requires 1 <= x < 64 && 1 <= y < 64
  {
    2 * (BUCKET_BASE[NonZeroBucket(x)] + FreqBucket(y)) + prev
  }

  // Two cases share a context exactly when they share both buckets and `prev`.
  lemma ZeroDensityIsInjective(x: nat, y: nat, prev: nat, x': nat, y': nat, prev': nat)
    requires 1 <= x < 64 && 1 <= y < 64 && x + y <= 64 && prev < 2
    requires 1 <= x' < 64 && 1 <= y' < 64 && x' + y' <= 64 && prev' < 2
    ensures ZeroDensity(x, y, prev) < ZERO_DENSITY_CONTEXT_COUNT
    ensures ZeroDensity(x, y, prev) == ZeroDensity(x', y', prev')
       <==> NonZeroBucket(x) == NonZeroBucket(x') && FreqBucket(y) == FreqBucket(y') && prev == prev'
  {
    BucketFits(x, y);
    BucketFits(x', y');
    var b, c := NonZeroBucket(x), NonZeroBucket(x');
    BasesGrow(b, c);
    BasesGrow(c, b);
    BasesGrow(b, 7);
    hide NonZeroBucket, FreqBucket;
  }

  // Contexts are numbered by the bucket of what is left, then by that of the
  // position, then by the flag.
  lemma ZeroDensityIsSorted(x: nat, y: nat, prev: nat, x': nat, y': nat, prev': nat)
    requires 1 <= x < 64 && 1 <= y < 64 && x + y <= 64 && prev < 2
    requires 1 <= x' < 64 && 1 <= y' < 64 && x' + y' <= 64 && prev' < 2
    ensures var b, c, f, g := NonZeroBucket(x), NonZeroBucket(x'), FreqBucket(y), FreqBucket(y');
            ZeroDensity(x, y, prev) < ZeroDensity(x', y', prev')
            <==> b < c || (b == c && (f < g || (f == g && prev < prev')))
    ensures ZeroDensity(x, y, prev) % 2 == prev
  {
    BucketFits(x, y);
    BucketFits(x', y');
    var b, c := NonZeroBucket(x), NonZeroBucket(x');
    BasesGrow(b, c);
    BasesGrow(c, b);
    hide NonZeroBucket, FreqBucket;
  }

  lemma BasesGrow(b: nat, c: nat)
    requires b < 8 && c < 8
    ensures b < c ==> BUCKET_BASE[b + 1] <= BUCKET_BASE[c]
    ensures b <= 7 ==> BUCKET_BASE[b + 1] <= 229
  {
  }

  // ---------------------------------------------------------------------
  // Larger transforms: 1 << log2 blocks.

  // Both numbers after the division by the number of blocks.
  function ReducedLeft(nonzerosLeft: nat, log2: nat): nat { Shr(nonzerosLeft + (Pow2(log2) - 1), log2) }

  function ReducedIndex(k: nat, log2: nat): nat { Shr(k, log2) }

  predicate Reducible(nonzerosLeft: nat, k: nat, log2: nat) {
    1 <= ReducedLeft(nonzerosLeft, log2) < 64 && 1 <= ReducedIndex(k, log2) < 64
  }

  // They are in range exactly for what the decoder's loop lets pass: between 1
  // and 63 coefficients left for each block, and a position behind the lowest
  // frequencies. Together they are at most 64 when no more coefficients are left
  // than positions, which the loop does not check.
  lemma ReducedRange(nonzerosLeft: nat, k: nat, log2: nat)
    ensures Reducible(nonzerosLeft, k, log2)
       <==> 1 <= nonzerosLeft <= 63 * Pow2(log2) && Pow2(log2) <= k < 64 * Pow2(log2)
    ensures nonzerosLeft + k <= 64 * Pow2(log2) ==> ReducedLeft(nonzerosLeft, log2) + ReducedIndex(k, log2) <= 64
  {
    hide Pow2, Shr, LowBits, Shl;
    var a: nat := nonzerosLeft + (Pow2(log2) - 1);
    var x, y := Shr(a, log2), Shr(k, log2);
    ShiftMask(a, log2);
    ShiftMask(k, log2);
    ShlIsProduct(x, log2);
    ShlIsProduct(y, log2);
    Quotient(Pow2(log2), x, a);
    Quotient(Pow2(log2), y, k);
    Between(Pow2(log2), x, y, a, k);
  }

  lemma Quotient(p: nat, x: nat, a: nat)
    requires p >= 1 && x * p <= a < x * p + p
    ensures (x >= 1 <==> a >= p) && (x < 64 <==> a < 64 * p)
  {
    if x >= 64 {
      ProductGrows(x, 64, p);
    } else {
      ProductGrows(63, x, p);
    }
    if x >= 1 {
      ProductGrows(x, 1, p);
    }
  }

  lemma Between(p: nat, x: nat, y: nat, a: nat, k: nat)
    requires p >= 1 && x * p <= a < x * p + p && y * p <= k < y * p + p
    ensures a + k <= 65 * p - 1 ==> x + y <= 64
  {
    assert (x + y) * p == x * p + y * p;
    ProductGrows(x + y, 65, p);
  }

  lemma ProductGrows(n: nat, m: nat, p: nat)
    ensures n >= m ==> n * p >= m * p
  {
    if n >= m {
      assert n * p == m * p + (n - m) * p;
    }
  }

  // The two limits, and inputs that reach them.
  lemma DensityLimits(x: nat, y: nat, prev: nat)
    requires 1 <= x < 64 && 1 <= y < 64 && prev < 2
    ensures ZeroDensity(x, y, prev) < ZERO_DENSITY_CONTEXT_LIMIT
    ensures x + y <= 64 ==> ZeroDensity(x, y, prev) < ZERO_DENSITY_CONTEXT_COUNT
    ensures ZeroDensity(63, 63, 1) == ZERO_DENSITY_CONTEXT_LIMIT - 1
    ensures ZeroDensity(33, 30, 1) == ZERO_DENSITY_CONTEXT_COUNT - 1
  {
    if x + y <= 64 {
      ZeroDensityIsInjective(x, y, prev, x, y, prev);
    }
  }

  // Both tables at once.
  function TableSum(left: nat, index: nat): (sum: nat)
    requires 1 <= left < 64 && 1 <= index < 64
    ensures sum == BUCKET_BASE[NonZeroBucket(left)] + FreqBucket(index)
  {
    NonZeroTable(left);
    FreqTable(index);
    COEFF_NUM_NONZERO_CONTEXT[left] + COEFF_FREQ_CONTEXT[index]
  }

  // The source accepts every pair of numbers in range, also one that no valid
  // file has.
  method ZeroDensityContext(nonzerosLeft: nat, k: nat, coveredBlocks: nat, log2: nat, prev: nat) returns (ctx: nat)
    requires coveredBlocks == Pow2(log2) && prev < 2 && Reducible(nonzerosLeft, k, log2)
    ensures ctx == ZeroDensity(ReducedLeft(nonzerosLeft, log2), ReducedIndex(k, log2), prev)
    ensures ctx < ZERO_DENSITY_CONTEXT_LIMIT
    ensures nonzerosLeft + k <= 64 * coveredBlocks ==> ctx < ZERO_DENSITY_CONTEXT_COUNT
  {
    hide Pow2, Shr, NonZeroBucket, FreqBucket;
    ReducedRange(nonzerosLeft, k, log2);
    var left := Shr(nonzerosLeft + (coveredBlocks - 1), log2);
    var index := Shr(k, log2);
    assert left == ReducedLeft(nonzerosLeft, log2) && index == ReducedIndex(k, log2);
    hide ReducedLeft, ReducedIndex;
    ctx := TableSum(left, index) * 2 + prev;
    DensityLimits(left, index, prev);
  }

  // ---------------------------------------------------------------------
  // Block contexts.

  // A block context is a byte of the map, so there are at most 256.
  datatype BlockCtxMap = BlockCtxMap(qfThresholds: seq<nat>, ctxMap: seq<uint8>, numCtxs: nat, numDcCtxs: nat) {
    predicate Valid() {
      && 1 <= numCtxs <= 256 && numDcCtxs >= 1
      && |ctxMap| == Times(Times(3 * C.NUM_ORDERS, |qfThresholds| + 1), numDcCtxs)
      && forall i: nat | i < |ctxMap| :: ctxMap[i] < numCtxs
    }

    function NumACContexts(): nat {
      numCtxs * (NON_ZERO_BUCKETS + ZERO_DENSITY_CONTEXT_COUNT)
    }

    function ZeroDensityContextsOffset(blockCtx: nat): nat {
      numCtxs * NON_ZERO_BUCKETS + ZERO_DENSITY_CONTEXT_COUNT * blockCtx
    }
  }

  // Numbers of non-zeros, grouped: each up to 7, by two up to 63, the rest together.
  function CountBucket(nonZeros: nat): nat {
    if nonZeros >= 64 then 36 else if nonZeros < 8 then nonZeros else 4 + nonZeros / 2
  }

  method NonZeroContext(m: BlockCtxMap, nonZeros: uint32, blockCtx: nat) returns (ctx: nat)
    requires m.Valid() && blockCtx < m.numCtxs
    ensures ctx == Times(CountBucket(nonZeros), m.numCtxs) + blockCtx
    ensures ctx < m.ZeroDensityContextsOffset(0)
  {
    var n := nonZeros;
    if n >= 64 {
      n := 64;
    }
    var c;
    if n < 8 {
      c := n;
    } else {
      c := 4 + n / 2;
    }
    ctx := (c * m.numCtxs + blockCtx) % 0x1_0000_0000;
    CountInRange(c, m.numCtxs, blockCtx);
  }

  lemma CountInRange(c: nat, n: nat, b: nat)
    requires c <= 36 && b < n <= 256
    ensures c * n + b < 37 * n < 0x1_0000_0000
  {
    assert c * n <= 36 * n;
  }

  // Any two contexts for numbers of non-zeros are the same exactly when bucket
  // and block context are.
  lemma NonZeroIsInjective(m: BlockCtxMap, a: nat, b: nat, blockA: nat, blockB: nat)
    requires blockA < m.numCtxs && blockB < m.numCtxs
    requires Times(CountBucket(a), m.numCtxs) + blockA == Times(CountBucket(b), m.numCtxs) + blockB
    ensures CountBucket(a) == CountBucket(b) && blockA == blockB
  {
    hide CountBucket;
    var p := Times(CountBucket(a), m.numCtxs) + blockA;
    DivIs(p, CountBucket(a), m.numCtxs, blockA);
    DivIs(p, CountBucket(b), m.numCtxs, blockB);
  }

  // All contexts of the second kind come after those of the first kind, those of
  // one block context before those of the next one, and all below the number of
  // contexts.
  lemma RangesAreDisjoint(m: BlockCtxMap, blockA: nat, a: nat, blockB: nat, b: nat)
    requires m.Valid() && blockA < m.numCtxs && blockB < m.numCtxs
    requires a < ZERO_DENSITY_CONTEXT_COUNT && b < ZERO_DENSITY_CONTEXT_COUNT
    ensures m.ZeroDensityContextsOffset(0) <= m.ZeroDensityContextsOffset(blockA) + a < m.NumACContexts()
    ensures m.NumACContexts() < 0x1_0000_0000
    ensures m.ZeroDensityContextsOffset(blockA) + a == m.ZeroDensityContextsOffset(blockB) + b
       <==> blockA == blockB && a == b
    ensures blockA < blockB ==> m.ZeroDensityContextsOffset(blockA) + a < m.ZeroDensityContextsOffset(blockB)
  {
  }

  // The decoder looks contexts up in a map for several sets of histograms. The
  // padding at its end is just enough for the contexts of pairs that no valid
  // file has: the last of them uses the last place.
  lemma PaddingSuffices(m: BlockCtxMap, histograms: nat, h: nat, blockCtx: nat, ctx: nat)
    requires m.Valid() && h < histograms && blockCtx < m.numCtxs && ctx < ZERO_DENSITY_CONTEXT_LIMIT
    ensures var size := Times(histograms, m.NumACContexts()) + ZERO_DENSITY_CONTEXT_LIMIT - ZERO_DENSITY_CONTEXT_COUNT;
            var place := Times(h, m.NumACContexts()) + m.ZeroDensityContextsOffset(blockCtx) + ctx;
            && place < size
            && (place == size - 1
                <==> h == histograms - 1 && blockCtx == m.numCtxs - 1 && ctx == ZERO_DENSITY_CONTEXT_LIMIT - 1)
  {
    var all := m.NumACContexts();
    TimesNext(h, all);
    assert Times(h + 1, all) <= Times(histograms, all) by {
      ProductGrows(histograms, h + 1, all);
    }
    assert h + 1 < histograms ==> Times(h + 1, all) < Times(histograms, all) by {
      ProductGrows(histograms, h + 2, all);
      TimesNext(h + 1, all);
    }
    hide Times;
  }

  // ---------------------------------------------------------------------
  // Looking up a block context.

  ghost function CountBelow(thresholds: seq<nat>, qf: nat): nat {
    if thresholds == [] then 0
    else CountBelow(thresholds[..|thresholds| - 1], qf) + (if qf > thresholds[|thresholds| - 1] then 1 else 0)
  }

  lemma {:induction false} CountBelowBound(thresholds: seq<nat>, qf: nat)
    ensures CountBelow(thresholds, qf) <= |thresholds|
  {
    if thresholds != [] {
      CountBelowBound(thresholds[..|thresholds| - 1], qf);
    }
  }

  // Position in the map, by channel (the first two swapped), order bucket,
  // quantization and DC context.
  function MapIndex(channel: nat, ord: nat, qfIdx: nat, dcIdx: nat, qfs: nat, dcs: nat): nat
    requires channel < 3
  {
    var idx := if channel == 0 then 1 else if channel == 1 then 0 else 2;
    Times(Times(idx * C.NUM_ORDERS + ord, qfs) + qfIdx, dcs) + dcIdx
  }

  lemma MapIndexInRange(channel: nat, ord: nat, qfIdx: nat, dcIdx: nat, qfs: nat, dcs: nat)
    requires channel < 3 && ord < C.NUM_ORDERS && qfIdx < qfs && dcIdx < dcs
    ensures MapIndex(channel, ord, qfIdx, dcIdx, qfs, dcs) < Times(Times(3 * C.NUM_ORDERS, qfs), dcs)
  {
    var idx := if channel == 0 then 1 else if channel == 1 then 0 else 2;
    var i := idx * C.NUM_ORDERS + ord;
    DigitInRange(i, qfIdx, 3 * C.NUM_ORDERS, qfs);
    DigitInRange(Times(i, qfs) + qfIdx, dcIdx, Times(3 * C.NUM_ORDERS, qfs), dcs);
    hide Times;
  }

  lemma DigitInRange(high: nat, low: nat, n: nat, radix: nat)
    requires high < n && low < radix
    ensures Times(high, radix) + low < Times(n, radix)
  {
    assert Times(high, radix) + radix == (high + 1) * radix <= n * radix;
  }

  // Different arguments look up different places.
  lemma MapIndexIsInjective(channel: nat, ord: nat, qfIdx: nat, dcIdx: nat, channel': nat, ord': nat, qfIdx': nat,
                            dcIdx': nat, qfs: nat, dcs: nat)
    requires channel < 3 && ord < C.NUM_ORDERS && qfIdx < qfs && dcIdx < dcs
    requires channel' < 3 && ord' < C.NUM_ORDERS && qfIdx' < qfs && dcIdx' < dcs
    requires MapIndex(channel, ord, qfIdx, dcIdx, qfs, dcs) == MapIndex(channel', ord', qfIdx', dcIdx', qfs, dcs)
    ensures channel == channel' && ord == ord' && qfIdx == qfIdx' && dcIdx == dcIdx'
  {
    var i := (if channel == 0 then 1 else if channel == 1 then 0 else 2) * C.NUM_ORDERS + ord;
    var j := (if channel' == 0 then 1 else if channel' == 1 then 0 else 2) * C.NUM_ORDERS + ord';
    SameDigits(Times(i, qfs) + qfIdx, dcIdx, Times(j, qfs) + qfIdx', dcIdx', dcs);
    SameDigits(i, qfIdx, j, qfIdx', qfs);
    hide Times;
  }

  lemma SameDigits(high: nat, low: nat, high': nat, low': nat, radix: nat)
    requires low < radix && low' < radix && Times(high, radix) + low == Times(high', radix) + low'
    ensures high == high' && low == low'
  {
    DivIs(Times(high, radix) + low, high, radix, low);
    DivIs(Times(high, radix) + low, high', radix, low');
  }

  // The lookup stays inside the map, for every quantization field.
  method Context(m: BlockCtxMap, dcIdx: nat, qf: uint32, ord: nat, c: nat) returns (ctx: nat)
    requires m.Valid() && dcIdx < m.numDcCtxs && ord < C.NUM_ORDERS && c < 3
    ensures CountBelow(m.qfThresholds, qf) <= |m.qfThresholds|
    ensures var i := MapIndex(c, ord, CountBelow(m.qfThresholds, qf), dcIdx, |m.qfThresholds| + 1, m.numDcCtxs);
      i < |m.ctxMap| && ctx == m.ctxMap[i]
    ensures ctx < m.numCtxs
  {
    var qfIdx := 0;
    for t := 0 to |m.qfThresholds|
      invariant qfIdx == CountBelow(m.qfThresholds[..t], qf) && qfIdx <= t
    {
      assert m.qfThresholds[..t + 1][..t] == m.qfThresholds[..t];
      if qf > m.qfThresholds[t] {
        qfIdx := qfIdx + 1;
      }
    }
    assert m.qfThresholds[..|m.qfThresholds|] == m.qfThresholds;
    var idx := if c < 2 then Xor(c, 1) else 2;
    XorOne();
    idx := idx * C.NUM_ORDERS + ord;
    idx := Times(idx, |m.qfThresholds| + 1) + qfIdx;
    idx := Times(idx, m.numDcCtxs) + dcIdx;
    MapIndexInRange(c, ord, qfIdx, dcIdx, |m.qfThresholds| + 1, m.numDcCtxs);
    ctx := m.ctxMap[idx];
  }

  lemma XorOne()
    ensures Xor(0, 1) == 1 && Xor(1, 1) == 0
  {
  }

  // The quantization index is the number of thresholds below the value.
  lemma {:induction false} CountBelowIs(thresholds: seq<nat>, qf: nat)
    ensures CountBelow(thresholds, qf) == |set i: nat | i < |thresholds| && qf > thresholds[i]|
  {
    var below := set i: nat | i < |thresholds| && qf > thresholds[i];
    if thresholds == [] {
      assert below == {};
    } else {
      var last: nat := |thresholds| - 1;
      var rest := thresholds[..last];
      CountBelowIs(rest, qf);
      assert below == (set i: nat | i < |rest| && qf > rest[i]) + (if qf > thresholds[last] then {last} else {});
    }
  }

  // The map begins with channel 1, and channel 0 comes next.
  predicate EarlierChannel(c: nat, c': nat) {
    c != c' && (c == 1 || c' == 2)
  }

  lemma DigitsOrder(high: nat, low: nat, high': nat, low': nat, radix: nat)
    requires low < radix && low' < radix
    ensures Times(high, radix) + low < Times(high', radix) + low' <==> high < high' || (high == high' && low < low')
  {
    if high < high' {
      DigitInRange(high, low, high', radix);
    } else if high' < high {
      DigitInRange(high', low', high, radix);
    }
  }

  // The map is sorted by channel, order bucket, quantization and DC context.
  lemma MapIsSorted(channel: nat, ord: nat, qfIdx: nat, dcIdx: nat, channel': nat, ord': nat, qfIdx': nat,
                    dcIdx': nat, qfs: nat, dcs: nat)
    requires channel < 3 && ord < C.NUM_ORDERS && qfIdx < qfs && dcIdx < dcs
    requires channel' < 3 && ord' < C.NUM_ORDERS && qfIdx' < qfs && dcIdx' < dcs
    ensures MapIndex(channel, ord, qfIdx, dcIdx, qfs, dcs) < MapIndex(channel', ord', qfIdx', dcIdx', qfs, dcs)
       <==> || EarlierChannel(channel, channel')
            || (channel == channel'
                && (ord < ord' || (ord == ord' && (qfIdx < qfIdx' || (qfIdx == qfIdx' && dcIdx < dcIdx')))))
  {
    hide Times;
    var i := (if channel == 0 then 1 else if channel == 1 then 0 else 2) * C.NUM_ORDERS + ord;
    var j := (if channel' == 0 then 1 else if channel' == 1 then 0 else 2) * C.NUM_ORDERS + ord';
    ThreeDigits(i, qfIdx, dcIdx, j, qfIdx', dcIdx', qfs, dcs);
    assert i < j <==> EarlierChannel(channel, channel') || (channel == channel' && ord < ord');
    assert i == j <==> channel == channel' && ord == ord';
  }

  lemma ThreeDigits(i: nat, q: nat, d: nat, j: nat, q': nat, d': nat, qfs: nat, dcs: nat)
    requires q < qfs && q' < qfs && d < dcs && d' < dcs
    ensures Times(Times(i, qfs) + q, dcs) + d < Times(Times(j, qfs) + q', dcs) + d'
       <==> i < j || (i == j && (q < q' || (q == q' && d < d')))
  {
    hide Times;
    DigitsOrder(Times(i, qfs) + q, d, Times(j, qfs) + q', d', dcs);
    DigitsOrder(i, q, j, q', qfs);
    DigitsOrder(j, q', i, q, qfs);
  }

  // Buckets begin at 0, grow in steps of one, and are shared by equal numbers, by
  // two neighbours from 8 on, and by all from 64 on.
  lemma SharedCountBucket(a: nat, b: nat)
    requires a <= b
    ensures CountBucket(0) == 0 && CountBucket(a) <= CountBucket(b) && CountBucket(a + 1) <= CountBucket(a) + 1
    ensures CountBucket(a) == CountBucket(b) <==> a == b || a >= 64 || (a >= 8 && a % 2 == 0 && b == a + 1)
  {
  }
}
