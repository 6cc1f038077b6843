// Decoding coefficient orders: libjxl/lib/jxl/coeff_order.{h,cc}.
module CoeffOrders {
  import opened Bits
  import opened Lehmer
  import opened ZigZag

  const NUM_STRATEGIES: nat := 27
  const NUM_ORDERS: nat := 13
  const DCT_BLOCK_SIZE: nat := 64
  const COEFF_ORDER_LIMIT: nat := 6156

  // Blocks covered by a strategy.
  const COVERED_X: seq<nat> :=
    [1, 1, 1, 1, 2, 4, 1, 2, 1, 4, 2, 4, 1, 1, 1, 1, 1, 1, 8, 4, 8, 16, 8, 16, 32, 16, 32]
  const COVERED_Y: seq<nat> :=
    [1, 1, 1, 1, 2, 4, 2, 1, 4, 1, 4, 2, 1, 1, 1, 1, 1, 1, 8, 8, 4, 16, 16, 8, 32, 32, 16]

  // Order bucket of a strategy.
  const STRATEGY_ORDER: seq<nat> :=
    [0, 1, 1, 1, 2, 3, 4, 4, 5, 5, 6, 6, 1, 1, 1, 1, 1, 1, 7, 8, 8, 9, 10, 10, 11, 12, 12]

  // Start of the region of bucket o and channel c, at 3 * o + c, in blocks.
  const COEFF_ORDER_OFFSET: seq<nat> :=
    [0, 1, 2, 3, 4, 5, 6, 10, 14, 18, 34, 50, 66, 68, 70, 72, 76, 80, 84, 92, 100, 108, 172, 236, 300, 332, 364, 396,
     652, 908, 1164, 1292, 1420, 1548, 2572, 3596, 4620, 5132, 5644, COEFF_ORDER_LIMIT]

  // The shape that all strategies of a bucket share.
  ghost const BUCKET_LAYOUT: seq<Layout> :=
    [Layout(1, 0), Layout(1, 0), Layout(2, 0), Layout(4, 0), Layout(1, 1), Layout(1, 2), Layout(2, 1), Layout(8, 0),
     Layout(4, 1), Layout(16, 0), Layout(8, 1), Layout(32, 0), Layout(16, 1)]

  function CoeffOrderOffset(o: nat, c: nat): nat
    requires o < NUM_ORDERS && c < 3
  {
    COEFF_ORDER_OFFSET[3 * o + c] * DCT_BLOCK_SIZE
  }

  // CoefficientLayout: the smaller coordinate counts rows.
  function CoefficientRows(o: nat): nat
    requires o < NUM_STRATEGIES
  {
    if COVERED_Y[o] < COVERED_X[o] then COVERED_Y[o] else COVERED_X[o]
  }

  function CoefficientColumns(o: nat): nat
    requires o < NUM_STRATEGIES
  {
    if COVERED_Y[o] < COVERED_X[o] then COVERED_X[o] else COVERED_Y[o]
  }

  ghost const BUCKET_CX: seq<nat> := [1, 1, 2, 4, 2, 4, 4, 8, 8, 16, 16, 32, 32]
  ghost const BUCKET_LLF: seq<nat> := [1, 1, 4, 16, 2, 4, 8, 64, 32, 256, 128, 1024, 512]

  lemma BucketSize(b: nat)
    requires b < NUM_ORDERS
    ensures BUCKET_LAYOUT[b].Cx() == BUCKET_CX[b] && BUCKET_LAYOUT[b].Llf() == BUCKET_LLF[b] > 0
  {
    assert Shl(1, 1) == 2 && Shl(1, 2) == 4 && Shl(2, 1) == 4 && Shl(4, 1) == 8 && Shl(8, 1) == 16 && Shl(16, 1) == 32;
  }

  // What a strategy covers, and the bucket it belongs to.
  ghost predicate HasShape(o: nat, b: nat)
    requires o < NUM_STRATEGIES && b < NUM_ORDERS
  {
    && CoefficientRows(o) == BUCKET_LAYOUT[b].cy > 0 && CoefficientColumns(o) == BUCKET_CX[b]
    && COVERED_X[o] * COVERED_Y[o] == BUCKET_LLF[b]
  }

  // Every strategy has the shape of its bucket.
  lemma StrategyFits(o: nat)
    requires o < NUM_STRATEGIES
    ensures STRATEGY_ORDER[o] < NUM_ORDERS && HasShape(o, STRATEGY_ORDER[o])
  {
    if o < 9 {
      LowStrategyFits(o);
    } else if o < 18 {
      MiddleStrategyFits(o);
    } else {
      HighStrategyFits(o);
    }
    hide HasShape;
  }

  lemma LowStrategyFits(o: nat)
    requires o < 9
    ensures STRATEGY_ORDER[o] < NUM_ORDERS && HasShape(o, STRATEGY_ORDER[o])
  {
    match o
    case 0 => case 1 => case 2 => case 3 => case 4 => case 5 => case 6 => case 7 => case 8 =>
    case _ =>
  }

  lemma MiddleStrategyFits(o: nat)
    requires 9 <= o < 18
    ensures STRATEGY_ORDER[o] < NUM_ORDERS && HasShape(o, STRATEGY_ORDER[o])
  {
    match o
    case 9 => case 10 => case 11 => case 12 => case 13 => case 14 => case 15 => case 16 => case 17 =>
    case _ =>
  }

  lemma HighStrategyFits(o: nat)
    requires 18 <= o < NUM_STRATEGIES
    ensures STRATEGY_ORDER[o] < NUM_ORDERS && HasShape(o, STRATEGY_ORDER[o])
  {
    match o
    case 18 => case 19 => case 20 => case 21 => case 22 => case 23 => case 24 => case 25 => case 26 =>
    case _ =>
  }

  lemma BucketsDiffer(b: nat, b': nat)
    requires b < NUM_ORDERS && b' < NUM_ORDERS
    ensures BUCKET_LAYOUT[b].cy == BUCKET_LAYOUT[b'].cy && BUCKET_CX[b] == BUCKET_CX[b']
       <==> b == b' || (b <= 1 && b' <= 1)
  {
    BucketCode(b);
    BucketCode(b');
  }

  // The shape as one number, which grows from bucket 1 on but for a few.
  lemma BucketCode(b: nat)
    requires b < NUM_ORDERS
    ensures 100 * BUCKET_LAYOUT[b].cy + BUCKET_CX[b]
         == [101, 101, 202, 404, 102, 104, 204, 808, 408, 1616, 816, 3232, 1632][b]
    ensures 0 < BUCKET_CX[b] < 100
  {
    match b
    case 0 => case 1 => case 2 => case 3 => case 4 => case 5 => case 6 => case 7 => case 8 => case 9 =>
    case 10 => case 11 => case 12 => case _ =>
  }

  lemma FirstStrategyAlone(o: nat)
    requires o < NUM_STRATEGIES
    ensures STRATEGY_ORDER[o] == 0 <==> o == 0
  {
    match o
    case 0 => case _ =>
  }

  // Strategies share a bucket exactly if they cover the same shape, up to
  // transposition; of those that cover one block, the plain transform, which is
  // the first, is on its own.
  lemma SharedBucket(o: nat, p: nat)
    requires o < NUM_STRATEGIES && p < NUM_STRATEGIES
    ensures STRATEGY_ORDER[o] == STRATEGY_ORDER[p]
       <==> CoefficientRows(o) == CoefficientRows(p) && CoefficientColumns(o) == CoefficientColumns(p)
            && (o == 0 <==> p == 0)
  {
    StrategyFits(o);
    StrategyFits(p);
    FirstStrategyAlone(o);
    FirstStrategyAlone(p);
    BucketsDiffer(STRATEGY_ORDER[o], STRATEGY_ORDER[p]);
    hide CoefficientRows, CoefficientColumns;
  }

  // Buckets are numbered in the order in which strategies need them.
  lemma BucketsInOrder(o: nat) returns (p: nat)
    requires o < NUM_STRATEGIES && STRATEGY_ORDER[o] > 0
    ensures p < o && STRATEGY_ORDER[p] == STRATEGY_ORDER[o] - 1
  {
    p := [0, 0, 1, 4, 5, 6, 8, 10, 18, 19, 21, 22, 24][STRATEGY_ORDER[o]];
    FirstOfBucket(o);
  }

  lemma FirstOfBucket(o: nat)
    requires o < NUM_STRATEGIES && STRATEGY_ORDER[o] > 0
    ensures var p := [0, 0, 1, 4, 5, 6, 8, 10, 18, 19, 21, 22, 24][STRATEGY_ORDER[o]];
            p < o && STRATEGY_ORDER[p] == STRATEGY_ORDER[o] - 1
  {
    match o
    case 1 => case 2 => case 3 => case 4 => case 5 => case 6 => case 7 => case 8 => case 9 => case 10 => case 11 =>
    case 12 => case 13 => case 14 => case 15 => case 16 => case 17 => case 18 => case 19 => case 20 => case 21 =>
    case 22 => case 23 => case 24 => case 25 => case 26 =>
    case _ =>
  }

  // A bucket's three regions have the bucket's size and follow one another.
  lemma RegionSize(b: nat, c: nat)
    requires b < NUM_ORDERS && c < 3
    ensures COEFF_ORDER_OFFSET[3 * b + c] + BUCKET_LAYOUT[b].Llf() == COEFF_ORDER_OFFSET[3 * b + c + 1]
    ensures COEFF_ORDER_OFFSET[3 * b + c + 1] <= COEFF_ORDER_LIMIT
  {
    BucketSize(b);
    RegionBlocks(b, c);
  }

  ghost predicate RegionEnds(b: nat, c: nat)
    requires b < NUM_ORDERS && c < 3
  {
    COEFF_ORDER_OFFSET[3 * b + c] + BUCKET_LLF[b] == COEFF_ORDER_OFFSET[3 * b + c + 1] <= COEFF_ORDER_LIMIT
  }

  lemma RegionBlocks(b: nat, c: nat)
    requires b < NUM_ORDERS && c < 3
    ensures RegionEnds(b, c)
  {
    hide RegionEnds;
    if b < 4 {
      LowRegionBlocks(b, c);
    } else if b < 8 {
      MiddleRegionBlocks(b, c);
    } else {
      HighRegionBlocks(b, c);
    }
  }

  lemma LowRegionBlocks(b: nat, c: nat)
    requires b < 4 && c < 3
    ensures RegionEnds(b, c)
  {
  }

  lemma MiddleRegionBlocks(b: nat, c: nat)
    requires 4 <= b < 8 && c < 3
    ensures RegionEnds(b, c)
  {
  }

  lemma HighRegionBlocks(b: nat, c: nat)
    requires 8 <= b < NUM_ORDERS && c < 3
    ensures RegionEnds(b, c)
  {
  }

  lemma {:induction false} OffsetsGrow(i: nat, j: nat)
    requires i <= j < |COEFF_ORDER_OFFSET|
    ensures COEFF_ORDER_OFFSET[i] <= COEFF_ORDER_OFFSET[j]
  {
    if i < j {
      OffsetsGrow(i, j - 1);
      NextOffset(j - 1);
    }
  }

  lemma NextOffset(i: nat)
    requires i + 1 < |COEFF_ORDER_OFFSET|
    ensures COEFF_ORDER_OFFSET[i] <= COEFF_ORDER_OFFSET[i + 1]
  {
    var b, c := i / 3, i % 3;
    assert i == 3 * b + c;
    RegionBlocks(b, c);
  }

  ghost predicate InRegion(b: nat, c: nat, p: nat)
    requires b < NUM_ORDERS && c < 3
  {
    CoeffOrderOffset(b, c) <= p < CoeffOrderOffset(b, c) + BUCKET_LAYOUT[b].Size()
  }

  lemma RegionEndsAt(b: nat, c: nat)
    requires b < NUM_ORDERS && c < 3
    ensures CoeffOrderOffset(b, c) + BUCKET_LAYOUT[b].Size() == COEFF_ORDER_OFFSET[3 * b + c + 1] * DCT_BLOCK_SIZE
  {
    RegionSize(b, c);
  }

  lemma RegionsFollow(b: nat, c: nat, b': nat, c': nat)
    requires b < NUM_ORDERS && c < 3 && b' < NUM_ORDERS && c' < 3 && 3 * b + c < 3 * b' + c'
    ensures CoeffOrderOffset(b, c) + BUCKET_LAYOUT[b].Size() <= CoeffOrderOffset(b', c')
  {
    RegionEndsAt(b, c);
    assert CoeffOrderOffset(b', c') == COEFF_ORDER_OFFSET[3 * b' + c'] * DCT_BLOCK_SIZE;
    hide CoeffOrderOffset, Layout.Size;
    OffsetsGrow(3 * b + c + 1, 3 * b' + c');
  }

  // Regions of different buckets or channels never overlap.
  lemma RegionsDisjoint(b: nat, c: nat, b': nat, c': nat, p: nat)
    requires b < NUM_ORDERS && c < 3 && b' < NUM_ORDERS && c' < 3
    requires InRegion(b, c, p) && InRegion(b', c', p)
    ensures b == b' && c == c'
  {
    hide CoeffOrderOffset;
    if 3 * b + c < 3 * b' + c' {
      RegionsFollow(b, c, b', c');
    } else if 3 * b' + c' < 3 * b + c {
      RegionsFollow(b', c', b, c);
    }
  }

  // ---------------------------------------------------------------------
  // Reading. The entropy decoder is an arbitrary stream of 32-bit tokens.

  class TokenReader {
    const source: nat -> uint32
    var pos: nat

    constructor (source: nat -> uint32)
      ensures this.source == source && pos == 0
    {
      this.source := source;
      pos := 0;
    }

    method ReadHybridUint() returns (token: uint32)
      modifies this`pos
      ensures token == source(old(pos)) && pos == old(pos) + 1
    {
      token := source(pos);
      pos := pos + 1;
    }
  }

  ghost predicate FixesPrefix(p: seq<nat>, skip: nat) {
    skip <= |p| && forall k: nat | k < skip :: p[k] == k
  }

  // A permutation starts with its end, relative to the skipped prefix, and then
  // has its digits from there to the end; all other digits are 0.
  ghost function End(source: nat -> uint32, t: nat, skip: nat): nat {
    (source(t) + skip) % 0x1_0000_0000
  }

  ghost function Digit(source: nat -> uint32, t: nat, skip: nat, k: nat): nat
    requires skip <= k
  {
    source(t + 1 + (k - skip))
  }

  ghost predicate TokensOk(source: nat -> uint32, t: nat, skip: nat, size: nat) {
    End(source, t, skip) <= size
    && forall k: nat | skip <= k < End(source, t, skip) :: Digit(source, t, skip, k) + k < size
  }

  ghost function Code(source: nat -> uint32, t: nat, skip: nat, size: nat): (code: seq<nat>)
    ensures |code| == size
  {
    seq(size, k requires 0 <= k < size => if skip <= k < End(source, t, skip) then Digit(source, t, skip, k) else 0)
  }

  // Where the tokens of the next permutation begin.
  ghost function After(source: nat -> uint32, t: nat, skip: nat): nat {
    t + 1 + (if End(source, t, skip) > skip then End(source, t, skip) - skip else 0)
  }

  // Tokens are good exactly if the end is not past the size and the digits are a
  // valid Lehmer code.
  lemma TokensAreCode(source: nat -> uint32, t: nat, skip: nat, size: nat)
    requires skip <= size && size > 0
    ensures TokensOk(source, t, skip, size)
       <==> End(source, t, skip) <= size && ValidCode(size, Code(source, t, skip, size))
  {
    var code := Code(source, t, skip, size);
    if End(source, t, skip) <= size && ValidCode(size, code) {
      forall k: nat | skip <= k < End(source, t, skip)
        ensures Digit(source, t, skip, k) + k < size
      {
        assert code[k] + k < size;
      }
    }
  }

  // After the token of the end, token j is the digit of position skip + j; all
  // other digits are 0, and the next permutation follows.
  lemma DigitsFollow(source: nat -> uint32, t: nat, skip: nat, size: nat, j: nat)
    requires TokensOk(source, t, skip, size) && source(t) + skip < 0x1_0000_0000 && j < size
    ensures source(t) + skip <= size && After(source, t, skip) == t + 1 + source(t)
    ensures Code(source, t, skip, size)[j]
         == if skip <= j < skip + source(t) then source(t + 1 + j - skip) else 0
  {
  }

  // The permutation that the tokens code, written at order[base..base + size];
  // it leaves the first `skip` entries in place. Fails exactly on bad tokens.
  method ReadPermutation(skip: nat, size: nat, order: array<nat>, write: bool, base: nat, reader: TokenReader)
    returns (ok: bool)
    requires skip <= size && 0 < size < 0x1_0000_0000
    requires base + size <= order.Length
    modifies order, reader`pos
    ensures SameOutside(old(order[..]), order[..], base, base + size)
    ensures !write ==> order[..] == old(order[..])
    ensures ok <==> TokensOk(reader.source, old(reader.pos), skip, size)
    ensures ok ==> reader.pos == After(reader.source, old(reader.pos), skip)
    ensures ok && write ==> IsLehmer(size, Code(reader.source, old(reader.pos), skip, size), order[base..base + size])
    ensures ok && write ==> IsPermutation(size, order[base..base + size])
    ensures ok && write ==> FixesPrefix(order[base..base + size], skip)
  {
    hide IsLehmer, IsPermutation, FixesPrefix;
    ghost var source, t := reader.source, reader.pos;
    var lehmer: seq<nat> := seq(size, _ => 0);
    var token := reader.ReadHybridUint();
    var end := (token + skip) % 0x1_0000_0000;
    if end > size {
      return false;
    }
    var i := skip;
    while i < end
      invariant |lehmer| == size && skip <= i && (i <= end || i == skip)
      invariant reader.pos == t + 1 + (i - skip)
      invariant forall k: nat | skip <= k < i :: lehmer[k] == Digit(source, t, skip, k) && lehmer[k] + k < size
      invariant forall k: nat | k < size && !(skip <= k < i) :: lehmer[k] == 0
      modifies reader`pos
    {
      token := reader.ReadHybridUint();
      assert token == Digit(source, t, skip, i);
      if token >= size - i {
        return false;
      }
      lehmer := lehmer[i := token];
      i := i + 1;
    }
    assert lehmer == Code(source, t, skip, size);
    if !write {
      return true;
    }
    ok := DecodeLehmerCode(lehmer, size, order, base);
    LehmerIsPermutation(size, lehmer, order[base..base + size]);
    PrefixFixed(size, lehmer, order[base..base + size], skip);
  }

  lemma PrefixFixed(n: nat, code: seq<nat>, perm: seq<nat>, skip: nat)
    requires IsLehmer(n, code, perm) && skip <= n && forall k: nat | k < skip :: code[k] == 0
    ensures FixesPrefix(perm, skip)
  {
    ZeroPrefix(n, code, perm, skip);
  }

  // What a used strategy needs of the region of its bucket and a channel: a
  // permutation of its coefficients that starts with the lowest frequencies,
  // in raster order.
  ghost predicate IsCoeffOrder(l: Layout, region: seq<nat>) {
    IsPermutation(l.Size(), region) && forall x: nat, y: nat | x < l.Cx() && y < l.cy :: LlfAt(l, region, x, y)
  }

  lemma CompletePrefix(l: Layout, natural: seq<nat>)
    requires l.Size() <= |natural| && Complete(l, false, natural)
    ensures Complete(l, false, natural[..l.Size()])
  {
    forall c | InGrid(l, c)
      ensures Written(l, false, natural[..l.Size()], c)
    {
      SlotBound(l, false, c);
      assert Written(l, false, natural, c);
    }
  }

  lemma ComposedPermutation(n: nat, natural: seq<nat>, perm: seq<nat>, region: seq<nat>)
    requires IsPermutation(n, natural) && IsPermutation(n, perm)
    requires |region| == n && forall k: nat | k < n :: region[k] == natural[perm[k]]
    ensures IsPermutation(n, region)
  {
    forall i: nat, j: nat | i < j < n
      ensures region[i] != region[j]
    {
      assert perm[i] != perm[j];
      assert natural[perm[i]] != natural[perm[j]];
    }
  }

  // The natural order after a permutation that leaves the start in place.
  lemma ComposedOrder(l: Layout, natural: seq<nat>, perm: seq<nat>, region: seq<nat>)
    requires |natural| == l.Size() && Complete(l, false, natural)
    requires IsPermutation(l.Size(), perm) && FixesPrefix(perm, l.Llf())
    requires |region| == l.Size() && forall k: nat | k < l.Size() :: region[k] == natural[perm[k]]
    ensures IsCoeffOrder(l, region)
  {
    hide Complete;
    NaturalOrderIsPermutation(l, natural);
    ComposedPermutation(l.Size(), natural, perm, region);
    forall x: nat, y: nat | x < l.Cx() && y < l.cy
      ensures LlfAt(l, region, x, y)
    {
      LlfKept(l, natural, perm, region, x, y);
    }
  }

  lemma LlfKept(l: Layout, natural: seq<nat>, perm: seq<nat>, region: seq<nat>, x: nat, y: nat)
    requires FixesPrefix(perm, l.Llf()) && |perm| == |region| == |natural|
    requires forall k: nat | k < |perm| :: perm[k] < |perm| && region[k] == natural[perm[k]]
    requires x < l.Cx() && y < l.cy && LlfAt(l, natural, x, y)
    ensures LlfAt(l, region, x, y)
  {
    FlatLess(x, y, l.Cx(), l.cy);
    var k := y * l.Cx() + x;
    assert perm[k] == k;
  }

  lemma NaturalIsCoeffOrder(l: Layout, natural: seq<nat>)
    requires |natural| == l.Size() && Complete(l, false, natural)
    ensures IsCoeffOrder(l, natural)
  {
    ComposedOrder(l, natural, seq(l.Size(), k requires 0 <= k => k), natural);
  }

  ghost predicate Composes(natural: seq<nat>, perm: seq<nat>, region: seq<nat>) {
    && |natural| == |perm| == |region|
    && forall k: nat | k < |perm| :: perm[k] < |natural| && region[k] == natural[perm[k]]
  }

  // The natural order, taken in the order of the permutation with this code.
  ghost predicate OrderRead(l: Layout, code: seq<nat>, region: seq<nat>) {
    exists natural: seq<nat>, perm: seq<nat> ::
      |natural| == l.Size() && Complete(l, false, natural) && IsLehmer(l.Size(), code, perm)
        && Composes(natural, perm, region)
  }

  // Position k of the region holds the cell whose zig-zag rank is the k-th element
  // of the permutation.
  lemma RegionRanks(l: Layout, code: seq<nat>, perm: seq<nat>, region: seq<nat>, k: nat, c: Cell)
    requires IsLehmer(l.Size(), code, perm) && OrderRead(l, code, region) && k < l.Size() && InGrid(l, c)
    ensures |region| == l.Size() == |perm| && (region[k] == Pos(l, c) <==> Rank(l, c) == perm[k])
  {
    hide Rank, Pos, InGrid, IsLehmer, Layout.Size;
    var natural: seq<nat>, p: seq<nat> :| |natural| == l.Size() && Complete(l, false, natural)
                                          && IsLehmer(l.Size(), code, p) && Composes(natural, p, region);
    PermutationUnique(l.Size(), code, perm, p, l.Size());
    LehmerSize(l.Size(), code, p);
    LehmerSize(l.Size(), code, perm);
    assert perm == perm[..l.Size()] && p == p[..l.Size()];
    assert Written(l, false, natural, c);
    var e := RankSurjective(l, perm[k]);
    assert Written(l, false, natural, e);
    if region[k] == Pos(l, c) {
      PosInjective(l, c, e);
    }
  }

  // Natural order and permutation are determined, and so is the region.
  lemma OrderReadOnce(l: Layout, code: seq<nat>, a: seq<nat>, b: seq<nat>)
    requires OrderRead(l, code, a) && OrderRead(l, code, b)
    ensures a == b
  {
    var n1: seq<nat>, p1: seq<nat> :| |n1| == l.Size() && Complete(l, false, n1) && IsLehmer(l.Size(), code, p1)
                                   && Composes(n1, p1, a);
    var n2: seq<nat>, p2: seq<nat> :| |n2| == l.Size() && Complete(l, false, n2) && IsLehmer(l.Size(), code, p2)
                                   && Composes(n2, p2, b);
    PermutationUnique(l.Size(), code, p1, p2, l.Size());
    LehmerSize(l.Size(), code, p1);
    LehmerSize(l.Size(), code, p2);
    assert p1[..l.Size()] == p1 && p2[..l.Size()] == p2;
    NaturalUnique(l, n1, n2);
  }

  lemma LehmerSize(n: nat, code: seq<nat>, perm: seq<nat>)
    requires IsLehmer(n, code, perm)
    ensures |perm| == n
  {
  }

  lemma NaturalUnique(l: Layout, a: seq<nat>, b: seq<nat>)
    requires |a| == |b| == l.Size() && Complete(l, false, a) && Complete(l, false, b)
    ensures a == b
  {
    forall v: nat | v < l.Size()
      ensures a[v] == b[v]
    {
      var c := RankSurjective(l, v);
      assert Written(l, false, a, c) && Written(l, false, b, c);
    }
  }

  // Reads a permutation and maps it through the natural order, in place.
  method DecodeCoeffOrder(ghost l: Layout, llf: nat, order: array<nat>, write: bool, base: nat,
                          reader: TokenReader, naturalOrder: array<nat>)
    returns (ok: bool)
    requires naturalOrder != order && l.Size() <= naturalOrder.Length && Complete(l, false, naturalOrder[..])
    requires llf == l.Llf() && 0 < l.Size() < 0x1_0000_0000 && base + l.Size() <= order.Length
    modifies order, reader`pos
    ensures SameOutside(old(order[..]), order[..], base, base + l.Size())
    ensures !write ==> order[..] == old(order[..])
    ensures ok <==> TokensOk(reader.source, old(reader.pos), l.Llf(), l.Size())
    ensures ok ==> reader.pos == After(reader.source, old(reader.pos), l.Llf())
    ensures ok && write ==>
              OrderRead(l, Code(reader.source, old(reader.pos), l.Llf(), l.Size()), order[base..base + l.Size()])
    ensures ok && write ==> IsCoeffOrder(l, order[base..base + l.Size()])
  {
    hide Complete, IsLehmer, TokensOk, Code, After, OrderRead, IsCoeffOrder, IsPermutation, FixesPrefix, SameOutside;
    ghost var before := order[..];
    var size := DCT_BLOCK_SIZE * llf;
    CompletePrefix(l, naturalOrder[..]);
    ok := ReadPermutation(llf, size, order, write, base, reader);
    if !ok || !write {
      return;
    }
    ghost var natural, read, perm := naturalOrder[..size], order[..], order[base..base + size];
    Below(size, perm);
    assert forall k: nat | k < size :: perm[k] == order[base + k];
    ComposeInPlace(size, order, base, naturalOrder);
    Outside(before, read, order[..], base, base + size);
    ComposedOrder(l, natural, perm, order[base..base + size]);
    ReadIs(l, Code(reader.source, old(reader.pos), l.Llf(), l.Size()), natural, perm, order[base..base + size]);
  }

  lemma Below(n: nat, perm: seq<nat>)
    requires IsPermutation(n, perm)
    ensures |perm| == n && forall k: nat | k < n :: perm[k] < n
  {
  }

  lemma Outside(a: seq<nat>, b: seq<nat>, c: seq<nat>, lo: nat, hi: nat)
    requires SameOutside(a, b, lo, hi) && SameOutside(b, c, lo, hi)
    ensures SameOutside(a, c, lo, hi)
  {
  }

  method ComposeInPlace(size: nat, order: array<nat>, base: nat, naturalOrder: array<nat>)
    requires naturalOrder != order && size <= naturalOrder.Length && base + size <= order.Length
    requires forall k: nat | base <= k < base + size :: order[k] < size
    modifies order
    ensures SameOutside(old(order[..]), order[..], base, base + size)
    ensures Composes(naturalOrder[..size], old(order[base..base + size]), order[base..base + size])
  {
    ghost var perm := order[base..base + size];
    forall q: nat | q < size
      ensures perm[q] < size
    {
      assert perm[q] == order[base + q];
    }
    for k: nat := 0 to size
      invariant forall q: nat | q < k :: order[base + q] == naturalOrder[perm[q]]
      invariant forall q: nat | k <= q < size :: order[base + q] == perm[q]
      invariant SameOutside(old(order[..]), order[..], base, base + size)
    {
      assert order[base + k] == perm[k] < size;
      order[base + k] := naturalOrder[order[base + k]];
    }
  }

  lemma ReadIs(l: Layout, code: seq<nat>, natural: seq<nat>, perm: seq<nat>, region: seq<nat>)
    requires |natural| == l.Size() && Complete(l, false, natural) && IsLehmer(l.Size(), code, perm)
    requires Composes(natural, perm, region)
    ensures OrderRead(l, code, region)
  {
  }

  // ---------------------------------------------------------------------
  // DecodeCoeffOrders.

  // Some strategy of the bucket is in use.
  ghost predicate BucketUsed(usedAcs: nat, b: nat) {
    exists o: nat :: o < NUM_STRATEGIES && STRATEGY_ORDER[o] == b && Bit(usedAcs, o)
  }

  ghost predicate BucketSeen(n: nat, b: nat) {
    exists o: nat :: o < n <= NUM_STRATEGIES && STRATEGY_ORDER[o] == b
  }

  ghost function Region(order: seq<nat>, b: nat, c: nat): seq<nat>
    requires b < NUM_ORDERS && c < 3 && |order| == COEFF_ORDER_LIMIT * DCT_BLOCK_SIZE
  {
    RegionSize(b, c);
    order[CoeffOrderOffset(b, c)..CoeffOrderOffset(b, c) + BUCKET_LAYOUT[b].Size()]
  }

  // The order buckets of the strategies in use.
  method OrderMask(usedAcs: nat) returns (acsMask: nat)
    ensures forall b: nat :: Bit(acsMask, b) <==> BucketUsed(usedAcs, b)
  {
    acsMask := 0;
    forall b: nat ensures !Bit(0, b) { BitZero(b); }
    for o: nat := 0 to NUM_STRATEGIES
      invariant forall b: nat :: Bit(acsMask, b) <==>
                  exists r: nat :: r < o && STRATEGY_ORDER[r] == b && Bit(usedAcs, r)
    {
      if Bit(usedAcs, o) {
        forall b: nat ensures Bit(Or(acsMask, Pow2(STRATEGY_ORDER[o])), b)
                           == (Bit(acsMask, b) || b == STRATEGY_ORDER[o]) {
          BitSet(acsMask, STRATEGY_ORDER[o], b);
        }
        acsMask := Or(acsMask, Pow2(STRATEGY_ORDER[o]));
      }
    }
  }

  // Writing one region keeps the others.
  lemma RegionFrame(a: seq<nat>, a': seq<nat>, b: nat, c: nat, b': nat, c': nat)
    requires b < NUM_ORDERS && c < 3 && b' < NUM_ORDERS && c' < 3 && !(b == b' && c == c')
    requires |a| == COEFF_ORDER_LIMIT * DCT_BLOCK_SIZE
    requires SameOutside(a, a', CoeffOrderOffset(b, c), CoeffOrderOffset(b, c) + BUCKET_LAYOUT[b].Size())
    ensures Region(a', b', c') == Region(a, b', c')
  {
    RegionSize(b', c');
    var lo, hi := CoeffOrderOffset(b', c'), CoeffOrderOffset(b', c') + BUCKET_LAYOUT[b'].Size();
    forall p: nat | lo <= p < hi
      ensures a'[p] == a[p]
    {
      if InRegion(b, c, p) {
        RegionsDisjoint(b, c, b', c', p);
      }
    }
  }

  // A region after decoding: the order coded by the tokens at t, or the natural
  // one when the stream does not carry the bucket; a valid order in any case.
  ghost predicate RegionDone(order: seq<nat>, b: nat, c: nat, signalled: bool, source: nat -> uint32, t: nat)
    requires b < NUM_ORDERS && c < 3 && |order| == COEFF_ORDER_LIMIT * DCT_BLOCK_SIZE
  {
    var l := BUCKET_LAYOUT[b];
    && IsCoeffOrder(l, Region(order, b, c))
    && (!signalled ==> Complete(l, false, Region(order, b, c)))
    && (signalled ==> OrderRead(l, Code(source, t, l.Llf(), l.Size()), Region(order, b, c)))
  }

  // A bucket that the stream does not carry has each cell at its zig-zag rank.
  lemma UnsignalledRegion(order: seq<nat>, b: nat, c: nat, source: nat -> uint32, t: nat, cell: Cell)
    requires b < NUM_ORDERS && c < 3 && |order| == COEFF_ORDER_LIMIT * DCT_BLOCK_SIZE
    requires RegionDone(order, b, c, false, source, t) && InGrid(BUCKET_LAYOUT[b], cell)
    ensures var l, region := BUCKET_LAYOUT[b], Region(order, b, c);
            Rank(l, cell) < |region| && region[Rank(l, cell)] == Pos(l, cell)
  {
    hide IsCoeffOrder, Rank, Pos, InGrid, Region;
    assert Written(BUCKET_LAYOUT[b], false, Region(order, b, c), cell);
  }

  // Where the tokens of a channel of a bucket begin, if the bucket's begin at t.
  ghost function ChannelStart(source: nat -> uint32, t: nat, b: nat, c: nat): nat
    requires b < NUM_ORDERS
  {
    if c == 0 then t else After(source, ChannelStart(source, t, b, c - 1), BUCKET_LAYOUT[b].Llf())
  }

  ghost predicate ChannelOk(source: nat -> uint32, t: nat, b: nat, c: nat)
    requires b < NUM_ORDERS
  {
    TokensOk(source, ChannelStart(source, t, b, c), BUCKET_LAYOUT[b].Llf(), BUCKET_LAYOUT[b].Size())
  }

  ghost predicate BucketOk(source: nat -> uint32, t: nat, b: nat)
    requires b < NUM_ORDERS
  {
    forall c: nat | c < 3 :: ChannelOk(source, t, b, c)
  }

  // Copies the natural order into one region.
  method CopyNatural(b: nat, c: nat, size: nat, naturalOrder: array<nat>, order: array<nat>)
    requires b < NUM_ORDERS && c < 3 && size == BUCKET_LAYOUT[b].Size()
    requires order.Length == COEFF_ORDER_LIMIT * DCT_BLOCK_SIZE && naturalOrder != order
    requires BUCKET_LAYOUT[b].Size() <= naturalOrder.Length && Complete(BUCKET_LAYOUT[b], false, naturalOrder[..])
    modifies order
    ensures SameOutside(old(order[..]), order[..], CoeffOrderOffset(b, c),
                        CoeffOrderOffset(b, c) + BUCKET_LAYOUT[b].Size())
    ensures forall source, t :: RegionDone(order[..], b, c, false, source, t)
  {
    hide Complete, IsCoeffOrder, OrderRead, Code;
    RegionSize(b, c);
    ghost var l := BUCKET_LAYOUT[b];
    ghost var natural := naturalOrder[..size];
    CompletePrefix(l, naturalOrder[..]);
    NaturalIsCoeffOrder(l, natural);
    var base := CoeffOrderOffset(b, c);
    forall k | 0 <= k < size {
      order[base + k] := naturalOrder[k];
    }
    assert Region(order[..], b, c) == natural;
  }

  // The three channels of one bucket.
  method DecodeBucket(b: nat, llf: nat, used: bool, signalled: bool, naturalOrder: array<nat>, order: array<nat>,
                      reader: TokenReader)
    returns (ok: bool)
    requires b < NUM_ORDERS && order.Length == COEFF_ORDER_LIMIT * DCT_BLOCK_SIZE && naturalOrder != order
    requires llf == BUCKET_LAYOUT[b].Llf()
    requires used || signalled ==> BUCKET_LAYOUT[b].Size() <= naturalOrder.Length
                                   && Complete(BUCKET_LAYOUT[b], false, naturalOrder[..])
    modifies order, reader`pos
    ensures !used ==> order[..] == old(order[..])
    ensures forall b': nat, c: nat | b' < NUM_ORDERS && c < 3 && b' != b ::
              Region(order[..], b', c) == Region(old(order[..]), b', c)
    ensures ok <==> !signalled || BucketOk(reader.source, old(reader.pos), b)
    ensures ok ==>
              reader.pos == if signalled then ChannelStart(reader.source, old(reader.pos), b, 3) else old(reader.pos)
    ensures ok && used ==> forall c: nat | c < 3 ::
              RegionDone(order[..], b, c, signalled, reader.source, ChannelStart(reader.source, old(reader.pos), b, c))
  {
    hide Complete, IsCoeffOrder, SameOutside, Region, RegionDone, TokensOk, After, OrderRead, Code;
    ghost var before, source, t := order[..], reader.source, reader.pos;
    var size := DCT_BLOCK_SIZE * llf;
    BucketSize(b);
    ok := true;
    if !signalled && !used {
      return;
    }
    for c: nat := 0 to 3
      invariant ok && reader.pos == if signalled then ChannelStart(source, t, b, c) else t
      invariant !used ==> order[..] == before
      invariant forall b': nat, c': nat | b' < NUM_ORDERS && c' < 3 && b' != b ::
                  Region(order[..], b', c') == Region(before, b', c')
      invariant signalled ==> forall c': nat | c' < c :: ChannelOk(source, t, b, c')
      invariant used ==> forall c': nat | c' < c ::
                  RegionDone(order[..], b, c', signalled, source, ChannelStart(source, t, b, c'))
    {
      ghost var now := order[..];
      ok := DecodeChannel(b, c, llf, size, used, signalled, naturalOrder, order, reader, t);
      if !ok {
        return;
      }
      forall c': nat | used && c' < c
        ensures RegionDone(order[..], b, c', signalled, source, ChannelStart(source, t, b, c'))
      {
        DoneKept(now, order[..], b, c', signalled, source, ChannelStart(source, t, b, c'));
      }
    }
  }

  // One channel of a bucket whose tokens begin at t.
  method DecodeChannel(b: nat, c: nat, llf: nat, size: nat, used: bool, signalled: bool, naturalOrder: array<nat>,
                       order: array<nat>, reader: TokenReader, ghost t: nat)
    returns (ok: bool)
    requires b < NUM_ORDERS && c < 3 && order.Length == COEFF_ORDER_LIMIT * DCT_BLOCK_SIZE && naturalOrder != order
    requires llf == BUCKET_LAYOUT[b].Llf() && size == BUCKET_LAYOUT[b].Size() && (used || signalled)
    requires size <= naturalOrder.Length && Complete(BUCKET_LAYOUT[b], false, naturalOrder[..])
    requires signalled ==> reader.pos == ChannelStart(reader.source, t, b, c)
    modifies order, reader`pos
    ensures !used ==> order[..] == old(order[..])
    ensures forall b': nat, c': nat | b' < NUM_ORDERS && c' < 3 && !(b' == b && c' == c) ::
              Region(order[..], b', c') == Region(old(order[..]), b', c')
    ensures ok <==> !signalled || ChannelOk(reader.source, t, b, c)
    ensures ok ==> reader.pos == if signalled then ChannelStart(reader.source, t, b, c + 1) else old(reader.pos)
    ensures ok && used ==>
              RegionDone(order[..], b, c, signalled, reader.source, ChannelStart(reader.source, t, b, c))
  {
    hide Complete, IsCoeffOrder, SameOutside, Region, RegionDone, TokensOk, After, OrderRead, Code;
    ghost var before := order[..];
    BucketSize(b);
    RegionSize(b, c);
    ok := true;
    if signalled {
      ok := DecodeCoeffOrder(BUCKET_LAYOUT[b], llf, order, used, CoeffOrderOffset(b, c), reader, naturalOrder);
    } else {
      CopyNatural(b, c, size, naturalOrder, order);
    }
    ChannelStep(before, order[..], b, c);
    if ok && used && signalled {
      RegionRead(order[..], b, c, reader.source, ChannelStart(reader.source, t, b, c));
    }
  }

  lemma RegionRead(order: seq<nat>, b: nat, c: nat, source: nat -> uint32, t: nat)
    requires b < NUM_ORDERS && c < 3 && |order| == COEFF_ORDER_LIMIT * DCT_BLOCK_SIZE
    requires var l, at := BUCKET_LAYOUT[b], CoeffOrderOffset(b, c);
      at + l.Size() <= |order| && IsCoeffOrder(l, order[at..at + l.Size()])
      && OrderRead(l, Code(source, t, l.Llf(), l.Size()), order[at..at + l.Size()])
    ensures RegionDone(order, b, c, true, source, t)
  {
    hide IsCoeffOrder, OrderRead, Code;
    RegionIs(order, b, c);
  }

  lemma RegionIs(order: seq<nat>, b: nat, c: nat)
    requires b < NUM_ORDERS && c < 3 && |order| == COEFF_ORDER_LIMIT * DCT_BLOCK_SIZE
    ensures CoeffOrderOffset(b, c) + BUCKET_LAYOUT[b].Size() <= |order|
    ensures Region(order, b, c) == order[CoeffOrderOffset(b, c)..CoeffOrderOffset(b, c) + BUCKET_LAYOUT[b].Size()]
  {
    RegionSize(b, c);
  }

  lemma ChannelStep(a: seq<nat>, a': seq<nat>, b: nat, c: nat)
    requires b < NUM_ORDERS && c < 3 && |a| == COEFF_ORDER_LIMIT * DCT_BLOCK_SIZE
    requires SameOutside(a, a', CoeffOrderOffset(b, c), CoeffOrderOffset(b, c) + BUCKET_LAYOUT[b].Size())
    ensures |a'| == |a|
    ensures forall b': nat, c': nat | b' < NUM_ORDERS && c' < 3 && !(b == b' && c == c') ::
              Region(a', b', c') == Region(a, b', c')
  {
    forall b': nat, c': nat | b' < NUM_ORDERS && c' < 3 && !(b == b' && c == c')
      ensures Region(a', b', c') == Region(a, b', c')
    {
      RegionFrame(a, a', b, c, b', c');
    }
  }

  lemma SeenStep(o: nat)
    requires o < NUM_STRATEGIES
    ensures forall b: nat :: BucketSeen(o + 1, b) <==> BucketSeen(o, b) || b == STRATEGY_ORDER[o]
  {
  }

  // The strategy with which a bucket comes up first.
  ghost const FIRST_STRATEGY: seq<nat> := [0, 1, 4, 5, 6, 8, 10, 18, 19, 21, 22, 24, 25]

  lemma SeenFrom(o: nat, b: nat)
    requires o <= NUM_STRATEGIES && b < NUM_ORDERS
    ensures BucketSeen(o, b) <==> FIRST_STRATEGY[b] < o
    ensures FIRST_STRATEGY[b] < NUM_STRATEGIES && STRATEGY_ORDER[FIRST_STRATEGY[b]] == b
  {
    FirstIsLeast(b);
  }

  lemma FirstIsLeast(b: nat)
    requires b < NUM_ORDERS
    ensures FIRST_STRATEGY[b] < NUM_STRATEGIES && STRATEGY_ORDER[FIRST_STRATEGY[b]] == b
    ensures forall o: nat | o < NUM_STRATEGIES && STRATEGY_ORDER[o] == b :: FIRST_STRATEGY[b] <= o
  {
    forall o: nat | o < NUM_STRATEGIES
      ensures STRATEGY_ORDER[o] < NUM_ORDERS && FIRST_STRATEGY[STRATEGY_ORDER[o]] <= o
    {
      OrderOfStrategy(o);
    }
  }

  lemma OrderOfStrategy(o: nat)
    requires o < NUM_STRATEGIES
    ensures STRATEGY_ORDER[o] < NUM_ORDERS && FIRST_STRATEGY[STRATEGY_ORDER[o]] <= o
  {
  }

  lemma DoneKept(a: seq<nat>, a': seq<nat>, b: nat, c: nat, signalled: bool, source: nat -> uint32, t: nat)
    requires b < NUM_ORDERS && c < 3 && |a| == |a'| == COEFF_ORDER_LIMIT * DCT_BLOCK_SIZE
    requires Region(a', b, c) == Region(a, b, c) && RegionDone(a, b, c, signalled, source, t)
    ensures RegionDone(a', b, c, signalled, source, t)
  {
    hide IsCoeffOrder, OrderRead, Code, Complete;
  }

  // Where the tokens stand when strategy o comes up: buckets that the stream
  // carries are read with their first strategy.
  ghost function StrategyStart(source: nat -> uint32, t: nat, usedOrders: nat, o: nat): nat
    requires o <= NUM_STRATEGIES
  {
    if o == 0 then t
    else
      OrderOfStrategy(o - 1);
      var b, before := STRATEGY_ORDER[o - 1], StrategyStart(source, t, usedOrders, o - 1);
      if FIRST_STRATEGY[b] == o - 1 && Bit(usedOrders, b) then ChannelStart(source, before, b, 3) else before
  }

  ghost function BucketStart(source: nat -> uint32, t: nat, usedOrders: nat, b: nat): nat
    requires b < NUM_ORDERS
  {
    FirstIsLeast(b);
    StrategyStart(source, t, usedOrders, FIRST_STRATEGY[b])
  }

  // The tokens of the buckets that have come up before strategy o are good.
  ghost predicate TokensOkTo(source: nat -> uint32, t: nat, usedOrders: nat, o: nat) {
    forall b: nat | b < NUM_ORDERS && FIRST_STRATEGY[b] < o && Bit(usedOrders, b) ::
      BucketOk(source, BucketStart(source, t, usedOrders, b), b)
  }

  ghost predicate BucketDone(order: seq<nat>, usedOrders: nat, source: nat -> uint32, t: nat, b: nat)
    requires b < NUM_ORDERS && |order| == COEFF_ORDER_LIMIT * DCT_BLOCK_SIZE
  {
    forall c: nat | c < 3 :: RegionDone(order, b, c, Bit(usedOrders, b), source,
                                        ChannelStart(source, BucketStart(source, t, usedOrders, b), b, c))
  }

  ghost predicate BucketSame(order: seq<nat>, before: seq<nat>, b: nat)
    requires b < NUM_ORDERS && |order| == |before| == COEFF_ORDER_LIMIT * DCT_BLOCK_SIZE
  {
    forall c: nat | c < 3 :: Region(order, b, c) == Region(before, b, c)
  }

  // Used buckets that have come up are done, unused ones untouched.
  ghost predicate DoneTo(order: seq<nat>, before: seq<nat>, usedOrders: nat, usedAcs: nat, source: nat -> uint32,
                         t: nat, o: nat)
    requires |order| == |before| == COEFF_ORDER_LIMIT * DCT_BLOCK_SIZE
  {
    && (forall b: nat | b < NUM_ORDERS && FIRST_STRATEGY[b] < o && BucketUsed(usedAcs, b) ::
          BucketDone(order, usedOrders, source, t, b))
    && forall b: nat | b < NUM_ORDERS && !BucketUsed(usedAcs, b) :: BucketSame(order, before, b)
  }

  // A strategy whose bucket is new: afterwards one more bucket is done.
  lemma NewBucket(a: seq<nat>, a': seq<nat>, before: seq<nat>, usedOrders: nat, usedAcs: nat, source: nat -> uint32,
                  t: nat, o: nat)
    requires |a| == |a'| == |before| == COEFF_ORDER_LIMIT * DCT_BLOCK_SIZE && o < NUM_STRATEGIES
    requires STRATEGY_ORDER[o] < NUM_ORDERS && FIRST_STRATEGY[STRATEGY_ORDER[o]] == o
    requires DoneTo(a, before, usedOrders, usedAcs, source, t, o)
    requires var b := STRATEGY_ORDER[o];
      && (if BucketUsed(usedAcs, b) then BucketDone(a', usedOrders, source, t, b) else a' == a)
      && forall b': nat | b' < NUM_ORDERS && b' != b :: BucketSame(a', a, b')
    ensures DoneTo(a', before, usedOrders, usedAcs, source, t, o + 1)
  {
    hide RegionDone, Region, BucketUsed;
    forall b: nat | b < NUM_ORDERS && FIRST_STRATEGY[b] < o + 1 && BucketUsed(usedAcs, b)
      ensures BucketDone(a', usedOrders, source, t, b)
    {
      FirstIsLeast(b);
      if b != STRATEGY_ORDER[o] {
        BucketKept(a, a', usedOrders, source, t, b);
      }
    }
    forall b: nat | b < NUM_ORDERS && !BucketUsed(usedAcs, b)
      ensures BucketSame(a', before, b)
    {
      assert BucketSame(a, before, b);
      assert b != STRATEGY_ORDER[o] ==> BucketSame(a', a, b);
    }
  }

  lemma BucketKept(a: seq<nat>, a': seq<nat>, usedOrders: nat, source: nat -> uint32, t: nat, b: nat)
    requires b < NUM_ORDERS && |a| == |a'| == COEFF_ORDER_LIMIT * DCT_BLOCK_SIZE
    requires BucketSame(a', a, b) && BucketDone(a, usedOrders, source, t, b)
    ensures BucketDone(a', usedOrders, source, t, b)
  {
    hide RegionDone, Region, Bit, BucketStart;
    forall c: nat | c < 3
      ensures RegionDone(a', b, c, Bit(usedOrders, b), source,
                         ChannelStart(source, BucketStart(source, t, usedOrders, b), b, c))
    {
      DoneKept(a, a', b, c, Bit(usedOrders, b), source,
               ChannelStart(source, BucketStart(source, t, usedOrders, b), b, c));
    }
  }

  // A strategy whose bucket has come up before changes nothing.
  lemma OldBucket(a: seq<nat>, before: seq<nat>, usedOrders: nat, usedAcs: nat, source: nat -> uint32, t: nat, o: nat)
    requires |a| == |before| == COEFF_ORDER_LIMIT * DCT_BLOCK_SIZE && o < NUM_STRATEGIES
    requires STRATEGY_ORDER[o] < NUM_ORDERS && FIRST_STRATEGY[STRATEGY_ORDER[o]] < o
    requires DoneTo(a, before, usedOrders, usedAcs, source, t, o) && TokensOkTo(source, t, usedOrders, o)
    ensures DoneTo(a, before, usedOrders, usedAcs, source, t, o + 1) && TokensOkTo(source, t, usedOrders, o + 1)
    ensures StrategyStart(source, t, usedOrders, o + 1) == StrategyStart(source, t, usedOrders, o)
  {
    hide BucketDone, BucketSame, BucketUsed, BucketOk, Bit, BucketStart;
    forall b: nat | b < NUM_ORDERS && FIRST_STRATEGY[b] < o + 1
      ensures FIRST_STRATEGY[b] < o
    {
      FirstIsLeast(b);
    }
  }

  // Good tokens of a new bucket.
  lemma NewTokens(source: nat -> uint32, t: nat, usedOrders: nat, o: nat)
    requires o < NUM_STRATEGIES && STRATEGY_ORDER[o] < NUM_ORDERS && FIRST_STRATEGY[STRATEGY_ORDER[o]] == o
    ensures var b := STRATEGY_ORDER[o];
      && BucketStart(source, t, usedOrders, b) == StrategyStart(source, t, usedOrders, o)
      && StrategyStart(source, t, usedOrders, o + 1)
         == (if Bit(usedOrders, b) then ChannelStart(source, StrategyStart(source, t, usedOrders, o), b, 3)
             else StrategyStart(source, t, usedOrders, o))
      && (TokensOkTo(source, t, usedOrders, o + 1)
          <==> TokensOkTo(source, t, usedOrders, o)
               && (Bit(usedOrders, b) ==> BucketOk(source, StrategyStart(source, t, usedOrders, o), b)))
  {
    hide BucketOk, Bit, ChannelStart;
    var c := STRATEGY_ORDER[o];
    forall b: nat | b < NUM_ORDERS && FIRST_STRATEGY[b] < o + 1
      ensures b == c || FIRST_STRATEGY[b] < o
    {
      FirstIsLeast(b);
    }
  }

  // The tokens of all buckets that the stream carries are good.
  ghost predicate AllTokensOk(source: nat -> uint32, t: nat, usedOrders: nat) {
    TokensOkTo(source, t, usedOrders, NUM_STRATEGIES)
  }

  lemma TokensOkSoFar(source: nat -> uint32, t: nat, usedOrders: nat, o: nat)
    requires o <= NUM_STRATEGIES
    ensures AllTokensOk(source, t, usedOrders) ==> TokensOkTo(source, t, usedOrders, o)
  {
    hide BucketOk, Bit, BucketStart;
  }

  // The natural order of a strategy, in a buffer that grows when it has to.
  method NaturalOrder(o: nat, buffer: array<nat>) returns (natural: array<nat>)
    requires o < NUM_STRATEGIES && STRATEGY_ORDER[o] < NUM_ORDERS
    modifies buffer
    ensures natural == buffer || fresh(natural)
    ensures BUCKET_LAYOUT[STRATEGY_ORDER[o]].Size() <= natural.Length
    ensures Complete(BUCKET_LAYOUT[STRATEGY_ORDER[o]], false, natural[..])
  {
    hide Complete;
    StrategyFits(o);
    ghost var b := STRATEGY_ORDER[o];
    BucketSize(b);
    var llf := COVERED_X[o] * COVERED_Y[o];
    natural := buffer;
    if natural.Length < DCT_BLOCK_SIZE * llf {
      natural := new nat[DCT_BLOCK_SIZE * llf];
    }
    CoeffOrderAndLut(false, CoefficientColumns(o), CoefficientRows(o), BUCKET_LAYOUT[b].xss, natural);
  }

  lemma Untouched(order: seq<nat>, usedOrders: nat, usedAcs: nat, source: nat -> uint32, t: nat)
    requires |order| == COEFF_ORDER_LIMIT * DCT_BLOCK_SIZE
    ensures DoneTo(order, order, usedOrders, usedAcs, source, t, 0) && TokensOkTo(source, t, usedOrders, 0)
    ensures StrategyStart(source, t, usedOrders, 0) == t
  {
    hide BucketDone, BucketUsed, Region;
    forall b: nat | b < NUM_ORDERS
      ensures FIRST_STRATEGY[b] >= 0
    {
    }
  }

  lemma NothingSeen()
    ensures forall b: nat :: !Bit(0, b) && !BucketSeen(0, b)
  {
    forall b: nat
      ensures !Bit(0, b)
    {
      BitZero(b);
    }
  }

  lemma SetBit(mask: nat, bit: nat)
    ensures forall b: nat :: Bit(Or(mask, Pow2(bit)), b) == (Bit(mask, b) || b == bit)
  {
    forall b: nat
      ensures Bit(Or(mask, Pow2(bit)), b) == (Bit(mask, b) || b == bit)
    {
      BitSet(mask, bit, b);
    }
  }

  // What one bucket's turn leaves alone, whether it succeeded or not.
  lemma OtherBuckets(a: seq<nat>, a': seq<nat>, before: seq<nat>, usedOrders: nat, usedAcs: nat, source: nat -> uint32,
                     t: nat, o: nat, bucket: nat)
    requires |a| == |a'| == |before| == COEFF_ORDER_LIMIT * DCT_BLOCK_SIZE && bucket < NUM_ORDERS
    requires DoneTo(a, before, usedOrders, usedAcs, source, t, o)
    requires !BucketUsed(usedAcs, bucket) ==> a' == a
    requires forall b: nat, c: nat | b < NUM_ORDERS && c < 3 && b != bucket :: Region(a', b, c) == Region(a, b, c)
    ensures forall b: nat | b < NUM_ORDERS && b != bucket :: BucketSame(a', a, b)
    ensures forall b: nat | b < NUM_ORDERS && !BucketUsed(usedAcs, b) :: BucketSame(a', before, b)
  {
    hide BucketDone, BucketUsed, Region;
    forall b: nat | b < NUM_ORDERS && !BucketUsed(usedAcs, b)
      ensures BucketSame(a', before, b)
    {
      assert BucketSame(a, before, b);
    }
  }

  lemma DoneBucket(order: seq<nat>, usedOrders: nat, source: nat -> uint32, t: nat, b: nat)
    requires b < NUM_ORDERS && |order| == COEFF_ORDER_LIMIT * DCT_BLOCK_SIZE
    requires forall c: nat | c < 3 :: RegionDone(order, b, c, Bit(usedOrders, b), source,
                                                 ChannelStart(source, BucketStart(source, t, usedOrders, b), b, c))
    ensures BucketDone(order, usedOrders, source, t, b)
  {
    hide RegionDone, BucketStart, ChannelStart, Bit;
  }

  lemma AllDone(order: seq<nat>, before: seq<nat>, usedOrders: nat, usedAcs: nat, source: nat -> uint32, t: nat)
    requires |order| == |before| == COEFF_ORDER_LIMIT * DCT_BLOCK_SIZE
    requires DoneTo(order, before, usedOrders, usedAcs, source, t, NUM_STRATEGIES)
    ensures forall b: nat | b < NUM_ORDERS && BucketUsed(usedAcs, b) :: BucketDone(order, usedOrders, source, t, b)
    ensures forall b: nat | b < NUM_ORDERS && !BucketUsed(usedAcs, b) :: BucketSame(order, before, b)
  {
    hide BucketDone, BucketUsed, BucketSame;
    forall b: nat | b < NUM_ORDERS
      ensures FIRST_STRATEGY[b] < NUM_STRATEGIES
    {
      FirstIsLeast(b);
    }
  }

  lemma DoneUnused(order: seq<nat>, before: seq<nat>, usedOrders: nat, usedAcs: nat, source: nat -> uint32, t: nat,
                   o: nat)
    requires |order| == |before| == COEFF_ORDER_LIMIT * DCT_BLOCK_SIZE
    requires DoneTo(order, before, usedOrders, usedAcs, source, t, o)
    ensures forall b: nat | b < NUM_ORDERS && !BucketUsed(usedAcs, b) :: BucketSame(order, before, b)
  {
    hide BucketDone, BucketUsed, BucketSame;
  }

  // Succeeds exactly when the tokens are good, and the entropy decoder agrees.
  // Then every strategy in use finds, for every channel, the natural order taken
  // in the order that the channel's tokens code, or the natural order itself when
  // the stream does not carry the bucket. Regions of unused buckets are never
  // written.
  method DecodeCoeffOrders(usedOrders: uint16, usedAcs: uint32, order: array<nat>, reader: TokenReader,
                           histogramsOk: bool, finalStateOk: bool)
    returns (ok: bool)
    requires order.Length == COEFF_ORDER_LIMIT * DCT_BLOCK_SIZE
    modifies order, reader`pos
    ensures ok <==> (usedOrders != 0 ==> histogramsOk && finalStateOk)
                    && AllTokensOk(reader.source, old(reader.pos), usedOrders)
    ensures ok ==> forall b: nat | b < NUM_ORDERS && BucketUsed(usedAcs, b) ::
                     BucketDone(order[..], usedOrders, reader.source, old(reader.pos), b)
    ensures forall b: nat | b < NUM_ORDERS && !BucketUsed(usedAcs, b) :: BucketSame(order[..], old(order[..]), b)
  {
    hide BucketDone, BucketSame, BucketUsed, Bit, Complete, TokensOkTo, DoneTo, BucketSeen, StrategyStart, BucketStart,
         BucketOk, RegionDone, Or, Pow2, Region, Layout.Size, Layout.Llf;
    ghost var before, source, t := order[..], reader.source, reader.pos;
    Untouched(before, usedOrders, usedAcs, source, t);
    if usedOrders != 0 && !histogramsOk {
      DoneUnused(before, before, usedOrders, usedAcs, source, t, 0);
      return false;
    }
    var acsMask := OrderMask(usedAcs);
    var computed: nat := 0;
    NothingSeen();
    var naturalOrder := new nat[0];
    for o: nat := 0 to NUM_STRATEGIES
      invariant fresh(naturalOrder)
      invariant forall b: nat :: Bit(computed, b) <==> BucketSeen(o, b)
      invariant reader.pos == StrategyStart(source, t, usedOrders, o) && TokensOkTo(source, t, usedOrders, o)
      invariant DoneTo(order[..], before, usedOrders, usedAcs, source, t, o)
    {
      OrderOfStrategy(o);
      var ord := STRATEGY_ORDER[o];
      SeenFrom(o, ord);
      SeenStep(o);
      if Bit(computed, ord) {
        OldBucket(order[..], before, usedOrders, usedAcs, source, t, o);
        continue;
      }
      SetBit(computed, ord);
      computed := Or(computed, Pow2(ord));
      StrategyFits(o);
      BucketSize(ord);
      var used, signalled := Bit(acsMask, ord), Bit(usedOrders, ord);
      if used || signalled {
        naturalOrder := NaturalOrder(o, naturalOrder);
      }
      ghost var now := order[..];
      NewTokens(source, t, usedOrders, o);
      ok := DecodeBucket(ord, COVERED_X[o] * COVERED_Y[o], used, signalled, naturalOrder, order, reader);
      OtherBuckets(now, order[..], before, usedOrders, usedAcs, source, t, o, ord);
      if !ok {
        TokensOkSoFar(source, t, usedOrders, o + 1);
        return;
      }
      if used {
        DoneBucket(order[..], usedOrders, source, t, ord);
      }
      NewBucket(now, order[..], before, usedOrders, usedAcs, source, t, o);
    }
    ok := usedOrders == 0 || finalStateOk;
    AllDone(order[..], before, usedOrders, usedAcs, source, t);
  }
}
