// Lehmer codes by Fenwick trees: libjxl/lib/jxl/lehmer_code.h.
module Lehmer {
  import opened Bits

  // t & -t, for t > 0.
  function LowestBit(t: nat): (r: nat)
    requires t > 0
    ensures 0 < r <= t
  {
    if t % 2 == 1 then 1 else 2 * LowestBit(t / 2)
  }

  lemma {:induction false} LowestBitNext(k: nat)
    requires k > 0
    ensures LowestBit(k + LowestBit(k)) >= 2 * LowestBit(k)
  {
    if k % 2 == 0 {
      LowestBitNext(k / 2);
      assert (k + LowestBit(k)) / 2 == k / 2 + LowestBit(k / 2);
    }
  }

  lemma {:induction false} LowestBitBelow(k: nat, r: nat)
    requires k > 0 && 0 < r < LowestBit(k)
    ensures LowestBit(k + r) == LowestBit(r)
  {
    if r % 2 == 0 {
      LowestBitBelow(k / 2, r / 2);
      assert (k + r) / 2 == k / 2 + r / 2;
    }
  }

  lemma {:induction false} LowestBitOf(q: nat, j: nat)
    ensures LowestBit(Shl(q, j + 1) + Pow2(j)) == Pow2(j)
  {
    if j > 0 {
      LowestBitOf(q, j - 1);
      assert (Shl(q, j + 1) + Pow2(j)) / 2 == Shl(q, j) + Pow2(j - 1);
    } else {
      assert Shl(q, 1) == 2 * q;
    }
  }

  // How many elements of [lo, hi) are free.
  ghost function Count(free: seq<bool>, lo: nat, hi: nat): (c: nat)
    requires lo <= hi <= |free|
    ensures c <= hi - lo
  {
    if hi == lo then 0 else Count(free, lo, hi - 1) + (if free[hi - 1] then 1 else 0)
  }

  lemma {:induction false} CountSplit(free: seq<bool>, lo: nat, mid: nat, hi: nat)
    requires lo <= mid <= hi <= |free|
    ensures Count(free, lo, hi) == Count(free, lo, mid) + Count(free, mid, hi)
  {
    if mid < hi {
      CountSplit(free, lo, mid, hi - 1);
    }
  }

  lemma {:induction false} CountAll(free: seq<bool>, lo: nat, hi: nat)
    requires lo <= hi <= |free| && forall x :: lo <= x < hi ==> free[x]
    ensures Count(free, lo, hi) == hi - lo
  {
    if lo < hi {
      CountAll(free, lo, hi - 1);
    }
  }

  lemma {:induction false} CountSame(a: seq<bool>, b: seq<bool>, lo: nat, hi: nat)
    requires lo <= hi && hi <= |a| && hi <= |b| && forall x :: lo <= x < hi ==> a[x] == b[x]
    ensures Count(a, lo, hi) == Count(b, lo, hi)
  {
    if lo < hi {
      CountSame(a, b, lo, hi - 1);
    }
  }

  // ---------------------------------------------------------------------
  // What a Lehmer code is.

  // Element x of [0, m) is free when the prefix does not hold it.
  ghost function Free(prefix: seq<nat>, m: nat): (f: seq<bool>)
    ensures |f| == m && forall x: nat | x < m :: f[x] == (x !in prefix)
  {
    seq(m, x => x !in prefix)
  }

  // The k-th entry picks the code[k]-th of the elements that are left.
  ghost predicate Picks(n: nat, code: seq<nat>, perm: seq<nat>, k: nat)
    requires k < |perm| && k < |code|
  {
    perm[k] < n && perm[k] !in perm[..k] && Count(Free(perm[..k], n), 0, perm[k]) == code[k]
  }

  ghost predicate IsLehmer(n: nat, code: seq<nat>, perm: seq<nat>) {
    |code| == n && |perm| == n && forall k: nat | k < n :: Picks(n, code, perm, k)
  }

  ghost predicate IsPermutation(n: nat, perm: seq<nat>) {
    |perm| == n && (forall k: nat | k < n :: perm[k] < n) && forall i, j :: 0 <= i < j < n ==> perm[i] != perm[j]
  }

  lemma LehmerIsPermutation(n: nat, code: seq<nat>, perm: seq<nat>)
    requires IsLehmer(n, code, perm)
    ensures IsPermutation(n, perm)
  {
    forall i: nat, j: nat | i < j < n
      ensures perm[i] != perm[j]
    {
      assert Picks(n, code, perm, j);
      assert perm[..j][i] == perm[i];
    }
    forall k: nat | k < n
      ensures perm[k] < n
    {
      assert Picks(n, code, perm, k);
    }
  }

  // A code has one permutation, so decoding is a function ...
  lemma {:induction false} PermutationUnique(n: nat, code: seq<nat>, p: seq<nat>, q: seq<nat>, k: nat)
    requires IsLehmer(n, code, p) && IsLehmer(n, code, q) && k <= n
    ensures p[..k] == q[..k]
  {
    if k > 0 {
      PermutationUnique(n, code, p, q, k - 1);
      assert Picks(n, code, p, k - 1) && Picks(n, code, q, k - 1);
      var f := Free(p[..k - 1], n);
      SelectUnique(f, p[k - 1], q[k - 1]);
      assert p[..k] == p[..k - 1] + [p[k - 1]] && q[..k] == q[..k - 1] + [q[k - 1]];
    }
  }

  lemma {:induction false} SelectUnique(f: seq<bool>, x: nat, y: nat)
    requires x < |f| && y < |f| && f[x] && f[y] && Count(f, 0, x) == Count(f, 0, y)
    ensures x == y
  {
    if x < y {
      CountSplit(f, 0, x + 1, y);
    } else if y < x {
      CountSplit(f, 0, y + 1, x);
    }
  }

  // ... and a permutation has one code.
  lemma CodeUnique(n: nat, c: seq<nat>, d: seq<nat>, perm: seq<nat>)
    requires IsLehmer(n, c, perm) && IsLehmer(n, d, perm)
    ensures c == d
  {
    forall k: nat | k < n
      ensures c[k] == d[k]
    {
      assert Picks(n, c, perm, k) && Picks(n, d, perm, k);
    }
  }

  // Entries whose code is zero stay where they are, up to the first other one.
  lemma {:induction false} ZeroPrefix(n: nat, code: seq<nat>, perm: seq<nat>, skip: nat)
    requires IsLehmer(n, code, perm) && skip <= n && forall k: nat | k < skip :: code[k] == 0
    ensures forall k: nat | k < skip :: perm[k] == k
  {
    if skip > 0 {
      ZeroPrefix(n, code, perm, skip - 1);
      var k := skip - 1;
      assert Picks(n, code, perm, k);
      var f := Free(perm[..k], n);
      assert k !in perm[..k];
      forall x: nat | x < k
        ensures !f[x]
      {
        assert perm[..k][x] == x;
      }
      CountNone(f, 0, k);
      SelectUnique(f, perm[k], k);
    }
  }

  lemma {:induction false} CountNone(free: seq<bool>, lo: nat, hi: nat)
    requires lo <= hi <= |free| && forall x :: lo <= x < hi ==> !free[x]
    ensures Count(free, lo, hi) == 0
  {
    if lo < hi {
      CountNone(free, lo, hi - 1);
    }
  }

  // ---------------------------------------------------------------------
  // The tree: node k (from 1) counts the free elements of [k - LowestBit(k), k).

  ghost predicate NodeCounts(temp: seq<nat>, free: seq<bool>, k: nat)
    requires |temp| == |free| && 0 < k <= |temp|
  {
    temp[k - 1] == Count(free, k - LowestBit(k), k)
  }

  ghost predicate IsTree(temp: seq<nat>, free: seq<bool>) {
    |temp| == |free| && forall k: nat | 0 < k <= |temp| :: NodeCounts(temp, free, k)
  }

  ghost predicate Covers(k: nat, x: nat)
    requires k > 0
  {
    k - LowestBit(k) <= x < k
  }

  // The nodes that cover x are x + 1, and from a node k the next is k + LowestBit(k).
  lemma NextCover(k: nat, x: nat, m: nat)
    requires k > 0 && Covers(k, x) && k < m <= k + LowestBit(k)
    ensures Covers(m, x) <==> m == k + LowestBit(k)
  {
    if m == k + LowestBit(k) {
      LowestBitNext(k);
    } else {
      LowestBitBelow(k, m - k);
    }
  }

  // x enters or leaves the counted elements.
  ghost function Flip(free: seq<bool>, x: nat): (f: seq<bool>)
    requires x < |free|
    ensures |f| == |free|
  {
    free[x := !free[x]]
  }

  ghost function Delta(free: seq<bool>, x: nat): int
    requires x < |free|
  {
    if free[x] then -1 else 1
  }

  lemma {:induction false} CountFlip(free: seq<bool>, x: nat, lo: nat, hi: nat)
    requires lo <= hi <= |free| && x < |free|
    ensures Count(Flip(free, x), lo, hi) == Count(free, lo, hi) + (if lo <= x < hi then Delta(free, x) else 0)
  {
    if lo < hi {
      CountFlip(free, x, lo, hi - 1);
    }
  }

  // Nodes below k already count with x flipped, the others still without.
  ghost predicate NodeUpTo(temp: seq<nat>, free: seq<bool>, x: nat, k: nat, m: nat)
    requires |temp| == |free| && x < |free| && 0 < m <= |temp|
  {
    NodeCounts(temp, if m < k then Flip(free, x) else free, m)
  }

  ghost predicate TreeUpTo(temp: seq<nat>, free: seq<bool>, x: nat, k: nat) {
    && |temp| == |free| && x < |free|
    && forall m: nat | 0 < m <= |temp| :: NodeUpTo(temp, free, x, k, m)
  }

  lemma NodeFlips(temp: seq<nat>, free: seq<bool>, x: nat, k: nat)
    requires TreeUpTo(temp, free, x, k) && 0 < k <= |temp| && Covers(k, x)
    ensures temp[k - 1] + Delta(free, x) >= 0
    ensures NodeUpTo(temp[k - 1 := temp[k - 1] + Delta(free, x)], free, x, k + LowestBit(k), k)
  {
    hide Count;
    assert NodeUpTo(temp, free, x, k, k);
    CountFlip(free, x, k - LowestBit(k), k);
  }

  lemma NodeStays(temp: seq<nat>, free: seq<bool>, x: nat, k: nat, temp': seq<nat>, m: nat)
    requires TreeUpTo(temp, free, x, k) && 0 < k <= |temp| && Covers(k, x) && 0 < m <= |temp| && m != k
    requires |temp'| == |temp| && temp'[m - 1] == temp[m - 1]
    ensures NodeUpTo(temp', free, x, k + LowestBit(k), m)
  {
    hide Count;
    assert NodeUpTo(temp, free, x, k, m);
    if k < m < k + LowestBit(k) {
      CountFlip(free, x, m - LowestBit(m), m);
      NextCover(k, x, m);
    }
  }

  // One step of the update walk.
  lemma TreeStep(temp: seq<nat>, free: seq<bool>, x: nat, k: nat)
    requires TreeUpTo(temp, free, x, k) && 0 < k <= |temp| && Covers(k, x)
    ensures temp[k - 1] + Delta(free, x) >= 0
    ensures TreeUpTo(temp[k - 1 := temp[k - 1] + Delta(free, x)], free, x, k + LowestBit(k))
    ensures Covers(k + LowestBit(k), x)
  {
    NextCover(k, x, k + LowestBit(k));
    hide NodeUpTo, Covers, LowestBit, Delta;
    NodeFlips(temp, free, x, k);
    var temp', k' := temp[k - 1 := temp[k - 1] + Delta(free, x)], k + LowestBit(k);
    forall m: nat | 0 < m <= |temp|
      ensures NodeUpTo(temp', free, x, k', m)
    {
      if m != k {
        NodeStays(temp, free, x, k, temp', m);
      }
    }
  }

  lemma TreeStart(temp: seq<nat>, free: seq<bool>, x: nat)
    requires IsTree(temp, free) && x < |free|
    ensures Covers(x + 1, x) && TreeUpTo(temp, free, x, x + 1)
  {
    var k := x + 1;
    forall m: nat | 0 < m <= |temp|
      ensures NodeUpTo(temp, free, x, k, m)
    {
      assert NodeCounts(temp, free, m);
      CountFlip(free, x, m - LowestBit(m), m);
    }
  }

  lemma TreeDone(temp: seq<nat>, free: seq<bool>, x: nat, k: nat)
    requires TreeUpTo(temp, free, x, k) && k > |temp|
    ensures IsTree(temp, Flip(free, x))
  {
    var free' := Flip(free, x);
    forall m: nat | 0 < m <= |temp|
      ensures NodeCounts(temp, free', m)
    {
      assert NodeUpTo(temp, free, x, k, m);
    }
  }

  // Takes x out of the counts of the decoder's tree.
  method MarkUsed(temp: array<nat>, ghost free: seq<bool>, x: nat)
    requires IsTree(temp[..], free) && x < |free| && free[x]
    modifies temp
    ensures IsTree(temp[..], Flip(free, x))
  {
    hide IsTree, TreeUpTo, Covers, Flip;
    var next := x + 1;
    TreeStart(temp[..], free, x);
    while next <= temp.Length
      invariant 0 < next && Covers(next, x) && TreeUpTo(temp[..], free, x, next)
      decreases temp.Length + 1 - next
    {
      ghost var t := temp[..];
      TreeStep(t, free, x, next);
      temp[next - 1] := temp[next - 1] - 1;
      assert temp[..] == t[next - 1 := t[next - 1] - 1];
      next := next + LowestBit(next);
    }
    TreeDone(temp[..], free, x, next);
  }

  // The descent has reached the block [next, next + 2^(j+1)) that holds the
  // rank-th free element, counted from its start; the block may overhang.
  ghost predicate InBlock(free: seq<bool>, c: nat, next: nat, j: nat, q: nat, rank: nat, l: nat) {
    && |free| == Pow2(l) && j <= l && next == Shl(q, j + 1) && next < |free|
    && 0 < rank && Count(free, 0, next) + rank == c + 1
    && (j < l ==> next + Pow2(j + 1) <= |free| && c < Count(free, 0, next + Pow2(j + 1)))
    && (j == l ==> next == 0 && c < Count(free, 0, |free|))
  }

  ghost predicate Found(free: seq<bool>, c: nat, x: nat) {
    x < |free| && free[x] && Count(free, 0, x) == c
  }

  lemma Candidate(temp: seq<nat>, free: seq<bool>, c: nat, next: nat, j: nat, q: nat, rank: nat, l: nat)
    requires IsTree(temp, free) && InBlock(free, c, next, j, q, rank, l)
    ensures var cand := next + Pow2(j);
            0 < cand <= |temp| == |free| && temp[cand - 1] == Count(free, next, cand)
            && Count(free, 0, cand) == Count(free, 0, next) + temp[cand - 1]
  {
    var cand := next + Pow2(j);
    LowestBitOf(q, j);
    assert cand <= |free|;
    assert NodeCounts(temp, free, cand);
    CountSplit(free, 0, next, cand);
  }

  // One level down: into the left or the right half of the block.
  lemma Descend(temp: seq<nat>, free: seq<bool>, c: nat, next: nat, j: nat, q: nat, rank: nat, l: nat)
    requires IsTree(temp, free) && InBlock(free, c, next, j, q, rank, l)
    ensures var cand := next + Pow2(j);
            && 0 < cand <= |temp|
            && if temp[cand - 1] < rank
               then if j == 0 then Found(free, c, cand)
                    else InBlock(free, c, cand, j - 1, 2 * q + 1, rank - temp[cand - 1], l)
               else if j == 0 then Found(free, c, next) else InBlock(free, c, next, j - 1, 2 * q, rank, l)
  {
    hide IsTree;
    Candidate(temp, free, c, next, j, q, rank, l);
    ShlDouble(q, j);
  }

  lemma {:induction false} ShlDouble(q: nat, j: nat)
    ensures Shl(q, j + 1) == Shl(2 * q, j)
    ensures Shl(2 * q + 1, j) == Shl(2 * q, j) + Pow2(j)
  {
    if j > 0 {
      ShlDouble(q, j - 1);
    }
  }

  // The (c + 1)-th free element.
  method Select(temp: array<nat>, ghost free: seq<bool>, c: nat, log2n: nat) returns (next: nat)
    requires IsTree(temp[..], free) && temp.Length == Pow2(log2n) && c < Count(free, 0, |free|)
    ensures Found(free, c, next)
  {
    hide IsTree, Found;
    var rank: nat, bit: nat := c + 1, temp.Length;
    next := 0;
    ghost var q: nat := 0;
    ShlZero(log2n + 1);
    assert |free| == temp.Length by { TreeSize(temp[..], free); }
    for b := 0 to log2n + 1
      invariant b <= log2n ==> bit == Pow2(log2n - b) && InBlock(free, c, next, log2n - b, q, rank, log2n)
      invariant b == log2n + 1 ==> Found(free, c, next)
    {
      Descend(temp[..], free, c, next, log2n - b, q, rank, log2n);
      var cand := next + bit;
      bit := bit / 2;
      if temp[cand - 1] < rank {
        next := cand;
        rank := rank - temp[cand - 1];
        q := 2 * q + 1;
      } else {
        q := 2 * q;
      }
    }
  }

  lemma TreeSize(temp: seq<nat>, free: seq<bool>)
    requires IsTree(temp, free)
    ensures |temp| == |free|
  {
  }

  lemma ShlZero(j: nat)
    ensures Shl(0, j) == 0
  {
  }

  // ---------------------------------------------------------------------
  // Decoding.

  // The least l with n <= 1 << l.
  function CeilLog2(n: nat): (l: nat)
    requires n > 0
    ensures n <= Pow2(l) < 2 * n
  {
    if n == 1 then 0 else 1 + CeilLog2((n + 1) / 2)
  }

  // The first i entries are picked; `free` are the elements that are left.
  ghost predicate PickedUpTo(n: nat, code: seq<nat>, p: seq<nat>, free: seq<bool>) {
    && |p| <= n == |code| && n <= |free| && free == Free(p, |free|)
    && Count(free, 0, n) == n - |p|
    && forall k: nat | k < |p| :: Picks(n, code, p, k)
  }

  lemma PickStart(n: nat, code: seq<nat>, m: nat)
    requires |code| == n <= m
    ensures PickedUpTo(n, code, [], Free([], m))
  {
    CountAll(Free([], m), 0, n);
  }

  lemma PickNext(n: nat, code: seq<nat>, p: seq<nat>, free: seq<bool>, x: nat)
    requires PickedUpTo(n, code, p, free) && |p| < n && code[|p|] + |p| < n && Found(free, code[|p|], x)
    ensures x < n && PickedUpTo(n, code, p + [x], Flip(free, x))
  {
    if x >= n {
      CountSplit(free, 0, n, x);
    }
    CountFlip(free, x, 0, n);
    CountSame(free, Free(p, n), 0, x);
    var p' := p + [x];
    assert Flip(free, x) == Free(p', |free|);
    forall k: nat | k < |p'|
      ensures Picks(n, code, p', k)
    {
      assert p'[..k] == p[..k];
      if k < |p| {
        assert Picks(n, code, p, k);
      }
    }
  }

  lemma EnoughFree(n: nat, code: seq<nat>, p: seq<nat>, free: seq<bool>)
    requires PickedUpTo(n, code, p, free) && |p| < n && code[|p|] + |p| < n
    ensures code[|p|] < Count(free, 0, |free|)
  {
    CountSplit(free, 0, n, |free|);
  }

  lemma PickedAll(n: nat, code: seq<nat>, p: seq<nat>, free: seq<bool>)
    requires PickedUpTo(n, code, p, free) && |p| == n
    ensures IsLehmer(n, code, p)
  {
  }

  ghost predicate ValidCode(n: nat, code: seq<nat>) {
    n != 0 && |code| == n && forall i: nat | i < n :: code[i] + i < n
  }

  // Each node counts a block of its lowest bit; all elements are free.
  method BuildTree(paddedN: nat) returns (temp: array<nat>)
    ensures fresh(temp) && temp.Length == paddedN && IsTree(temp[..], Free([], paddedN))
  {
    temp := new nat[paddedN];
    for i: nat := 0 to paddedN
      invariant forall k: nat | k < i :: temp[k] == LowestBit(k + 1)
    {
      temp[i] := LowestBit(i + 1);
    }
    ghost var t, free := temp[..], Free([], paddedN);
    forall k: nat | 0 < k <= paddedN
      ensures NodeCounts(t, free, k)
    {
      CountAll(free, k - LowestBit(k), k);
    }
  }

  // Only [lo, hi) may differ.
  ghost predicate SameOutside(a: seq<nat>, b: seq<nat>, lo: nat, hi: nat) {
    |a| == |b| && forall q: nat | q < |a| && !(lo <= q < hi) :: b[q] == a[q]
  }

  // The picked entries p are written, and the tree counts the elements left.
  ghost predicate Decoding(n: nat, code: seq<nat>, p: seq<nat>, free: seq<bool>, temp: seq<nat>, order: seq<nat>,
                           base: nat) {
    && PickedUpTo(n, code, p, free) && IsTree(temp, free)
    && |p| <= n == |code| && base + n <= |order| && order[base..base + |p|] == p
    && forall k: nat | k < |p| :: code[k] + k < n
  }

  // One turn of the decoder's loop: picks the next element, writes it and
  // takes it from the tree.
  method PickElement(n: nat, code: seq<nat>, ghost p: seq<nat>, ghost free: seq<bool>, temp: array<nat>, log2n: nat,
                     order: array<nat>, base: nat, i: nat)
    returns (next: nat)
    requires Decoding(n, code, p, free, temp[..], order[..], base) && temp != order
    requires i == |p| < n && code[i] + i < n && temp.Length == Pow2(log2n)
    modifies temp, order
    ensures next < |free| && Decoding(n, code, p + [next], Flip(free, next), temp[..], order[..], base)
    ensures base + i < order.Length && order[..] == old(order[..])[base + i := next]
  {
    hide IsTree, PickedUpTo, Flip, Found;
    EnoughFree(n, code, p, free);
    next := Select(temp, free, code[i], log2n);
    FoundBound(free, code[i], next);
    PickNext(n, code, p, free, next);
    order[base + i] := next;
    MarkUsed(temp, free, next);
    assert order[base..base + i + 1] == p + [next];
  }

  lemma FoundBound(free: seq<bool>, c: nat, x: nat)
    requires Found(free, c, x)
    ensures x < |free| && free[x]
  {
  }

  lemma DecodingStart(n: nat, code: seq<nat>, m: nat, temp: seq<nat>, order: seq<nat>, base: nat)
    requires |code| == n <= m && IsTree(temp, Free([], m)) && base + n <= |order|
    ensures Decoding(n, code, [], Free([], m), temp, order, base)
  {
    hide IsTree;
    PickStart(n, code, m);
  }

  lemma DecodingDone(n: nat, code: seq<nat>, p: seq<nat>, free: seq<bool>, temp: seq<nat>, order: seq<nat>, base: nat)
    requires Decoding(n, code, p, free, temp, order, base) && |p| == n > 0
    ensures ValidCode(n, code) && IsLehmer(n, code, order[base..base + n])
  {
    PickedAll(n, code, p, free);
  }

  // Succeeds exactly on the codes of permutations, and then writes the
  // permutation with that code at order[base..base + n].
  method DecodeLehmerCode(code: seq<nat>, n: nat, order: array<nat>, base: nat) returns (ok: bool)
    requires |code| == n && base + n <= order.Length
    modifies order
    ensures ok == ValidCode(n, code)
    ensures ok ==> IsLehmer(n, code, order[base..base + n])
    ensures SameOutside(old(order[..]), order[..], base, base + n)
  {
    hide IsTree, Decoding, IsLehmer, Free, Flip;
    if n == 0 {
      return false;
    }
    var log2n := CeilLog2(n);
    var paddedN := Pow2(log2n);
    var temp := BuildTree(paddedN);
    ghost var p, free, before := [], Free([], paddedN), order[..];
    DecodingStart(n, code, paddedN, temp[..], order[..], base);
    for i: nat := 0 to n
      invariant fresh(temp) && temp.Length == paddedN && |p| == i
      invariant Decoding(n, code, p, free, temp[..], order[..], base)
      invariant SameOutside(before, order[..], base, base + n)
    {
      if code[i] + i >= n {
        return false;
      }
      var next := PickElement(n, code, p, free, temp, log2n, order, base, i);
      p, free := p + [next], Flip(free, next);
    }
    DecodingDone(n, code, p, free, temp[..], order[..], base);
    ok := true;
  }

  // ---------------------------------------------------------------------
  // Encoding: here node k, at temp[k], counts the used elements of its block.

  // Sums the blocks of [0, s + 1).
  method CountUsed(temp: array<nat>, ghost used: seq<bool>, s: nat) returns (penalty: nat)
    requires temp.Length == |used| + 1 && s < |used| && IsTree(temp[1..], used)
    ensures penalty == Count(used, 0, s + 1)
  {
    penalty := 0;
    var i: nat := s + 1;
    while i != 0
      invariant i <= s + 1 && penalty == Count(used, i, s + 1)
    {
      assert NodeCounts(temp[1..], used, i);
      penalty := penalty + temp[i];
      CountSplit(used, i - LowestBit(i), i, s + 1);
      i := i - LowestBit(i);
    }
  }

  method AddUsed(temp: array<nat>, ghost used: seq<bool>, s: nat)
    requires temp.Length == |used| + 1 && s < |used| && !used[s] && IsTree(temp[1..], used)
    modifies temp
    ensures IsTree(temp[1..], Flip(used, s))
  {
    hide IsTree, TreeUpTo, Covers, Flip;
    var i := s + 1;
    TreeStart(temp[1..], used, s);
    while i < temp.Length
      invariant 0 < i && Covers(i, s) && TreeUpTo(temp[1..], used, s, i)
      decreases temp.Length - i
    {
      ghost var t := temp[1..];
      TreeStep(t, used, s, i);
      temp[i] := temp[i] + 1;
      assert temp[1..] == t[i - 1 := t[i - 1] + 1];
      i := i + LowestBit(i);
    }
    TreeDone(temp[1..], used, s, i);
  }

  lemma {:induction false} CountComplement(free: seq<bool>, used: seq<bool>, hi: nat)
    requires hi <= |free| && hi <= |used| && forall x: nat | x < hi :: used[x] == !free[x]
    ensures Count(used, 0, hi) + Count(free, 0, hi) == hi
  {
    if hi > 0 {
      CountComplement(free, used, hi - 1);
    }
  }

  // The elements of a prefix, as the encoder's tree counts them.
  ghost function Used(p: seq<nat>, n: nat): (u: seq<bool>)
    ensures |u| == n && forall x: nat | x < n :: u[x] == (x in p)
  {
    seq(n, x => x in p)
  }

  lemma UsedStep(n: nat, p: seq<nat>, s: nat)
    requires s < n && s !in p
    ensures Count(Used(p, n), 0, s + 1) + Count(Free(p, n), 0, s) == s
    ensures Flip(Used(p, n), s) == Used(p + [s], n)
  {
    CountComplement(Free(p, n), Used(p, n), s);
  }

  lemma EmptyTree(temp: seq<nat>)
    requires forall k: nat | k < |temp| :: temp[k] == 0
    ensures IsTree(temp, Used([], |temp|))
  {
    var u := Used([], |temp|);
    forall k: nat | 0 < k <= |temp|
      ensures NodeCounts(temp, u, k)
    {
      CountNone(u, k - LowestBit(k), k);
    }
  }

  // The code of a permutation. The subtraction never goes below zero.
  method ComputeLehmerCode(permutation: seq<nat>, n: nat) returns (code: seq<nat>)
    requires IsPermutation(n, permutation)
    ensures IsLehmer(n, code, permutation)
    ensures n > 0 ==> ValidCode(n, code)
  {
    hide IsTree;
    var temp := new nat[n + 1](_ => 0);
    code := [];
    EmptyTree(temp[1..]);
    assert permutation[..0] == [];
    for idx: nat := 0 to n
      invariant fresh(temp) && temp.Length == n + 1 && |code| == idx
      invariant IsTree(temp[1..], Used(permutation[..idx], n))
      invariant forall k: nat | k < idx :: Picks(n, code, permutation, k)
    {
      var s := permutation[idx];
      ghost var p := permutation[..idx];
      assert s !in p;
      UsedStep(n, p, s);
      var penalty := CountUsed(temp, Used(p, n), s);
      assert s >= penalty;
      ghost var c := code;
      code := code + [s - penalty];
      forall k: nat | k < idx + 1
        ensures Picks(n, code, permutation, k)
      {
        assert k < idx ==> Picks(n, c, permutation, k);
      }
      AddUsed(temp, Used(p, n), s);
      assert permutation[..idx + 1] == p + [s];
    }
    if n > 0 {
      LehmerIsValid(n, code, permutation);
    }
  }

  lemma {:induction false} FreeLeft(n: nat, perm: seq<nat>, k: nat)
    requires IsPermutation(n, perm) && k <= n
    ensures Count(Free(perm[..k], n), 0, n) == n - k
  {
    if k == 0 {
      CountAll(Free([], n), 0, n);
    } else {
      FreeLeft(n, perm, k - 1);
      var f, x := Free(perm[..k - 1], n), perm[k - 1];
      assert perm[..k] == perm[..k - 1] + [x] && x !in perm[..k - 1];
      CountFlip(f, x, 0, n);
      assert Flip(f, x) == Free(perm[..k], n);
    }
  }

  // Every code of a permutation passes the decoder's check.
  lemma LehmerIsValid(n: nat, code: seq<nat>, perm: seq<nat>)
    requires IsLehmer(n, code, perm) && n > 0
    ensures ValidCode(n, code)
  {
    LehmerIsPermutation(n, code, perm);
    forall i: nat | i < n
      ensures code[i] + i < n
    {
      assert Picks(n, code, perm, i);
      var f := Free(perm[..i], n);
      FreeLeft(n, perm, i);
      CountSplit(f, 0, perm[i] + 1, n);
    }
  }

  // Encoding and then decoding gives back every permutation.
  method RoundTrip(permutation: seq<nat>, n: nat) returns (decoded: array<nat>, ok: bool)
    requires IsPermutation(n, permutation) && n > 0
    ensures ok && decoded[..] == permutation
  {
    var code := ComputeLehmerCode(permutation, n);
    decoded := new nat[n];
    ok := DecodeLehmerCode(code, n, decoded, 0);
    assert decoded[0..0 + n] == decoded[..];
    PermutationUnique(n, code, decoded[..], permutation, n);
    assert permutation[..n] == permutation && decoded[..][..n] == decoded[..];
  }
}
