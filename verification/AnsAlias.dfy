// The alias table of the ANS entropy coder: libjxl/lib/jxl/ans_common.{h,cc}.
module AnsAlias {
  import opened Bits
  import opened Wrappers

  const ANS_LOG_TAB_SIZE := 12
  const ANS_TAB_SIZE := 4096

  // The packed table entry.
  datatype Entry = Entry(cutoff: uint8, rightValue: uint8, freq0: uint16,
                         offsets1: uint16, freq1XorFreq0: uint16)

  datatype Symbol = Symbol(value: nat, offset: nat, freq: nat)

  // Lookup, reading each field of the entry (the big-endian branch).
  function Lookup(table: seq<Entry>, value: nat, logEntrySize: nat): Symbol
    requires Shr(value, logEntrySize) < |table|
  {
    var i := Shr(value, logEntrySize);
    var pos := LowBits(value, logEntrySize);
    var e := table[i];
    var greater := pos >= e.cutoff;
    var offsets1Or0 := if greater then e.offsets1 else 0;
    var freq1XorFreq0Or0 := if greater then e.freq1XorFreq0 else 0;
    Symbol(if greater then e.rightValue else i, offsets1Or0 + pos, Xor(e.freq0, freq1XorFreq0Or0))
  }

  // The entry as the eight bytes that the little-endian branch loads at once.
  function Pack(e: Entry): uint64 {
    e.cutoff + 0x100 * (e.rightValue + 0x100 * (e.freq0 + 0x1_0000 * (e.offsets1 + 0x1_0000 * e.freq1XorFreq0)))
  }

  // Lookup on packed entries (the little-endian branch).
  function LookupPacked(table: seq<uint64>, value: nat, logEntrySize: nat): Symbol
    requires Shr(value, logEntrySize) < |table|
  {
    var i := Shr(value, logEntrySize);
    var pos := LowBits(value, logEntrySize);
    var entry := table[i];
    var cutoff := entry % 0x100;
    var rightValue := entry / 0x100 % 0x100;
    var freq0 := entry / 0x1_0000 % 0x1_0000;
    var greater := pos >= cutoff;
    var conditional := if greater then entry else 0;
    var offsets1Or0 := conditional / 0x1_0000_0000 % 0x1_0000;
    var freq1XorFreq0Or0 := conditional / 0x1_0000_0000_0000;
    Symbol(if greater then rightValue else i, offsets1Or0 + pos, Xor(freq0, freq1XorFreq0Or0))
  }

  lemma PackFields(e: Entry)
    ensures Pack(e) % 0x100 == e.cutoff && Pack(e) / 0x100 % 0x100 == e.rightValue
    ensures Pack(e) / 0x1_0000 % 0x1_0000 == e.freq0
    ensures Pack(e) / 0x1_0000_0000 % 0x1_0000 == e.offsets1
    ensures Pack(e) / 0x1_0000_0000_0000 == e.freq1XorFreq0
  {
    var p := Pack(e);
    var p48: nat := e.freq1XorFreq0;
    var p32: nat := e.offsets1 + 0x1_0000 * p48;
    var p16: nat := e.freq0 + 0x1_0000 * p32;
    var p8: nat := e.rightValue + 0x100 * p16;
    DivIs(p, p8, 0x100, e.cutoff);
    DivIs(p8, p16, 0x100, e.rightValue);
    DivIs(p, p16, 0x1_0000, e.cutoff + 0x100 * e.rightValue);
    DivIs(p16, p32, 0x1_0000, e.freq0);
    DivIs(p, p32, 0x1_0000_0000, e.cutoff + 0x100 * e.rightValue + 0x1_0000 * e.freq0);
    DivIs(p32, p48, 0x1_0000, e.offsets1);
    DivIs(p, p48, 0x1_0000_0000_0000,
          e.cutoff + 0x100 * e.rightValue + 0x1_0000 * e.freq0 + 0x1_0000_0000 * e.offsets1);
  }

  // Both forms of Lookup report the same symbol on every table and value.
  lemma PackedLookupAgrees(table: seq<Entry>, packed: seq<uint64>, value: nat, logEntrySize: nat)
    requires |packed| == |table| && Shr(value, logEntrySize) < |table|
    requires forall i :: 0 <= i < |table| ==> packed[i] == Pack(table[i])
    ensures LookupPacked(packed, value, logEntrySize) == Lookup(table, value, logEntrySize)
  {
    PackFields(table[Shr(value, logEntrySize)]);
  }

  // ---------------------------------------------------------------------
  // What a table must do.

  function Freq(d: seq<int>, s: nat): int {
    if s < |d| then d[s] else 0
  }

  ghost predicate Decodes(t: seq<Entry>, logE: nat, v: nat, s: nat, o: nat) {
    Shr(v, logE) < |t| && Lookup(t, v, logE).value == s && Lookup(t, v, logE).offset == o
  }

  ghost predicate Hit(t: seq<Entry>, logE: nat, s: nat, o: nat) {
    exists v: nat :: Decodes(t, logE, v, s, o)
  }

  // A pair (s, o) with o < d[s], reported with the frequency d[s].
  ghost predicate IsSlot(d: seq<int>, r: Symbol) {
    r.offset < Freq(d, r.value) && r.freq == Freq(d, r.value)
  }

  ghost predicate EveryValueHitsASlot(d: seq<int>, logE: nat, t: seq<Entry>) {
    forall v: nat | Shr(v, logE) < |t| :: IsSlot(d, Lookup(t, v, logE))
  }

  ghost predicate NoSlotHitTwice(logE: nat, t: seq<Entry>) {
    forall v: nat, w: nat, s: nat, o: nat {:trigger Decodes(t, logE, v, s, o), Decodes(t, logE, w, s, o)} ::
      Decodes(t, logE, v, s, o) && Decodes(t, logE, w, s, o) ==> v == w
  }

  ghost predicate EverySlotHit(d: seq<int>, logE: nat, t: seq<Entry>) {
    forall s: nat, o: nat | o < Freq(d, s) :: Hit(t, logE, s, o)
  }

  // Lookup is a bijection from the values of the table (the numbers whose
  // entry index is in the table) to the pairs (s, o) with o < d[s].
  ghost predicate IsAliasTable(d: seq<int>, logE: nat, t: seq<Entry>) {
    EveryValueHitsASlot(d, logE, t) && NoSlotHitTwice(logE, t) && EverySlotHit(d, logE, t)
  }

  function Sum(d: seq<int>): int {
    if d == [] then 0 else Sum(d[..|d| - 1]) + d[|d| - 1]
  }

  // The distribution without its trailing zeros.
  function Trim(d: seq<int>): seq<int> {
    if d != [] && d[|d| - 1] == 0 then Trim(d[..|d| - 1]) else d
  }

  // The distribution that the table is built for.
  function Effective(d: seq<int>, range: nat): seq<int> {
    if Trim(d) == [] then [range] else Trim(d)
  }

  // Exactly the inputs that InitAliasTable accepts.
  predicate Accepted(d: seq<int>, logRange: nat, logAlphaSize: nat) {
    && logAlphaSize <= logRange
    && |Effective(d, Pow2(logRange))| <= Pow2(logAlphaSize)
    && Sum(Effective(d, Pow2(logRange))) == Pow2(logRange)
  }

  // ---------------------------------------------------------------------
  // Which table it is, by rounds: what is in excess at one position is moved to
  // another, until no position is above entry size.

  // c[i] slots of symbol i are at position i; behind them, a filled position
  // has slots of another symbol, from an offset on. `low` is the position that
  // the last round left below entry size.
  datatype Stage = Stage(c: seq<int>, right: map<nat, (nat, int)>, low: Option<nat>)

  predicate Overfull(e: int, s: Stage, x: nat) { x < |s.c| && s.c[x] > e }

  predicate Unfilled(e: int, s: Stage, x: nat) { x < |s.c| && s.c[x] < e && x !in s.right }

  ghost predicate GreatestOverfull(e: int, s: Stage, o: nat) {
    Overfull(e, s, o) && forall x: nat | Overfull(e, s, x) :: x <= o
  }

  ghost predicate GreatestUnfilled(e: int, s: Stage, u: nat) {
    Unfilled(e, s, u) && forall x: nat | Unfilled(e, s, x) :: x <= u
  }

  // A round takes the greatest overfull position o. It fills the position that
  // the last round left below entry size, or else the greatest unfilled one.
  ghost predicate RoundBy(e: int, s: Stage, o: nat, u: nat, next: Stage) {
    && GreatestOverfull(e, s, o) && u < |s.c|
    && (if s.low.Some? then u == s.low.value else GreatestUnfilled(e, s, u))
    && var rest := s.c[o] - (e - s.c[u]);
       next == Stage(s.c[o := rest], s.right[u := (o, rest)], if rest < e then Some(o) else None)
  }

  ghost predicate IsRound(e: int, s: Stage, next: Stage) {
    exists o: nat, u: nat :: RoundBy(e, s, o, u, next)
  }

  ghost predicate AreRounds(e: int, stages: seq<Stage>) {
    stages != [] && forall k: nat, j: nat | k < |stages| - 1 && j == k + 1 :: IsRound(e, stages[k], stages[j])
  }

  ghost predicate Settled(e: int, s: Stage) {
    forall x: nat :: !Overfull(e, s, x)
  }

  // The first stage: every symbol at its own position, and empty positions.
  function FirstStage(d: seq<int>, n: nat): Stage {
    Stage(seq(n, i requires 0 <= i < n => Freq(d, i)), map[], None)
  }

  // What a lookup finds in a settled table.
  ghost predicate SlotAt(d: seq<int>, s: Stage, i: nat, pos: nat, r: Symbol) {
    && i < |s.c| && r.freq == Freq(d, r.value)
    && if pos < s.c[i] then r.value == i && r.offset == pos
       else i in s.right && r.value == s.right[i].0 && r.offset == s.right[i].1 + pos - s.c[i]
  }

  ghost predicate ShowsStage(d: seq<int>, logE: nat, s: Stage, t: seq<Entry>) {
    && |s.c| == |t|
    && forall v: nat | Shr(v, logE) < |t| :: SlotAt(d, s, Shr(v, logE), LowBits(v, logE), Lookup(t, v, logE))
  }

  ghost predicate ByRounds(d: seq<int>, logE: nat, t: seq<Entry>, stages: seq<Stage>) {
    && AreRounds(Pow2(logE), stages) && stages[0] == FirstStage(d, |t|)
    && Settled(Pow2(logE), stages[|stages| - 1]) && ShowsStage(d, logE, stages[|stages| - 1], t)
  }

  ghost predicate HasFullWeight(d: seq<int>, sym: nat) {
    sym < |d| && d[sym] == ANS_TAB_SIZE
  }

  // The table of a distribution: the identity on the slots of a single symbol,
  // or what the rounds lead to.
  ghost predicate IsTheTable(d: seq<int>, logE: nat, t: seq<Entry>) {
    && (forall sym: nat | HasFullWeight(d, sym) ::
          forall v: nat | Shr(v, logE) < |t| :: Lookup(t, v, logE) == Symbol(sym, v, ANS_TAB_SIZE))
    && ((forall sym: nat :: !HasFullWeight(d, sym)) ==> exists stages :: ByRounds(d, logE, t, stages))
  }

  lemma RoundIsUnique(e: int, s: Stage, a: Stage, b: Stage)
    requires IsRound(e, s, a) && IsRound(e, s, b)
    ensures a == b
  {
    var o: nat, u: nat :| RoundBy(e, s, o, u, a);
    var o': nat, u': nat :| RoundBy(e, s, o', u', b);
    assert Overfull(e, s, o) && Overfull(e, s, o');
    if s.low.None? {
      assert Unfilled(e, s, u) && Unfilled(e, s, u');
    }
  }

  lemma {:induction false} SameStage(e: int, a: seq<Stage>, b: seq<Stage>, k: nat)
    requires AreRounds(e, a) && AreRounds(e, b) && a[0] == b[0] && k < |a| && k < |b|
    ensures a[k] == b[k]
  {
    if k > 0 {
      SameStage(e, a, b, k - 1);
      var j := k - 1;
      assert IsRound(e, a[j], a[k]) && IsRound(e, b[j], b[k]);
      RoundIsUnique(e, a[j], a[k], b[k]);
    }
  }

  lemma RoundNeedsExcess(e: int, s: Stage, next: Stage)
    requires IsRound(e, s, next)
    ensures !Settled(e, s)
  {
    var o: nat, u: nat :| RoundBy(e, s, o, u, next);
    assert Overfull(e, s, o);
  }

  // The rounds lead to one stage only.
  lemma RoundsEndOnce(e: int, a: seq<Stage>, b: seq<Stage>)
    requires AreRounds(e, a) && AreRounds(e, b) && a[0] == b[0]
    requires Settled(e, a[|a| - 1]) && Settled(e, b[|b| - 1])
    ensures a[|a| - 1] == b[|b| - 1]
  {
    hide IsRound, Settled;
    if |a| < |b| {
      SameStage(e, a, b, |a| - 1);
      assert IsRound(e, b[|a| - 1], b[|a|]);
      RoundNeedsExcess(e, a[|a| - 1], b[|a|]);
    } else if |b| < |a| {
      SameStage(e, a, b, |b| - 1);
      assert IsRound(e, a[|b| - 1], a[|b|]);
      RoundNeedsExcess(e, b[|b| - 1], a[|b|]);
    } else {
      SameStage(e, a, b, |a| - 1);
    }
  }

  // A distribution has one table: all lookups are determined.
  lemma OneTable(d: seq<int>, logE: nat, t: seq<Entry>, t': seq<Entry>, v: nat)
    requires IsTheTable(d, logE, t) && IsTheTable(d, logE, t') && |t| == |t'| && Shr(v, logE) < |t|
    ensures Lookup(t, v, logE) == Lookup(t', v, logE)
  {
    hide Lookup, Shr, LowBits, Pow2, FirstStage, AreRounds, Settled;
    if sym: nat :| HasFullWeight(d, sym) {
    } else {
      var a :| ByRounds(d, logE, t, a);
      var b :| ByRounds(d, logE, t', b);
      StartOfRounds(Pow2(logE), a);
      StartOfRounds(Pow2(logE), b);
      RoundsEndOnce(Pow2(logE), a, b);
      assert SlotAt(d, a[|a| - 1], Shr(v, logE), LowBits(v, logE), Lookup(t, v, logE));
    }
  }

  lemma StartOfRounds(e: int, stages: seq<Stage>)
    requires AreRounds(e, stages)
    ensures stages != []
  {
  }

  // ---------------------------------------------------------------------
  // The redistribution loop.

  ghost predicate NoDup(s: seq<nat>) {
    forall i, j :: 0 <= i < j < |s| ==> s[i] != s[j]
  }

  ghost predicate Above(e: int, c: seq<int>, s: seq<nat>) {
    forall x :: x in s ==> x < |c| && c[x] > e
  }

  ghost predicate Below(e: int, c: seq<int>, s: seq<nat>) {
    forall x :: x in s ==> x < |c| && c[x] < e
  }

  // How far the entries on a stack are above (or below) entry size, in total.
  ghost function Excess(e: int, c: seq<int>, s: seq<nat>): int {
    if s == [] then 0 else Excess(e, c, s[..|s| - 1]) + Freq(c, s[|s| - 1]) - e
  }

  lemma {:induction false} ExcessFrame(e: int, c: seq<int>, c': seq<int>, s: seq<nat>)
    requires forall x :: x in s ==> Freq(c, x) == Freq(c', x)
    ensures Excess(e, c, s) == Excess(e, c', s)
  {
    if s != [] {
      assert s[|s| - 1] in s;
      ExcessFrame(e, c, c', s[..|s| - 1]);
    }
  }

  lemma {:induction false} ExcessSign(e: int, c: seq<int>, s: seq<nat>)
    ensures Above(e, c, s) ==> Excess(e, c, s) >= |s|
    ensures Below(e, c, s) ==> Excess(e, c, s) <= -|s|
  {
    if s != [] {
      var last, rest := s[|s| - 1], s[..|s| - 1];
      assert last in s && forall x :: x in rest ==> x in s;
      ExcessSign(e, c, rest);
      assert Above(e, c, s) ==> Above(e, c, rest) && Freq(c, last) > e;
      assert Below(e, c, s) ==> Below(e, c, rest) && Freq(c, last) < e;
    }
  }

  ghost predicate StacksOk(e: int, c: seq<int>, over: seq<nat>, under: seq<nat>) {
    && NoDup(over) && NoDup(under) && Above(e, c, over) && Below(e, c, under)
    && (forall u: nat | u < |c| :: 0 <= c[u] && (u in over || u in under || c[u] <= e))
    && Excess(e, c, over) + Excess(e, c, under) == 0
  }

  // The finished entry u holds offset o of symbol s in its right part.
  ghost predicate Holds(e: int, c: seq<int>, t: seq<Entry>, u: nat, s: nat, o: int)
    requires |t| == |c|
  {
    u < |c| && c[u] < e && t[u].rightValue == s && t[u].offsets1 <= o < t[u].offsets1 + e - c[u]
  }

  // The entries on neither stack.
  ghost function Finished(n: nat, over: seq<nat>, under: seq<nat>): set<nat> {
    set u: nat | u < n && u !in over && u !in under
  }

  ghost predicate MovedAway(d: seq<int>, c: seq<int>, s: nat, o: int) {
    s < |c| && c[s] <= o < Freq(d, s)
  }

  // Offsets [0, c[s]) of symbol s are still in entry s; offsets [c[s], d[s])
  // were moved, each to exactly one finished entry, which `host` names.
  ghost predicate Hosted(e: int, d: seq<int>, c: seq<int>, t: seq<Entry>, finished: set<nat>,
                         host: map<(nat, int), nat>)
    requires |t| == |c|
  {
    && (forall s: nat | s < |c| :: 0 <= c[s] <= Freq(d, s))
    && (forall s: nat, o: int | MovedAway(d, c, s, o) ::
          (s, o) in host && host[(s, o)] in finished && Holds(e, c, t, host[(s, o)], s, o))
    && (forall u | u in finished && u < |c| && c[u] < e :: t[u].rightValue < |c| && c[u] <= t[u].offsets1)
    && (forall u: nat, s: nat, o: int {:trigger Holds(e, c, t, u, s, o)} | u in finished && Holds(e, c, t, u, s, o) ::
          MovedAway(d, c, s, o) && (s, o) in host && host[(s, o)] == u)
  }

  // While an overfull entry is left, so is an underfull one.
  lemma UnderfullLeft(e: int, c: seq<int>, over: seq<nat>, under: seq<nat>)
    requires StacksOk(e, c, over, under)
    ensures over == [] <==> under == []
  {
    ExcessSign(e, c, over);
    ExcessSign(e, c, under);
  }

  ghost function PushIf(b: bool, s: seq<nat>, x: nat): seq<nat> {
    if b then s + [x] else s
  }

  lemma Pushed(s: seq<nat>, x: nat, b: bool)
    requires NoDup(s) && x !in s
    ensures NoDup(PushIf(b, s, x))
    ensures forall y :: y in PushIf(b, s, x) <==> y in s || (b && y == x)
  {
  }

  // A stack and its top, by membership.
  lemma Popped(s: seq<nat>, x: nat)
    requires NoDup(s + [x])
    ensures NoDup(s) && x !in s && forall y :: y in s + [x] <==> y in s || y == x
  {
    var t := s + [x];
    assert forall i :: 0 <= i < |s| ==> t[i] == s[i];
    assert t[|s|] == x;
  }

  lemma ExcessPush(e: int, c: seq<int>, s: seq<nat>, x: nat, b: bool)
    ensures Excess(e, c, PushIf(b, s, x)) == Excess(e, c, s) + (if b then Freq(c, x) - e else 0)
  {
    assert (s + [x])[..|s|] == s;
  }

  // One round of the loop on the stacks: entry u is filled up from entry o.
  lemma StepStacks(e: int, c: seq<int>, over: seq<nat>, under: seq<nat>, o: nat, u: nat, c': seq<int>)
    requires StacksOk(e, c, over + [o], under + [u])
    requires |c'| == |c| && o < |c| && u < |c| && c' == c[o := c[o] - (e - c[u])]
    ensures o != u && c[u] < e < c[o] && c[u] < c'[o]
    ensures StacksOk(e, c', PushIf(c'[o] > e, over, o), PushIf(c'[o] < e, under, o))
  {
    var over', under' := PushIf(c'[o] > e, over, o), PushIf(c'[o] < e, under, o);
    Popped(over, o);
    Popped(under, u);
    assert o in over + [o] && u in under + [u];
    assert Excess(e, c', over') + Excess(e, c', under') == 0 by {
      StepExcess(e, c, over, under, o, u, c');
    }
    Pushed(over, o, c'[o] > e);
    Pushed(under, o, c'[o] < e);
    StepMembers(e, c, over, under, o, u, c');
  }

  lemma StepMembers(e: int, c: seq<int>, over: seq<nat>, under: seq<nat>, o: nat, u: nat, c': seq<int>)
    requires o < |c| && u < |c| && o != u && c' == c[o := c[o] - (e - c[u])] && 0 <= c[u] < e < c[o]
    requires Above(e, c, over) && Below(e, c, under) && o !in over && u !in under
    requires forall v: nat | v < |c| :: 0 <= c[v] && (v in over || v == o || v in under || v == u || c[v] <= e)
    ensures Above(e, c', PushIf(c'[o] > e, over, o)) && Below(e, c', PushIf(c'[o] < e, under, o))
    ensures forall v: nat | v < |c| ::
              0 <= c'[v] && (v in PushIf(c'[o] > e, over, o) || v in PushIf(c'[o] < e, under, o) || c'[v] <= e)
  {
  }

  lemma StepExcess(e: int, c: seq<int>, over: seq<nat>, under: seq<nat>, o: nat, u: nat, c': seq<int>)
    requires o < |c| && u < |c| && o != u && c' == c[o := c[o] - (e - c[u])]
    requires o !in over && o !in under
    ensures Excess(e, c', PushIf(c'[o] > e, over, o)) + Excess(e, c', PushIf(c'[o] < e, under, o))
         == Excess(e, c, over + [o]) + Excess(e, c, under + [u])
  {
    ExcessPush(e, c, over, o, true);
    ExcessPush(e, c, under, u, true);
    ExcessFrame(e, c, c', over);
    ExcessFrame(e, c, c', under);
    ExcessPush(e, c', over, o, c'[o] > e);
    ExcessPush(e, c', under, o, c'[o] < e);
  }

  ghost function Moved(host: map<(nat, int), nat>, o: nat, from: int, to: int, u: nat): map<(nat, int), nat> {
    host + (map x: int | from <= x < to :: (o, x) := u)
  }

  // The same round on the contents of the entries.
  ghost predicate Round(e: int, c: seq<int>, t: seq<Entry>, finished: set<nat>, o: nat, u: nat,
                        c': seq<int>, t': seq<Entry>, finished': set<nat>)
  {
    && |t| == |t'| == |c| == |c'|
    && o < |c| && u < |c| && c' == c[o := c[o] - (e - c[u])] && c[u] < e < c[o]
    && o !in finished && u !in finished
    && finished' == finished + (if c'[o] == e then {o, u} else {u})
    && t' == t[u := t'[u]] && t'[u].rightValue == o && t'[u].offsets1 == c'[o]
  }

  lemma StepMoved(e: int, d: seq<int>, c: seq<int>, t: seq<Entry>, finished: set<nat>, o: nat, u: nat,
                  c': seq<int>, t': seq<Entry>, finished': set<nat>, host: map<(nat, int), nat>, s: nat, x: int)
    requires Round(e, c, t, finished, o, u, c', t', finished') && Hosted(e, d, c, t, finished, host)
    requires MovedAway(d, c', s, x)
    ensures var host' := Moved(host, o, c'[o], c[o], u);
            (s, x) in host' && host'[(s, x)] in finished' && Holds(e, c', t', host'[(s, x)], s, x)
  {
    if !(s == o && x < c[o]) {
      assert MovedAway(d, c, s, x) && Holds(e, c, t, host[(s, x)], s, x);
    }
  }

  lemma StepHolds(e: int, d: seq<int>, c: seq<int>, t: seq<Entry>, finished: set<nat>, o: nat, u: nat,
                  c': seq<int>, t': seq<Entry>, finished': set<nat>, host: map<(nat, int), nat>,
                  v: nat, s: nat, x: int)
    requires Round(e, c, t, finished, o, u, c', t', finished') && Hosted(e, d, c, t, finished, host)
    requires v in finished' && Holds(e, c', t', v, s, x)
    ensures var host' := Moved(host, o, c'[o], c[o], u);
            MovedAway(d, c', s, x) && (s, x) in host' && host'[(s, x)] == v
  {
    if v != u {
      assert Holds(e, c, t, v, s, x) && MovedAway(d, c, s, x);
    }
  }

  lemma StepHosted(e: int, d: seq<int>, c: seq<int>, t: seq<Entry>, finished: set<nat>, o: nat, u: nat,
                   c': seq<int>, t': seq<Entry>, finished': set<nat>, host: map<(nat, int), nat>)
    requires Round(e, c, t, finished, o, u, c', t', finished') && Hosted(e, d, c, t, finished, host)
    ensures Hosted(e, d, c', t', finished', Moved(host, o, c'[o], c[o], u))
  {
    hide Moved, MovedAway, Holds;
    forall s: nat, x: int | MovedAway(d, c', s, x) {
      StepMoved(e, d, c, t, finished, o, u, c', t', finished', host, s, x);
    }
    forall v: nat, s: nat, x: int | v in finished' && Holds(e, c', t', v, s, x) {
      StepHolds(e, d, c, t, finished, o, u, c', t', finished', host, v, s, x);
    }
  }

  lemma StepFinished(n: nat, over: seq<nat>, under: seq<nat>, o: nat, u: nat, above: bool, below: bool)
    requires NoDup(over + [o]) && NoDup(under + [u]) && o < n && u < n && o != u && !(above && below)
    requires o !in under && u !in over
    ensures o !in Finished(n, over + [o], under + [u]) && u !in Finished(n, over + [o], under + [u])
    ensures Finished(n, PushIf(above, over, o), PushIf(below, under, o))
         == Finished(n, over + [o], under + [u]) + (if above || below then {u} else {o, u})
  {
    Popped(over, o);
    Popped(under, u);
    Pushed(over, o, above);
    Pushed(under, o, below);
  }

  // ---------------------------------------------------------------------
  // The table that the last loop writes.

  ghost predicate IsFinal(e: int, d: seq<int>, c: seq<int>, t: seq<Entry>, i: nat, x: Entry)
    requires i < |c| == |t|
  {
    && x.cutoff == (if c[i] == e then 0 else c[i])
    && x.rightValue == (if c[i] == e then i else t[i].rightValue)
    && x.offsets1 == (if c[i] == e then 0 else t[i].offsets1 - c[i])
    && 0 <= Freq(d, x.rightValue)
    && x.freq0 == Freq(d, i)
    && x.freq1XorFreq0 == Xor(Freq(d, x.rightValue), Freq(d, i))
  }

  // All entries are finished, and `fin` is made from them.
  ghost predicate FinalTable(logE: nat, d: seq<int>, c: seq<int>, t: seq<Entry>, host: map<(nat, int), nat>,
                             fin: seq<Entry>)
  {
    && |c| == |t| == |fin|
    && Hosted(Pow2(logE), d, c, t, Finished(|c|, [], []), host)
    && (forall u: nat | u < |c| :: 0 <= c[u] <= Pow2(logE))
    && (forall i: nat | i < |c| :: IsFinal(Pow2(logE), d, c, t, i, fin[i]))
  }

  lemma LookupFinal(logE: nat, d: seq<int>, c: seq<int>, t: seq<Entry>, host: map<(nat, int), nat>, fin: seq<Entry>,
                    v: nat)
    requires FinalTable(logE, d, c, t, host, fin) && Shr(v, logE) < |c|
    ensures var i, pos, r := Shr(v, logE), LowBits(v, logE), Lookup(fin, v, logE);
            && pos < Pow2(logE) && r.freq == Freq(d, r.value)
            && if pos < c[i] then r.value == i && r.offset == pos && pos < Freq(d, i)
               else Holds(Pow2(logE), c, t, i, r.value, r.offset) && r.offset == t[i].offsets1 + pos - c[i]
                    && MovedAway(d, c, r.value, r.offset) && host[(r.value, r.offset)] == i
  {
    var i, pos, r := Shr(v, logE), LowBits(v, logE), Lookup(fin, v, logE);
    ShiftMask(v, logE);
    assert IsFinal(Pow2(logE), d, c, t, i, fin[i]);
    XorCancel(Freq(d, i), Freq(d, fin[i].rightValue));
    XorCancel(0, Freq(d, i));
    XorSymmetric(Freq(d, i), 0);
    XorZero(Freq(d, i));
    if pos >= c[i] {
      assert Holds(Pow2(logE), c, t, i, r.value, r.offset);
    }
  }

  lemma FinalIsAliasTable(logE: nat, d: seq<int>, c: seq<int>, t: seq<Entry>, host: map<(nat, int), nat>,
                          fin: seq<Entry>)
    requires FinalTable(logE, d, c, t, host, fin) && |d| <= |c|
    ensures IsAliasTable(d, logE, fin)
  {
    forall v: nat | Shr(v, logE) < |fin|
      ensures IsSlot(d, Lookup(fin, v, logE))
    {
      LookupFinal(logE, d, c, t, host, fin, v);
    }
    forall v: nat, w: nat, s: nat, o: nat | Decodes(fin, logE, v, s, o) && Decodes(fin, logE, w, s, o)
      ensures v == w
    {
      FinalInjective(logE, d, c, t, host, fin, v, w, s, o);
    }
    forall s: nat, o: nat | o < Freq(d, s)
      ensures Hit(fin, logE, s, o)
    {
      FinalSurjective(logE, d, c, t, host, fin, s, o);
    }
  }

  lemma FinalInjective(logE: nat, d: seq<int>, c: seq<int>, t: seq<Entry>, host: map<(nat, int), nat>,
                       fin: seq<Entry>, v: nat, w: nat, s: nat, o: nat)
    requires FinalTable(logE, d, c, t, host, fin)
    requires Decodes(fin, logE, v, s, o) && Decodes(fin, logE, w, s, o)
    ensures v == w
  {
    LookupFinal(logE, d, c, t, host, fin, v);
    LookupFinal(logE, d, c, t, host, fin, w);
    assert Shr(v, logE) == Shr(w, logE) && LowBits(v, logE) == LowBits(w, logE);
    ShiftMask(v, logE);
    ShiftMask(w, logE);
  }

  lemma FinalSurjective(logE: nat, d: seq<int>, c: seq<int>, t: seq<Entry>, host: map<(nat, int), nat>,
                        fin: seq<Entry>, s: nat, o: nat)
    requires FinalTable(logE, d, c, t, host, fin) && |d| <= |c| && o < Freq(d, s)
    ensures Hit(fin, logE, s, o)
  {
    if o < c[s] {
      var v := ValueAt(s, o, logE);
      LookupFinal(logE, d, c, t, host, fin, v);
      assert Decodes(fin, logE, v, s, o);
    } else {
      assert MovedAway(d, c, s, o);
      var u := host[(s, o)];
      assert Holds(Pow2(logE), c, t, u, s, o);
      assert t[u].rightValue < |c| && c[u] <= t[u].offsets1;
      var v := ValueAt(u, c[u] + o - t[u].offsets1, logE);
      LookupFinal(logE, d, c, t, host, fin, v);
      assert IsFinal(Pow2(logE), d, c, t, u, fin[u]);
      assert Decodes(fin, logE, v, s, o);
    }
  }

  lemma ValueAt(u: nat, pos: nat, logE: nat) returns (v: nat)
    requires pos < Pow2(logE)
    ensures Shr(v, logE) == u && LowBits(v, logE) == pos
  {
    ShiftMaskUnique(u, pos, logE);
    v := Shl(u, logE) + pos;
  }

  ghost predicate IsSingleEntry(x: Entry, sym: nat, logE: nat, i: nat) {
    x.cutoff == 0 && x.rightValue == sym && x.offsets1 == Shl(i, logE) && x.freq0 == 0
    && x.freq1XorFreq0 == ANS_TAB_SIZE
  }

  // The table of a distribution with one symbol of full weight.
  lemma SingleSymbolTable(logE: nat, d: seq<int>, sym: nat, fin: seq<Entry>)
    requires sym < |d| && (forall s: nat :: Freq(d, s) == if s == sym then ANS_TAB_SIZE else 0)
    requires Shl(|fin|, logE) == ANS_TAB_SIZE
    requires forall i: nat | i < |fin| :: IsSingleEntry(fin[i], sym, logE, i)
    ensures IsAliasTable(d, logE, fin)
    ensures forall v: nat | Shr(v, logE) < |fin| :: Lookup(fin, v, logE) == Symbol(sym, v, ANS_TAB_SIZE)
  {
    forall v: nat | Shr(v, logE) < |fin|
      ensures Lookup(fin, v, logE) == Symbol(sym, v, ANS_TAB_SIZE) && v < ANS_TAB_SIZE
    {
      ShiftMask(v, logE);
      XorZero(ANS_TAB_SIZE);
      ShlLess(Shr(v, logE), |fin|, logE);
    }
    forall s: nat, o: nat | o < Freq(d, s)
      ensures Hit(fin, logE, s, o)
    {
      ShiftMask(o, logE);
      if Shr(o, logE) > |fin| {
        ShlLess(|fin|, Shr(o, logE), logE);
      }
      assert Decodes(fin, logE, o, sym, o);
    }
  }

  // ---------------------------------------------------------------------
  // InitAliasTable, stage by stage.

  // Removes trailing zeros; an empty alphabet becomes one symbol of full weight.
  method TrimDistribution(d: seq<int>, range: nat) returns (t: seq<int>)
    ensures t == Effective(d, range)
  {
    t := d;
    while t != [] && t[|t| - 1] == 0
      invariant Trim(t) == Trim(d)
      decreases |t|
    {
      t := t[..|t| - 1];
    }
    if t == [] {
      t := t + [range];
    }
  }

  ghost predicate SplitBy(d: seq<int>, n: nat, e: int, over: seq<nat>, under: seq<nat>)
    requires n <= |d|
  {
    && NoDup(over) && NoDup(under) && Increasing(over) && Increasing(under)
    && (forall j: nat :: j in over <==> j < n && d[j] > e)
    && (forall j: nat :: j in under <==> j < n && d[j] < e)
  }

  ghost function SumAbove(e: int, d: seq<int>, n: nat): int
    requires n <= |d|
  {
    if n == 0 then 0 else SumAbove(e, d, n - 1) + d[n - 1] - e
  }

  lemma SumAboveIs(e: int, d: seq<int>, n: nat)
    requires n <= |d|
    ensures SumAbove(e, d, n) == Sum(d[..n]) - n * e
  {
    if n > 0 {
      assert d[..n][..n - 1] == d[..n - 1];
      SumAboveIs(e, d, n - 1);
      assert n * e == (n - 1) * e + e;
    }
  }

  // The first n entries of a padded distribution, split by entry size.
  ghost predicate SplitAt(e: int, d: seq<int>, n: nat, over: seq<nat>, under: seq<nat>)
    requires n <= |d|
  {
    SplitBy(d, n, e, over, under) && Excess(e, d, over) + Excess(e, d, under) == SumAbove(e, d, n)
  }

  lemma SplitPush(e: int, d: seq<int>, n: nat, over: seq<nat>, under: seq<nat>)
    requires n < |d| && SplitAt(e, d, n, over, under)
    ensures SplitAt(e, d, n + 1, PushIf(d[n] > e, over, n), PushIf(d[n] < e, under, n))
  {
    SplitPushMembers(e, d, n, over, under);
    ExcessPush(e, d, over, n, d[n] > e);
    ExcessPush(e, d, under, n, d[n] < e);
  }

  lemma SplitPushMembers(e: int, d: seq<int>, n: nat, over: seq<nat>, under: seq<nat>)
    requires n < |d| && SplitBy(d, n, e, over, under)
    ensures SplitBy(d, n + 1, e, PushIf(d[n] > e, over, n), PushIf(d[n] < e, under, n))
  {
    Pushed(over, n, d[n] > e);
    Pushed(under, n, d[n] < e);
    PushGreatest(over, n, d[n] > e);
    PushGreatest(under, n, d[n] < e);
  }

  lemma SplitAll(e: int, d: seq<int>, over: seq<nat>, under: seq<nat>)
    requires SplitAt(e, d, |d|, over, under) && Sum(d) == |d| * e && e > 0 && forall i :: 0 <= i < |d| ==> 0 <= d[i]
    ensures StacksOk(e, d, over, under)
    ensures OthersFull(e, d, over, under) && Stacked(e, Stage(d, map[], None), over, under)
  {
    assert d[..|d|] == d;
    SumAboveIs(e, d, |d|);
  }

  lemma SplitAtPadded(e: int, d: seq<int>, padded: seq<int>, over: seq<nat>, under: seq<nat>)
    requires |d| <= |padded| && padded[..|d|] == d && SplitAt(e, d, |d|, over, under)
    ensures SplitAt(e, padded, |d|, over, under)
  {
    ExcessFrame(e, d, padded, over);
    ExcessFrame(e, d, padded, under);
    SumAboveIs(e, d, |d|);
    SumAboveIs(e, padded, |d|);
    assert d[..|d|] == d;
  }

  lemma SplitNone(e: int, d: seq<int>)
    ensures SplitAt(e, d, 0, [], [])
  {
  }

  lemma PushIs(b: bool, s: seq<nat>, x: nat)
    ensures PushIf(b, s, x) == if b then s + [x] else s
  {
  }

  // The stacks of positions above and below entry size, each in increasing order.
  method InitStacks(d: seq<int>, e: nat, cutoffs: array<uint32>) returns (over: seq<nat>, under: seq<nat>)
    requires |d| <= cutoffs.Length
    requires forall i :: 0 <= i < |d| ==> 0 <= d[i] <= ANS_TAB_SIZE
    modifies cutoffs
    ensures cutoffs[..|d|] == d
    ensures SplitAt(e, d, |d|, over, under)
  {
    hide SplitAt, PushIf;
    over, under := [], [];
    SplitNone(e, d);
    for i := 0 to |d|
      invariant cutoffs[..i] == d[..i]
      invariant SplitAt(e, d, i, over, under)
    {
      SplitPush(e, d, i, over, under);
      PushIs(d[i] > e, over, i);
      PushIs(d[i] < e, under, i);
      cutoffs[i] := d[i];
      if cutoffs[i] > e {
        over := over + [i];
      } else if cutoffs[i] < e {
        under := under + [i];
      }
    }
  }

  // Positions without a symbol are empty, hence underfull.
  method PadStacks(ghost padded: seq<int>, n: nat, e: nat, cutoffs: array<uint32>, over: seq<nat>, under0: seq<nat>)
    returns (under: seq<nat>)
    requires n <= cutoffs.Length == |padded| && e > 0
    requires forall i :: n <= i < |padded| ==> padded[i] == 0
    requires (forall j: nat | j < n :: cutoffs[j] == padded[j]) && SplitAt(e, padded, n, over, under0)
    modifies cutoffs
    ensures cutoffs[..] == padded
    ensures SplitAt(e, padded, |padded|, over, under)
  {
    hide SplitAt;
    under := under0;
    for i := n to cutoffs.Length
      invariant forall j: nat | j < i :: cutoffs[j] == padded[j]
      invariant SplitAt(e, padded, i, over, under)
    {
      SplitPush(e, padded, i, over, under);
      ghost var under' := PushIf(padded[i] < e, under, i);
      cutoffs[i] := 0;
      under := under + [i];
      assert under == under';
    }
  }

  lemma SumPad(d: seq<int>, k: nat)
    ensures Sum(d + seq(k, _ => 0)) == Sum(d)
  {
    if k == 0 {
      assert d + seq(k, _ => 0) == d;
    } else {
      assert (d + seq(k, _ => 0))[..|d| + k - 1] == d + seq(k - 1, _ => 0);
      SumPad(d, k - 1);
    }
  }

  ghost predicate LoopInvariant(e: int, d: seq<int>, c: seq<int>, t: seq<Entry>, over: seq<nat>, under: seq<nat>,
                                host: map<(nat, int), nat>)
    requires |t| == |c|
  {
    StacksOk(e, c, over, under) && Hosted(e, d, c, t, Finished(|c|, over, under), host)
  }

  ghost function Top(s: seq<nat>): nat
    requires s != []
  {
    s[|s| - 1]
  }

  ghost function Rest(s: seq<nat>): seq<nat>
    requires s != []
  {
    s[..|s| - 1]
  }

  ghost predicate Increasing(s: seq<nat>) {
    forall i, j :: 0 <= i < j < |s| ==> s[i] < s[j]
  }

  // The stacks of a stage: both increase, but for the position that the last
  // round left below entry size, which is on top.
  ghost predicate Stacked(e: int, s: Stage, over: seq<nat>, under: seq<nat>) {
    && Increasing(over) && (forall x: nat :: x in over <==> Overfull(e, s, x))
    && (forall x: nat :: x in under <==> Unfilled(e, s, x))
    && (if s.low.None? then Increasing(under)
        else under != [] && Top(under) == s.low.value && Increasing(Rest(under)) && s.low.value !in Rest(under))
    && forall u :: u in s.right ==> u < |s.c| && s.c[u] < e
  }

  ghost predicate Recorded(s: Stage, t: seq<Entry>) {
    forall u :: u in s.right ==> u < |t| && s.right[u] == (t[u].rightValue, t[u].offsets1)
  }

  lemma TopIsGreatest(s: seq<nat>, x: nat)
    requires Increasing(s) && x in s
    ensures s != [] && x <= Top(s)
  {
    var i :| 0 <= i < |s| && s[i] == x;
  }

  lemma RestOf(s: seq<nat>, x: nat)
    requires s != [] && Increasing(s)
    ensures Increasing(Rest(s)) && (x in Rest(s) <==> x in s && x != Top(s))
  {
    assert s == Rest(s) + [Top(s)];
    if x in Rest(s) {
      var i :| 0 <= i < |Rest(s)| && Rest(s)[i] == x;
      assert s[i] == x;
    }
  }

  lemma PushGreatest(s: seq<nat>, x: nat, b: bool)
    requires Increasing(s) && forall y :: y in s ==> y < x
    ensures Increasing(PushIf(b, s, x))
  {
    assert forall i :: 0 <= i < |s| ==> s[i] in s;
  }

  // One turn of the loop on such stacks is a round.
  lemma TurnIsRound(e: int, s: Stage, over: seq<nat>, under: seq<nat>, rest: int)
    requires Stacked(e, s, over, under) && over != [] && under != []
    requires Top(over) < |s.c| && Top(under) < |s.c| && rest == s.c[Top(over)] - (e - s.c[Top(under)])
    ensures var o, u := Top(over), Top(under);
            var next := Stage(s.c[o := rest], s.right[u := (o, rest)], if rest < e then Some(o) else None);
            && RoundBy(e, s, o, u, next)
            && Stacked(e, next, PushIf(rest > e, Rest(over), o), PushIf(rest < e, Rest(under), o))
  {
    var o, u := Top(over), Top(under);
    var next := Stage(s.c[o := rest], s.right[u := (o, rest)], if rest < e then Some(o) else None);
    assert o in over && u in under;
    forall x: nat
      ensures x in over ==> x <= o
      ensures x in Rest(over) <==> x in over && x != o
      ensures x in Rest(under) <==> x in under && x != u
      ensures s.low.None? && x in under ==> x <= u
      ensures Increasing(Rest(under)) && Increasing(Rest(over))
    {
      RestOf(over, x);
      if x in over {
        TopIsGreatest(over, x);
      }
      if s.low.None? {
        RestOf(under, x);
        if x in under {
          TopIsGreatest(under, x);
        }
      } else {
        assert under == Rest(under) + [u];
      }
    }
    PushGreatest(Rest(over), o, rest > e);
    PushedMembers(e, s, next, over, under, rest);
    assert rest < e ==> Rest(Rest(under) + [o]) == Rest(under);
  }

  lemma PushedMembers(e: int, s: Stage, next: Stage, over: seq<nat>, under: seq<nat>, rest: int)
    requires over != [] && under != [] && Top(over) < |s.c| && Top(under) < |s.c|
    requires var o, u := Top(over), Top(under);
             && next == Stage(s.c[o := rest], s.right[u := (o, rest)], if rest < e then Some(o) else None)
             && Overfull(e, s, o) && Unfilled(e, s, u)
    requires forall x: nat :: x in Rest(over) <==> Overfull(e, s, x) && x != Top(over)
    requires forall x: nat :: x in Rest(under) <==> Unfilled(e, s, x) && x != Top(under)
    requires forall x :: x in s.right ==> x < |s.c| && s.c[x] < e
    ensures var o := Top(over);
            && (forall x: nat :: x in PushIf(rest > e, Rest(over), o) <==> Overfull(e, next, x))
            && (forall x: nat :: x in PushIf(rest < e, Rest(under), o) <==> Unfilled(e, next, x))
            && (forall x :: x in next.right ==> x < |next.c| && next.c[x] < e)
  {
  }

  // The rounds so far, and the stacks and entries after them.
  ghost predicate Traced(e: int, stages: seq<Stage>, c: seq<int>, t: seq<Entry>, over: seq<nat>, under: seq<nat>)
  {
    && AreRounds(e, stages) && stages[|stages| - 1].c == c
    && Stacked(e, stages[|stages| - 1], over, under) && Recorded(stages[|stages| - 1], t)
  }

  lemma TraceStart(e: int, c: seq<int>, t: seq<Entry>, over: seq<nat>, under: seq<nat>)
    requires Stacked(e, Stage(c, map[], None), over, under)
    ensures Traced(e, [Stage(c, map[], None)], c, t, over, under)
  {
  }

  ghost function NextStage(e: int, s: Stage, o: nat, u: nat, rest: int): Stage
    requires o < |s.c|
  {
    Stage(s.c[o := rest], s.right[u := (o, rest)], if rest < e then Some(o) else None)
  }

  lemma TraceStep(e: int, stages: seq<Stage>, c: seq<int>, t: seq<Entry>, over: seq<nat>, under: seq<nat>,
                  c': seq<int>, t': seq<Entry>)
    requires Traced(e, stages, c, t, over, under) && over != [] && under != [] && |t| == |t'| == |c|
    requires var o, u := Top(over), Top(under);
             && o < |c| && u < |c| && c' == c[o := c[o] - (e - c[u])]
             && t' == t[u := t'[u]] && t'[u].rightValue == o && t'[u].offsets1 == c'[o]
    ensures var o, u := Top(over), Top(under);
            && o < |stages[|stages| - 1].c|
            && Traced(e, stages + [NextStage(e, stages[|stages| - 1], o, u, c'[o])], c', t',
                      PushIf(c'[o] > e, Rest(over), o), PushIf(c'[o] < e, Rest(under), o))
  {
    hide Stacked;
    var o, u, s := Top(over), Top(under), stages[|stages| - 1];
    var more := stages + [NextStage(e, s, o, u, c'[o])];
    TurnIsRound(e, s, over, under, c'[o]);
    forall k: nat, j: nat | k < |more| - 1 && j == k + 1
      ensures IsRound(e, more[k], more[j])
    {
      if j < |stages| {
        assert IsRound(e, stages[k], stages[j]);
      } else {
        assert RoundBy(e, s, o, u, more[j]);
      }
    }
  }

  // Nothing is on the stacks: the last stage is settled, and every position is
  // full or filled.
  ghost predicate Ended(e: int, c: seq<int>, t: seq<Entry>, stages: seq<Stage>) {
    && Traced(e, stages, c, t, [], []) && Settled(e, stages[|stages| - 1])
    && forall u: nat | u < |c| && c[u] < e :: u in stages[|stages| - 1].right
  }

  lemma TraceEnd(e: int, stages: seq<Stage>, c: seq<int>, t: seq<Entry>)
    requires Traced(e, stages, c, t, [], [])
    ensures Ended(e, c, t, stages)
  {
    StartOfRounds(e, stages);
    hide AreRounds, Recorded;
    var s := stages[|stages| - 1];
    forall u: nat | u < |c| && c[u] < e
      ensures u in s.right
    {
      assert !Unfilled(e, s, u);
    }
  }

  // One round of the loop, on whole stacks.
  lemma Step(e: int, d: seq<int>, c: seq<int>, t: seq<Entry>, over: seq<nat>, under: seq<nat>,
             c': seq<int>, t': seq<Entry>, host: map<(nat, int), nat>)
    requires |t| == |t'| == |c| && LoopInvariant(e, d, c, t, over, under, host) && over != [] && under != []
    requires var o, u := Top(over), Top(under);
             && o < |c| && u < |c| && c' == c[o := c[o] - (e - c[u])]
             && t' == t[u := t'[u]] && t'[u].rightValue == o && t'[u].offsets1 == c'[o]
    ensures var o, u := Top(over), Top(under);
            LoopInvariant(e, d, c', t', PushIf(c'[o] > e, Rest(over), o), PushIf(c'[o] < e, Rest(under), o),
                          Moved(host, o, c'[o], c[o], u))
  {
    var o, u, over', under' := Top(over), Top(under), Rest(over), Rest(under);
    assert over == over' + [o] && under == under' + [u];
    assert o in over && u in under;
    StepStacks(e, c, over', under', o, u, c');
    assert o !in under' && u !in over' by {
      Popped(over', o);
      Popped(under', u);
    }
    StepFinished(|c|, over', under', o, u, c'[o] > e, c'[o] < e);
    StepHosted(e, d, c, t, Finished(|c|, over, under), o, u, c', t',
               Finished(|c|, PushIf(c'[o] > e, over', o), PushIf(c'[o] < e, under', o)), host);
  }

  // Before the loop: what is on neither stack is exactly full.
  ghost predicate OthersFull(e: int, c: seq<int>, over: seq<nat>, under: seq<nat>) {
    forall i: nat | i in Finished(|c|, over, under) :: i < |c| && c[i] == e
  }

  lemma LoopStart(e: int, d: seq<int>, c: seq<int>, t: seq<Entry>, over: seq<nat>, under: seq<nat>)
    requires |t| == |c| && StacksOk(e, c, over, under)
    requires forall i: nat | i < |c| :: c[i] == Freq(d, i)
    requires OthersFull(e, c, over, under)
    ensures LoopInvariant(e, d, c, t, over, under, map[])
  {
  }

  lemma LoopRound(e: int, d: seq<int>, c: seq<int>, t: seq<Entry>, over: seq<nat>, under: seq<nat>,
                  host: map<(nat, int), nat>)
    requires |t| == |c| && LoopInvariant(e, d, c, t, over, under, host)
    requires over != []
    ensures under != [] && Top(over) < |c| && Top(under) < |c|
    ensures 0 <= c[Top(under)] < e < c[Top(over)] <= Freq(d, Top(over))
  {
    UnderfullLeft(e, c, over, under);
    assert Top(over) in over && Top(under) in under;
  }

  lemma LoopEnd(e: int, d: seq<int>, c: seq<int>, t: seq<Entry>, under: seq<nat>, host: map<(nat, int), nat>)
    requires |t| == |c| && LoopInvariant(e, d, c, t, [], under, host)
    ensures under == [] && Hosted(e, d, c, t, Finished(|c|, [], []), host)
    ensures forall i: nat | i < |c| :: 0 <= c[i] <= e
  {
    UnderfullLeft(e, c, [], under);
  }

  // Fills underfull entries from overfull ones until none is overfull, by the
  // rounds. The check that an underfull entry is left never fails.
  method Redistribute(e: nat, ghost d: seq<int>, cutoffs: array<uint32>, a: array<Entry>,
                      overfull: seq<nat>, underfull: seq<nat>)
    returns (ok: bool, ghost host: map<(nat, int), nat>, ghost stages: seq<Stage>)
    requires a.Length == cutoffs.Length <= 256 && cutoffs as object != a && e <= ANS_TAB_SIZE
    requires forall i :: 0 <= i < |d| ==> 0 <= d[i] <= ANS_TAB_SIZE
    requires forall i: nat | i < cutoffs.Length :: cutoffs[i] == Freq(d, i)
    requires StacksOk(e, cutoffs[..], overfull, underfull)
    requires OthersFull(e, cutoffs[..], overfull, underfull)
    requires Stacked(e, Stage(cutoffs[..], map[], None), overfull, underfull)
    modifies cutoffs, a
    ensures ok
    ensures Hosted(e, d, cutoffs[..], a[..], Finished(cutoffs.Length, [], []), host)
    ensures forall i: nat | i < cutoffs.Length :: cutoffs[i] <= e
    ensures stages != [] && stages[0] == Stage(old(cutoffs[..]), map[], None)
    ensures Ended(e, cutoffs[..], a[..], stages)
  {
    hide LoopInvariant, StacksOk, Hosted, OthersFull, Finished, Stacked, Traced, Ended;
    var over: seq<nat>, under: seq<nat> := overfull, underfull;
    host, stages := map[], [Stage(cutoffs[..], map[], None)];
    LoopStart(e, d, cutoffs[..], a[..], over, under);
    TraceStart(e, cutoffs[..], a[..], over, under);
    while over != []
      invariant LoopInvariant(e, d, cutoffs[..], a[..], over, under, host)
      invariant stages != [] && stages[0] == Stage(old(cutoffs[..]), map[], None)
      invariant Traced(e, stages, cutoffs[..], a[..], over, under)
      decreases |over| + |under|
    {
      ghost var c, t, over0, under0 := cutoffs[..], a[..], over, under;
      LoopRound(e, d, c, t, over, under, host);
      var o := over[|over| - 1];
      over := over[..|over| - 1];
      ok := under != [];
      assert ok;
      var u := under[|under| - 1];
      under := under[..|under| - 1];
      var underfullBy := e - cutoffs[u];
      cutoffs[o] := cutoffs[o] - underfullBy;
      a[u] := a[u].(rightValue := o % 0x100);
      a[u] := a[u].(offsets1 := cutoffs[o] % 0x1_0000);
      Step(e, d, c, t, over0, under0, cutoffs[..], a[..], host);
      TraceStep(e, stages, c, t, over0, under0, cutoffs[..], a[..]);
      host := Moved(host, o, cutoffs[o], c[o], u);
      stages := stages + [NextStage(e, stages[|stages| - 1], o, u, cutoffs[o])];
      if cutoffs[o] < e {
        under := under + [o];
      } else if cutoffs[o] > e {
        over := over + [o];
      }
      assert over == PushIf(cutoffs[o] > e, Rest(over0), o) && under == PushIf(cutoffs[o] < e, Rest(under0), o);
    }
    LoopEnd(e, d, cutoffs[..], a[..], under, host);
    TraceEnd(e, stages, cutoffs[..], a[..]);
    ok := true;
  }

  // The body of the last loop, on the entry's fields.
  function FinalEntry(e: nat, d: seq<int>, cutoff: uint32, i: uint8, x: Entry): Entry {
    var y :=
      if cutoff == e then x.(rightValue := i, offsets1 := 0, cutoff := 0)
      else x.(offsets1 := (x.offsets1 - cutoff) % 0x1_0000, cutoff := cutoff % 0x100);
    var freq0 := Freq(d, i) % 0x1_0000;
    var freq1 := Freq(d, y.rightValue) % 0x1_0000;
    Xor16(freq1, freq0);
    y.(freq0 := freq0, freq1XorFreq0 := Xor(freq1, freq0))
  }

  lemma FinalEntryIsFinal(e: nat, d: seq<int>, c: seq<uint32>, t: seq<Entry>, host: map<(nat, int), nat>, i: nat)
    requires |t| == |c| <= 256 && e <= 256 && |d| <= |c| && i < |c|
    requires forall i :: 0 <= i < |d| ==> 0 <= d[i] <= ANS_TAB_SIZE
    requires Hosted(e, d, c, t, Finished(|c|, [], []), host)
    requires forall i: nat | i < |c| :: c[i] <= e
    ensures IsFinal(e, d, c, t, i, FinalEntry(e, d, c[i], i, t[i]))
  {
  }

  // The last loop: turns the finished entries into lookup form.
  method WriteEntries(d: seq<int>, logE: nat, cutoffs: array<uint32>, a: array<Entry>,
                      ghost host: map<(nat, int), nat>)
    requires a.Length == cutoffs.Length <= 256 && cutoffs as object != a && Pow2(logE) <= 256
    requires |d| <= a.Length && forall i :: 0 <= i < |d| ==> 0 <= d[i] <= ANS_TAB_SIZE
    requires Hosted(Pow2(logE), d, cutoffs[..], a[..], Finished(cutoffs.Length, [], []), host)
    requires forall i: nat | i < cutoffs.Length :: cutoffs[i] <= Pow2(logE)
    modifies a
    ensures FinalTable(logE, d, cutoffs[..], old(a[..]), host, a[..]) && IsAliasTable(d, logE, a[..])
  {
    var e := Pow2(logE);
    ghost var c, t := cutoffs[..], a[..];
    hide Hosted, Finished, IsAliasTable, IsFinal, FinalEntry, FinalTable;
    for i: nat := 0 to a.Length
      invariant forall j: nat | j < i :: IsFinal(e, d, c, t, j, a[j])
      invariant forall j: nat | i <= j < a.Length :: a[j] == t[j]
      invariant cutoffs[..] == c
    {
      FinalEntryIsFinal(e, d, c, t, host, i);
      a[i] := FinalEntry(e, d, cutoffs[i], i, a[i]);
    }
    IsFinalTable(logE, d, c, t, host, a[..]);
    FinalIsAliasTable(logE, d, c, t, host, a[..]);
  }

  lemma IsFinalTable(logE: nat, d: seq<int>, c: seq<int>, t: seq<Entry>, host: map<(nat, int), nat>, fin: seq<Entry>)
    requires |c| == |t| == |fin| && Hosted(Pow2(logE), d, c, t, Finished(|c|, [], []), host)
    requires forall u: nat | u < |c| :: 0 <= c[u] <= Pow2(logE)
    requires forall i: nat | i < |c| :: IsFinal(Pow2(logE), d, c, t, i, fin[i])
    ensures FinalTable(logE, d, c, t, host, fin)
  {
  }

  // ---------------------------------------------------------------------
  // The whole of InitAliasTable.

  ghost predicate Weights(d: seq<int>) {
    forall i :: 0 <= i < |d| ==> 0 <= d[i] <= ANS_TAB_SIZE
  }

  lemma {:induction false} SumAtLeast(d: seq<int>, i: nat, j: nat)
    requires Weights(d) && i < |d| && j < |d|
    ensures Sum(d) >= (if i == j then d[i] else d[i] + d[j])
    decreases |d|
  {
    var p := d[..|d| - 1];
    SumNonNegative(p);
    if i < |p| && j < |p| {
      SumAtLeast(p, i, j);
    } else if i < |p| {
      SumAtLeast(p, i, i);
    } else if j < |p| {
      SumAtLeast(p, j, j);
    }
  }

  lemma SumNonNegative(d: seq<int>)
    requires Weights(d)
    ensures Sum(d) >= 0
  {
    if d != [] {
      SumNonNegative(d[..|d| - 1]);
    }
  }

  // The sum, and the symbol of full weight if there is one.
  method FindSingleSymbol(d: seq<int>) returns (ok: bool, singleSymbol: int, sum: int)
    requires Weights(d)
    ensures !ok ==> Sum(d) > ANS_TAB_SIZE
    ensures ok ==> sum == Sum(d) && -1 <= singleSymbol < |d|
    ensures ok && singleSymbol == -1 ==> forall i :: 0 <= i < |d| ==> d[i] != ANS_TAB_SIZE
    ensures ok && singleSymbol != -1 ==> d[singleSymbol] == ANS_TAB_SIZE
  {
    singleSymbol, sum := -1, 0;
    for sym := 0 to |d|
      invariant sum == Sum(d[..sym]) && -1 <= singleSymbol < sym
      invariant singleSymbol == -1 ==> forall i :: 0 <= i < sym ==> d[i] != ANS_TAB_SIZE
      invariant singleSymbol != -1 ==> d[singleSymbol] == ANS_TAB_SIZE
    {
      assert d[..sym + 1][..sym] == d[..sym];
      var v := d[sym];
      sum := sum + v;
      if v == ANS_TAB_SIZE {
        if singleSymbol != -1 {
          SumAtLeast(d, singleSymbol, sym);
          return false, singleSymbol, sum;
        }
        singleSymbol := sym;
      }
    }
    assert d[..|d|] == d;
    ok := true;
  }

  lemma FullWeight(d: seq<int>, sym: nat)
    requires Weights(d) && Sum(d) == ANS_TAB_SIZE && sym < |d| && d[sym] == ANS_TAB_SIZE
    ensures forall s: nat :: Freq(d, s) == if s == sym then ANS_TAB_SIZE else 0
  {
    forall s: nat | s < |d|
      ensures d[s] == if s == sym then ANS_TAB_SIZE else 0
    {
      SumAtLeast(d, sym, s);
    }
  }

  lemma OneFullWeight(d: seq<int>, sym: nat)
    requires Weights(d) && Sum(d) == ANS_TAB_SIZE && HasFullWeight(d, sym)
    ensures forall s: nat :: HasFullWeight(d, s) <==> s == sym
  {
    FullWeight(d, sym);
    assert forall s: nat | s < |d| :: d[s] == Freq(d, s);
  }

  method FillSingleSymbol(d: seq<int>, logE: nat, sym: uint8, a: array<Entry>)
    requires Weights(d) && sym < |d| && d[sym] == ANS_TAB_SIZE
    requires Sum(d) == a.Length * Pow2(logE) <= ANS_TAB_SIZE
    modifies a
    ensures IsAliasTable(d, logE, a[..]) && IsTheTable(d, logE, a[..])
  {
    hide IsAliasTable, IsTheTable;
    SumAtLeast(d, sym, sym);
    ShlIsProduct(a.Length, logE);
    for i: nat := 0 to a.Length
      invariant forall j: nat | j < i :: IsSingleEntry(a[j], sym, logE, j)
    {
      ShlIsProduct(i, logE);
      ShlLess(i, a.Length, logE);
      a[i] := Entry(0, sym, 0, (i * Pow2(logE)) % 0x1_0000, ANS_TAB_SIZE);
    }
    FullWeight(d, sym);
    SingleSymbolTable(logE, d, sym, a[..]);
    SingleIsTheTable(d, logE, sym, a[..]);
  }

  lemma SingleIsTheTable(d: seq<int>, logE: nat, sym: nat, t: seq<Entry>)
    requires Weights(d) && Sum(d) == ANS_TAB_SIZE && HasFullWeight(d, sym)
    requires forall v: nat | Shr(v, logE) < |t| :: Lookup(t, v, logE) == Symbol(sym, v, ANS_TAB_SIZE)
    ensures IsTheTable(d, logE, t)
  {
    hide Lookup, Shr, Sum, Weights, ByRounds;
    OneFullWeight(d, sym);
  }

  lemma EffectiveWeights(d: seq<int>, range: nat)
    requires Weights(d) && range <= ANS_TAB_SIZE
    ensures Weights(Effective(d, range))
  {
    TrimIsPrefix(d);
  }

  // Removing the trailing zeros changes no frequency.
  lemma {:induction false} TrimIsPrefix(d: seq<int>)
    ensures |Trim(d)| <= |d| && Trim(d) == d[..|Trim(d)|]
    ensures forall s: nat :: Freq(Trim(d), s) == Freq(d, s)
    ensures Sum(Trim(d)) == Sum(d)
  {
    if d != [] && d[|d| - 1] == 0 {
      TrimIsPrefix(d[..|d| - 1]);
    }
  }

  // For every valid distribution, the table is a bijection onto the (symbol,
  // offset) pairs, with the frequencies of the distribution. It succeeds on
  // exactly the inputs that have enough room and the right sum, and otherwise
  // leaves the table alone.
  method InitAliasTable(distribution: seq<int>, logRange: nat, logAlphaSize: nat, a: array<Entry>)
    returns (ok: bool)
    requires logRange <= ANS_LOG_TAB_SIZE && logAlphaSize <= 8 && logRange <= logAlphaSize + 8
    requires a.Length == Pow2(logAlphaSize)
    requires Weights(distribution)
    modifies a
    ensures ok == Accepted(distribution, logRange, logAlphaSize)
    ensures ok ==> IsAliasTable(Effective(distribution, Pow2(logRange)), logRange - logAlphaSize, a[..])
    ensures ok ==> IsTheTable(Effective(distribution, Pow2(logRange)), logRange - logAlphaSize, a[..])
    ensures !ok ==> a[..] == old(a[..])
  {
    hide IsAliasTable, Sum, Weights, Trim;
    var range := Pow2(logRange);
    var tableSize := Pow2(logAlphaSize);
    Pow2Known();
    Pow2Monotonic(logRange, ANS_LOG_TAB_SIZE);
    Pow2Monotonic(logAlphaSize, 8);
    Pow2Strict(logRange, logAlphaSize);
    if tableSize > range {
      return false;
    }
    var d := TrimDistribution(distribution, range);
    EffectiveWeights(distribution, range);
    if |d| > tableSize {
      return false;
    }
    var logE := logRange - logAlphaSize;
    var entrySize := Pow2(logE);
    Pow2Monotonic(logE, 8);
    ShlIsProduct(tableSize, logE);
    RangeIs(logRange, logAlphaSize);
    var single, sum;
    ok, single, sum := FindSingleSymbol(d);
    if !ok || sum != range {
      return false;
    }
    if single != -1 {
      FillSingleSymbol(d, logE, single % 0x100, a);
      return true;
    }
    FillGeneral(d, logE, a);
    return true;
  }

  // A lookup in the final table finds what the last stage says.
  lemma FinalShowsStage(logE: nat, d: seq<int>, c: seq<int>, t: seq<Entry>, host: map<(nat, int), nat>,
                        fin: seq<Entry>, stages: seq<Stage>)
    requires FinalTable(logE, d, c, t, host, fin) && Ended(Pow2(logE), c, t, stages)
    ensures stages != [] && ShowsStage(d, logE, stages[|stages| - 1], fin)
  {
    StartOfRounds(Pow2(logE), stages);
    hide Lookup, Shr, LowBits, Pow2, FinalTable, AreRounds, Stacked, MovedAway;
    FinalSize(logE, d, c, t, host, fin);
    var s := stages[|stages| - 1];
    forall v: nat | Shr(v, logE) < |fin|
      ensures SlotAt(d, s, Shr(v, logE), LowBits(v, logE), Lookup(fin, v, logE))
    {
      LookupFinal(logE, d, c, t, host, fin, v);
    }
  }

  lemma FinalSize(logE: nat, d: seq<int>, c: seq<int>, t: seq<Entry>, host: map<(nat, int), nat>, fin: seq<Entry>)
    requires FinalTable(logE, d, c, t, host, fin)
    ensures |c| == |t| == |fin|
  {
  }

  // The general case: split, pad, redistribute, and write the entries.
  method FillGeneral(d: seq<int>, logE: nat, a: array<Entry>)
    requires Weights(d) && |d| <= a.Length <= 256 && Pow2(logE) <= 256
    requires Sum(d) == a.Length * Pow2(logE)
    modifies a
    ensures IsAliasTable(d, logE, a[..]) && exists stages :: ByRounds(d, logE, a[..], stages)
  {
    hide IsAliasTable, StacksOk, Hosted, OthersFull, SplitAt, Sum, Stacked, Ended, FinalTable, ByRounds, ShowsStage;
    var tableSize, entrySize := a.Length, Pow2(logE);
    var cutoffs := new uint32[tableSize](_ => 0);
    var over, under := InitStacks(d, entrySize, cutoffs);
    ghost var padded := d + seq(tableSize - |d|, _ => 0);
    SumPad(d, tableSize - |d|);
    SplitAtPadded(entrySize, d, padded, over, under);
    under := PadStacks(padded, |d|, entrySize, cutoffs, over, under);
    SplitAll(entrySize, padded, over, under);
    assert padded == FirstStage(d, tableSize).c;
    ghost var host, stages;
    var ok;
    ok, host, stages := Redistribute(entrySize, d, cutoffs, a, over, under);
    ghost var t := a[..];
    WriteEntries(d, logE, cutoffs, a, host);
    FinalShowsStage(logE, d, cutoffs[..], t, host, a[..], stages);
    FoundByRounds(d, logE, cutoffs[..], t, a[..], stages);
  }

  lemma FoundByRounds(d: seq<int>, logE: nat, c: seq<int>, t: seq<Entry>, fin: seq<Entry>, stages: seq<Stage>)
    requires Ended(Pow2(logE), c, t, stages) && stages[0] == FirstStage(d, |fin|)
    requires ShowsStage(d, logE, stages[|stages| - 1], fin)
    ensures ByRounds(d, logE, fin, stages)
  {
  }

  // Four positions of two slots.
  ghost function FourStages(): (s: seq<Stage>)
    ensures |s| == 4 && s[0] == FirstStage([4, 3, 1], 4)
  {
    assert FirstStage([4, 3, 1], 4).c == [4, 3, 1, 0];
    [Stage([4, 3, 1, 0], map[], None),
     Stage([4, 1, 1, 0], map[3 := (1, 1)], Some(1)),
     Stage([3, 1, 1, 0], map[3 := (1, 1), 1 := (0, 3)], None),
     Stage([2, 1, 1, 0], map[3 := (1, 1), 1 := (0, 3), 2 := (0, 2)], None)]
  }

  lemma FourRounds()
    ensures AreRounds(2, FourStages()) && Settled(2, FourStages()[3])
  {
    hide AreRounds, IsRound;
    var s := FourStages();
    MakesRound(2, s[0], 1, 3, s[1]);
    MakesRound(2, s[1], 0, 1, s[2]);
    MakesRound(2, s[2], 0, 2, s[3]);
    ThreeRounds(2, s);
  }

  lemma MakesRound(e: int, s: Stage, o: nat, u: nat, next: Stage)
    requires RoundBy(e, s, o, u, next)
    ensures IsRound(e, s, next)
  {
  }

  lemma ThreeRounds(e: int, s: seq<Stage>)
    requires |s| == 4 && IsRound(e, s[0], s[1]) && IsRound(e, s[1], s[2]) && IsRound(e, s[2], s[3])
    ensures AreRounds(e, s)
  {
  }

  // The order of the rounds: 3 is filled from 1, then 1, which that leaves below
  // entry size, from 0, and last 2 from 0.
  lemma FourPositions(t: seq<Entry>)
    requires |t| == 4 && IsTheTable([4, 3, 1], 1, t)
    ensures Shr(3, 1) == 1 && Lookup(t, 3, 1) == Symbol(0, 3, 4)
    ensures Shr(5, 1) == 2 && Lookup(t, 5, 1) == Symbol(0, 2, 4)
    ensures Shr(7, 1) == 3 && Lookup(t, 7, 1) == Symbol(1, 2, 3)
  {
    hide Lookup, IsRound, AreRounds, Settled;
    FourRounds();
    var stages :| ByRounds([4, 3, 1], 1, t, stages);
    RoundsEndOnce(2, stages, FourStages());
    assert SlotAt([4, 3, 1], FourStages()[3], 1, 1, Lookup(t, 3, 1));
    assert SlotAt([4, 3, 1], FourStages()[3], 2, 1, Lookup(t, 5, 1));
    assert SlotAt([4, 3, 1], FourStages()[3], 3, 1, Lookup(t, 7, 1));
  }

  // ---------------------------------------------------------------------
  // Flat histograms.

  // As even as possible, the larger counts first.
  ghost predicate IsFlat(h: seq<int>, count: nat, larger: nat) {
    forall i: nat | i < |h| :: h[i] == count + (if i < larger then 1 else 0)
  }

  lemma {:induction false} FlatSum(h: seq<int>, count: nat, larger: nat)
    requires IsFlat(h, count, larger)
    ensures Sum(h) == |h| * count + (if |h| < larger then |h| else larger)
    decreases |h|
  {
    if h != [] {
      var n: nat := |h| - 1;
      FlatSum(h[..n], count, larger);
      assert h[n] == count + (if n < larger then 1 else 0);
      assert (n + 1) * count == n * count + count;
    }
  }

  method CreateFlatHistogram(length: nat, totalCount: nat) returns (result: seq<int>)
    requires 0 < length <= totalCount
    ensures |result| == length && Sum(result) == totalCount
    ensures IsFlat(result, totalCount / length, totalCount % length)
    ensures forall i: nat, j: nat | i < j < length :: result[j] >= 1 && result[j] <= result[i] <= result[j] + 1
  {
    var count := totalCount / length;
    result := seq(length, _ => count);
    var remCounts := totalCount % length;
    for i := 0 to remCounts
      invariant |result| == length
      invariant forall j: nat | j < length :: result[j] == count + (if j < i then 1 else 0)
    {
      result := result[i := result[i] + 1];
    }
    FlatSum(result, count, remCounts);
    AtLeastOne(length, totalCount);
  }

  lemma AtLeastOne(length: nat, totalCount: nat)
    requires 0 < length <= totalCount
    ensures totalCount / length >= 1 && length * (totalCount / length) + totalCount % length == totalCount
  {
  }

  // Every flat histogram over the range is accepted, and loses no symbol.
  lemma FlatIsAccepted(h: seq<int>, logRange: nat, logAlphaSize: nat)
    requires logAlphaSize <= logRange && 0 < |h| <= Pow2(logAlphaSize)
    requires Sum(h) == Pow2(logRange) && h[|h| - 1] > 0
    ensures Effective(h, Pow2(logRange)) == h && Accepted(h, logRange, logAlphaSize)
  {
    assert Trim(h) == h;
  }
}
