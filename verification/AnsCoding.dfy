// The ANS encoder (libjxl/lib/jxl/enc_ans.{h,cc}) and decoder
// (libjxl/lib/jxl/dec_ans.h) around an alias table, for messages of hybrid
// integers.
module AnsCoding {
  import opened AnsAlias
  import opened BitFields
  import opened Bits
  import H = HybridUint

  const RECIPROCAL: int := 0x1000_0000_0000  // 1 << RECIPROCAL_PRECISION
  const SIGNATURE_STATE: uint32 := 0x13_0000  // ANS_SIGNATURE << 16

  // One element of the encoding table built from a distribution.
  datatype EncSymbolInfo = EncSymbolInfo(freq: uint16, ifreq: uint64, reverseMap: seq<uint16>)

  // The table covers exactly the 12 low bits of the state.
  ghost predicate IsCode(d: seq<int>, logE: nat, t: seq<Entry>) {
    Weights(d) && IsAliasTable(d, logE, t) && Shl(|t|, logE) == ANS_TAB_SIZE
  }

  lemma InTable(t: seq<Entry>, logE: nat, v: nat)
    requires Shl(|t|, logE) == ANS_TAB_SIZE
    ensures v < ANS_TAB_SIZE <==> Shr(v, logE) < |t|
  {
    ShiftMask(v, logE);
    if Shr(v, logE) < |t| {
      ShlLess(Shr(v, logE), |t|, logE);
    } else if Shr(v, logE) > |t| {
      ShlLess(|t|, Shr(v, logE), logE);
    }
  }

  function Reciprocal(freq: nat): nat {
    if freq == 0 then 1 else (RECIPROCAL + freq - 1) / freq
  }

  // ---------------------------------------------------------------------
  // Encoding tables.

  ghost predicate InfoFor(d: seq<int>, logE: nat, t: seq<Entry>, s: nat, info: EncSymbolInfo) {
    && info.freq == |info.reverseMap| == Freq(d, s) && info.ifreq == Reciprocal(info.freq)
    && forall o: nat | o < info.freq ::
         info.reverseMap[o] < ANS_TAB_SIZE && Decodes(t, logE, info.reverseMap[o], s, o)
  }

  // Inverts the alias table: slot (s, o) is written by the one value that
  // Lookup sends there.
  method BuildInfoTable(d: seq<int>, logE: nat, t: seq<Entry>) returns (info: seq<EncSymbolInfo>)
    requires IsCode(d, logE, t)
    ensures |info| == |d| && forall s: nat | s < |d| :: InfoFor(d, logE, t, s, info[s])
  {
    info := [];
    for s := 0 to |d|
      invariant |info| == s
      invariant forall r: nat | r < s ::
                  info[r].freq == |info[r].reverseMap| == d[r] && info[r].ifreq == Reciprocal(info[r].freq)
    {
      ReciprocalFits(d[s]);
      info := info + [EncSymbolInfo(d[s] % 0x1_0000, Reciprocal(d[s]), seq(d[s], _ => 0))];
    }
    for i: nat := 0 to ANS_TAB_SIZE
      invariant |info| == |d|
      invariant forall r: nat | r < |d| ::
                  info[r].freq == |info[r].reverseMap| == d[r] && info[r].ifreq == Reciprocal(info[r].freq)
      invariant forall v: nat, s: nat, o: nat | v < i && Decodes(t, logE, v, s, o) ::
                  s < |d| && o < d[s] && info[s].reverseMap[o] == v
    {
      InTable(t, logE, i);
      var s := Lookup(t, i, logE);
      assert IsSlot(d, s);
      assert Decodes(t, logE, i, s.value, s.offset);
      var x := info[s.value];
      info := info[s.value := x.(reverseMap := x.reverseMap[s.offset := i])];
    }
    forall s: nat, o: nat | s < |d| && o < d[s]
      ensures info[s].reverseMap[o] < ANS_TAB_SIZE && Decodes(t, logE, info[s].reverseMap[o], s, o)
    {
      assert Hit(t, logE, s, o);
      var v: nat :| Decodes(t, logE, v, s, o);
      InTable(t, logE, v);
    }
  }

  lemma ReciprocalFits(freq: int)
    requires 0 <= freq <= ANS_TAB_SIZE
    ensures Reciprocal(freq) < TWO_TO_64
  {
  }

  // ---------------------------------------------------------------------
  // Division by a rounded-up reciprocal.

  lemma MulAtMost(a: int, b: int, c: int, d: int)
    requires 0 <= a <= b && 0 <= c <= d
    ensures 0 <= a * c <= b * d
  {
    assert a * c <= b * c by { assert (b - a) * c >= 0; }
    assert b * c <= b * d by { assert b * (d - c) >= 0; }
  }

  lemma Distribute(a: int, b: int, c: int)
    ensures a * (b + c) == a * b + a * c && (b + c) * a == b * a + c * a
  {
  }

  lemma Associate(a: int, b: int, c: int)
    ensures a * (b * c) == (a * b) * c == b * (a * c)
  {
  }

  // freq * m = RECIPROCAL + e with a small e, and x = q * freq + r.
  lemma ReciprocalRest(x: nat, freq: nat, m: nat, e: nat, q: nat, r: nat)
    requires freq * m == RECIPROCAL + e && x == q * freq + r && r < freq && x * e < RECIPROCAL
    ensures 0 <= x * m - q * RECIPROCAL < RECIPROCAL
  {
    var rest := x * m - q * RECIPROCAL;
    calc {
      freq * (x * m);
    == { Associate(freq, x, m); }
      x * (freq * m);
    == { Distribute(x, RECIPROCAL, e); }
      x * RECIPROCAL + x * e;
    == { Distribute(RECIPROCAL, q * freq, r); }
      q * freq * RECIPROCAL + r * RECIPROCAL + x * e;
    == { Associate(freq, q, RECIPROCAL); }
      freq * (q * RECIPROCAL) + r * RECIPROCAL + x * e;
    }
    assert freq * rest == r * RECIPROCAL + x * e by { Distribute(freq, x * m, -(q * RECIPROCAL)); }
    RestRange(freq, rest, r, x * e);
  }

  lemma RestRange(freq: nat, rest: int, r: nat, xe: nat)
    requires r < freq && xe < RECIPROCAL && freq * rest == r * RECIPROCAL + xe
    ensures 0 <= rest < RECIPROCAL
  {
    if rest < 0 {
      MulAtMost(1, freq, 1, -rest);
      Distribute(freq, rest, -rest);
    } else if rest >= RECIPROCAL {
      MulAtMost(freq, freq, RECIPROCAL, rest);
    }
  }

  lemma ReciprocalBounds(freq: nat)
    requires 0 < freq
    ensures RECIPROCAL <= freq * Reciprocal(freq) < RECIPROCAL + freq
  {
    var n := RECIPROCAL + freq - 1;
    assert n == freq * (n / freq) + n % freq;
  }

  lemma QuotientLess(x: nat, freq: nat, b: nat)
    requires 0 < freq && x < freq * b
    ensures x / freq < b
  {
    if x / freq >= b {
      MulAtMost(freq, freq, b, x / freq);
    }
  }

  lemma ReciprocalError(x: nat, freq: nat, m: nat)
    requires 0 < freq <= ANS_TAB_SIZE && x < freq * 0x10_0000
    requires RECIPROCAL <= freq * m < RECIPROCAL + freq
    ensures 0 <= x * m - x / freq * RECIPROCAL < RECIPROCAL
  {
    var e: nat := freq * m - RECIPROCAL;
    var q, r := Euclid(x, freq);
    assert x * e < RECIPROCAL by {
      MulAtMost(x, 0x1_0000_0000 - 1, e, ANS_TAB_SIZE - 1);
    }
    ReciprocalRest(x, freq, m, e, q, r);
  }

  lemma Euclid(x: nat, d: nat) returns (q: nat, r: nat)
    requires 0 < d
    ensures x == q * d + r && r < d && q == x / d && r == x % d
  {
    q, r := x / d, x % d;
  }

  // Multiplying by the rounded-up reciprocal and shifting divides exactly, and
  // the product fits into 64 bits.
  lemma ReciprocalDivides(x: nat, freq: nat)
    requires 0 < freq <= ANS_TAB_SIZE && x < freq * 0x10_0000
    ensures x * Reciprocal(freq) < TWO_TO_64
    ensures x * Reciprocal(freq) / RECIPROCAL == x / freq
  {
    hide Reciprocal;
    var product := x * Reciprocal(freq);
    var q := x / freq;
    assert 0 <= product - q * RECIPROCAL < RECIPROCAL by {
      ReciprocalBounds(freq);
      ReciprocalError(x, freq, Reciprocal(freq));
    }
    DivIs(product, q, RECIPROCAL, product - q * RECIPROCAL);
    assert q < 0x10_0000 by { QuotientLess(x, freq, 0x10_0000); }
  }

  // ---------------------------------------------------------------------
  // One symbol. Between symbols the state is in [2^16, 2^32).

  predicate ValidState(x: int) {
    0x1_0000 <= x < 0x1_0000_0000
  }

  // Whether the encoder moves 16 bits out of the state first.
  predicate Emits(x: nat, freq: nat) {
    x / 0x10_0000 >= freq
  }

  function Shrunk(x: nat, freq: nat): nat {
    if Emits(x, freq) then x / 0x1_0000 else x
  }

  predicate Usable(info: EncSymbolInfo) {
    && 0 < info.freq == |info.reverseMap| && info.freq <= ANS_TAB_SIZE && info.ifreq == Reciprocal(info.freq)
    && forall o: nat | o < info.freq :: info.reverseMap[o] < ANS_TAB_SIZE
  }

  // The state after coding a symbol.
  function Put(x: nat, info: EncSymbolInfo): nat
    requires 0 < info.freq == |info.reverseMap|
  {
    var y := Shrunk(x, info.freq);
    y / info.freq * ANS_TAB_SIZE + info.reverseMap[y % info.freq]
  }

  lemma ShrunkRange(x: nat, freq: nat)
    requires ValidState(x) && 0 < freq <= ANS_TAB_SIZE
    ensures freq * 16 <= Shrunk(x, freq) < freq * 0x10_0000
    ensures Emits(x, freq) <==> Shrunk(x, freq) < 0x1_0000
    ensures 16 <= Shrunk(x, freq) / freq < 0x10_0000
  {
    var y := Shrunk(x, freq);
    QuotientLess(y, freq, 0x10_0000);
    if y / freq < 16 {
      QuotientAtMost(y, freq);
    }
  }

  lemma QuotientAtMost(y: nat, freq: nat)
    requires 0 < freq && y / freq < 16
    ensures y < freq * 16
  {
    var q, r := Euclid(y, freq);
    MulAtMost(q, 15, freq, freq);
  }

  lemma PutRange(x: nat, info: EncSymbolInfo)
    requires ValidState(x) && Usable(info)
    ensures ValidState(Put(x, info))
    ensures Put(x, info) % ANS_TAB_SIZE == info.reverseMap[Shrunk(x, info.freq) % info.freq]
    ensures Put(x, info) / ANS_TAB_SIZE == Shrunk(x, info.freq) / info.freq
  {
    ShrunkRange(x, info.freq);
  }

  lemma DivideByReciprocal(y: nat, t: EncSymbolInfo)
    requires Usable(t) && y < t.freq * 0x10_0000
    ensures (y * t.ifreq) % TWO_TO_64 / RECIPROCAL == y / t.freq
    ensures y - y / t.freq * t.freq == y % t.freq
  {
    assert y * t.ifreq < TWO_TO_64 && y * t.ifreq / RECIPROCAL == y / t.freq by { ReciprocalDivides(y, t.freq); }
    assert (y * t.ifreq) % TWO_TO_64 == y * t.ifreq;
    assert y - y / t.freq * t.freq == y % t.freq by { var _, _ := Euclid(y, t.freq); }
  }

  class AnsCoder {
    var state: uint32

    constructor ()
      ensures state == SIGNATURE_STATE
    {
      state := SIGNATURE_STATE;
    }

    // Divides by the reciprocal, as built with USE_MULT_BY_RECIPROCAL.
    method PutSymbol(t: EncSymbolInfo) returns (bits: uint32, nbits: nat)
      requires ValidState(state) && Usable(t)
      modifies this
      ensures state == Put(old(state), t) && ValidState(state)
      ensures nbits == (if Emits(old(state), t.freq) then 16 else 0)
      ensures bits == (if Emits(old(state), t.freq) then old(state) % 0x1_0000 else 0)
    {
      ShrunkRange(state, t.freq);
      PutRange(state, t);
      bits, nbits := 0, 0;
      if state / 0x10_0000 >= t.freq {
        bits := state % 0x1_0000;
        state := state / 0x1_0000;
        nbits := 16;
      }
      DivideByReciprocal(state, t);
      var v := (state * t.ifreq) % TWO_TO_64 / RECIPROCAL;
      var offset := t.reverseMap[state - v * t.freq];
      state := v * ANS_TAB_SIZE + offset;
    }
  }

  // What reading one symbol does: the symbol, the next state, and whether 16
  // bits were consumed.
  function Get(t: seq<Entry>, logE: nat, x: nat, word: uint16): (nat, nat, bool)
    requires Shl(|t|, logE) == ANS_TAB_SIZE
  {
    InTable(t, logE, x % ANS_TAB_SIZE);
    var symbol := Lookup(t, x % ANS_TAB_SIZE, logE);
    var y := symbol.freq * (x / ANS_TAB_SIZE) + symbol.offset;
    if y < 0x1_0000 then (symbol.value, y * 0x1_0000 + word, true) else (symbol.value, y, false)
  }

  // Reading undoes coding: it finds the symbol, and the state and the bits from
  // before.
  lemma GetUndoesPut(d: seq<int>, logE: nat, t: seq<Entry>, s: nat, info: EncSymbolInfo, x: nat, word: uint16)
    requires IsCode(d, logE, t) && InfoFor(d, logE, t, s, info) && Freq(d, s) > 0
    requires ValidState(x) && Usable(info)
    requires Emits(x, info.freq) ==> word == x % 0x1_0000
    ensures Get(t, logE, Put(x, info), word) == (s, x, Emits(x, info.freq))
  {
    var y := Shrunk(x, info.freq);
    var z := Put(x, info);
    ShrunkRange(x, info.freq);
    PutRange(x, info);
    var q, r := Euclid(y, info.freq);
    var v := info.reverseMap[r];
    assert Decodes(t, logE, v, s, r);
    InTable(t, logE, v);
    assert IsSlot(d, Lookup(t, v, logE));
  }

  // Bits are moved out exactly if the next state would not fit 32 bits else.
  lemma EmitsWhenNeeded(x: nat, info: EncSymbolInfo)
    requires Usable(info)
    ensures Emits(x, info.freq)
       <==> x / info.freq * ANS_TAB_SIZE + info.reverseMap[x % info.freq] >= 0x1_0000_0000
  {
    var q, r := Euclid(x, info.freq);
    var q', r' := Euclid(x, 0x10_0000);
    if Emits(x, info.freq) {
      MulAtMost(info.freq, q', 0x10_0000, 0x10_0000);
      if q < 0x10_0000 {
        MulAtMost(q, 0x10_0000 - 1, info.freq, info.freq);
      }
    } else {
      QuotientLess(x, info.freq, 0x10_0000);
    }
  }

  // The offset in the slot that a state ends with.
  ghost function OffsetIn(t: seq<Entry>, logE: nat, x: nat): nat
    requires Shl(|t|, logE) == ANS_TAB_SIZE
  {
    InTable(t, logE, x % ANS_TAB_SIZE);
    Lookup(t, x % ANS_TAB_SIZE, logE).offset
  }

  // Among the states that end with a symbol's slots, coding finds them in order:
  // by what is above the slot, and then by the offset in it.
  lemma PutKeepsOrder(d: seq<int>, logE: nat, t: seq<Entry>, s: nat, info: EncSymbolInfo, x: nat, w: nat)
    requires IsCode(d, logE, t) && InfoFor(d, logE, t, s, info) && Usable(info)
    requires ValidState(x) && ValidState(w) && Shrunk(x, info.freq) < Shrunk(w, info.freq)
    ensures var a, b := Put(x, info), Put(w, info);
            || a / ANS_TAB_SIZE < b / ANS_TAB_SIZE
            || (a / ANS_TAB_SIZE == b / ANS_TAB_SIZE && OffsetIn(t, logE, a) < OffsetIn(t, logE, b))
  {
    hide IsCode, InfoFor, Usable, Put, Shrunk, OffsetIn;
    OffsetOfPut(d, logE, t, s, info, x);
    OffsetOfPut(d, logE, t, s, info, w);
    QuotientOrder(Shrunk(x, info.freq), Shrunk(w, info.freq), info.freq);
  }

  lemma OffsetOfPut(d: seq<int>, logE: nat, t: seq<Entry>, s: nat, info: EncSymbolInfo, x: nat)
    requires IsCode(d, logE, t) && InfoFor(d, logE, t, s, info) && Usable(info) && ValidState(x)
    ensures info.freq > 0 && info.freq == |info.reverseMap| && Shl(|t|, logE) == ANS_TAB_SIZE
    ensures Put(x, info) / ANS_TAB_SIZE == Shrunk(x, info.freq) / info.freq
    ensures OffsetIn(t, logE, Put(x, info)) == Shrunk(x, info.freq) % info.freq
  {
    hide IsAliasTable, Put, Shrunk, Lookup;
    PutRange(x, info);
    var q, r := Euclid(Shrunk(x, info.freq), info.freq);
    assert Decodes(t, logE, info.reverseMap[r], s, r);
  }

  lemma QuotientOrder(y: nat, z: nat, d: nat)
    requires y < z && d > 0
    ensures y / d < z / d || (y / d == z / d && y % d < z % d)
  {
    var q, r := Euclid(y, d);
    var q', r' := Euclid(z, d);
    if q' < q {
      MulAtMost(q' + 1, q, d, d);
    }
  }

  // A symbol of full weight leaves the state as it is.
  lemma FullWeightIsFree(d: seq<int>, logE: nat, t: seq<Entry>, s: nat, info: EncSymbolInfo, x: nat)
    requires IsCode(d, logE, t) && InfoFor(d, logE, t, s, info) && Usable(info)
    requires HasFullWeight(d, s) && IsTheTable(d, logE, t) && ValidState(x)
    ensures Put(x, info) == x && !Emits(x, info.freq)
  {
    hide IsAliasTable, Lookup;
    var o := x % ANS_TAB_SIZE;
    assert Decodes(t, logE, info.reverseMap[o], s, o);
    assert Lookup(t, info.reverseMap[o], logE) == Symbol(s, info.reverseMap[o], ANS_TAB_SIZE);
  }

  // ---------------------------------------------------------------------
  // One value: a symbol, and the extra bits of the hybrid integer.

  datatype Code = Code(d: seq<int>, logE: nat, table: seq<Entry>, info: seq<EncSymbolInfo>, uint: H.HybridUintConfig)

  ghost predicate ValidCode(c: Code) {
    && IsCode(c.d, c.logE, c.table) && |c.info| == |c.d| && c.uint.Ok()
    && forall s: nat | s < |c.d| :: InfoFor(c.d, c.logE, c.table, s, c.info[s])
  }

  // The token of the value has a positive frequency.
  ghost predicate HasToken(c: Code, value: uint32)
    requires c.uint.Ok()
  {
    0 < Freq(c.d, H.Encode(c.uint, value).token)
  }

  lemma TokenIsUsable(c: Code, value: uint32)
    requires ValidCode(c) && HasToken(c, value)
    ensures var s := H.Encode(c.uint, value).token;
            s < |c.info| && Usable(c.info[s]) && InfoFor(c.d, c.logE, c.table, s, c.info[s])
  {
  }

  function InfoOf(c: Code, value: uint32): EncSymbolInfo
    requires c.uint.Ok() && H.Encode(c.uint, value).token < |c.info|
  {
    c.info[H.Encode(c.uint, value).token]
  }

  // The next state, and the bits in reading order.
  ghost function WriteOne(c: Code, x: nat, value: uint32): (nat, BitString)
    requires ValidCode(c) && HasToken(c, value)
  {
    TokenIsUsable(c, value);
    var info, h := InfoOf(c, value), H.Encode(c.uint, value);
    (Put(x, info), (if Emits(x, info.freq) then BitsOf(x % 0x1_0000, 16) else []) + BitsOf(h.bits, h.nbits))
  }

  function Word(stream: BitString): uint16 {
    PeekBound(stream, 16);
    Pow2Known();
    Peek(stream, 16)
  }

  // The value, the next state, and what is left of the stream.
  function ReadOne(c: Code, x: nat, stream: BitString): (uint32, nat, BitString)
    requires Shl(|c.table|, c.logE) == ANS_TAB_SIZE && c.uint.Ok()
  {
    var (s, x', consumed) := Get(c.table, c.logE, x, Word(stream));
    var behind := if consumed then Advance(stream, 16) else stream;
    var nbits := H.ExtraBits(c.uint, s);
    (H.Decode(c.uint, s, Peek(behind, nbits)), x', Advance(behind, nbits))
  }

  // Token and next state are read before the extra bits: they depend on no more
  // than the next 16 bits.
  lemma StateComesFirst(c: Code, x: nat, a: BitString, b: BitString)
    requires Shl(|c.table|, c.logE) == ANS_TAB_SIZE && c.uint.Ok() && Word(a) == Word(b)
    ensures ReadOne(c, x, a).1 == ReadOne(c, x, b).1
  {
    hide Get, Word;
  }

  lemma ReadUndoesWrite(c: Code, x: nat, value: uint32, after: BitString)
    requires ValidCode(c) && HasToken(c, value) && ValidState(x)
    ensures ValidState(WriteOne(c, x, value).0)
    ensures ReadOne(c, WriteOne(c, x, value).0, WriteOne(c, x, value).1 + after) == (value, x, after)
  {
    hide H.Encode, H.Decode, H.ExtraBits, BitsOf, Peek, Get, Put, Pow2, Advance;
    var info, h := InfoOf(c, value), H.Encode(c.uint, value);
    TokenIsUsable(c, value);
    PutRange(x, info);
    H.RoundTrip(c.uint, value);
    var extra := BitsOf(h.bits, h.nbits) + after;
    FieldIsRead(h.bits, h.nbits, after);
    var (y, bits) := WriteOne(c, x, value);
    if Emits(x, info.freq) {
      assert bits + after == BitsOf(x % 0x1_0000, 16) + extra;
      Pow2Known();
      FieldIsRead(x % 0x1_0000, 16, extra);
    } else {
      assert bits + after == extra;
    }
    GetUndoesPut(c.d, c.logE, c.table, h.token, info, x, Word(bits + after));
  }

  class AnsSymbolReader {
    var state: uint32
    var stream: BitString

    // The state comes first.
    constructor (stream0: BitString)
      ensures state as nat == Peek(stream0, 32) && stream == Advance(stream0, 32)
    {
      PeekBound(stream0, 32);
      Pow2Of32();
      state, stream := Peek(stream0, 32), Advance(stream0, 32);
    }

    method ReadSymbol(ghost d: seq<int>, t: seq<Entry>, logE: nat) returns (value: nat)
      requires IsCode(d, logE, t)
      modifies this
      ensures var (v, x, consumed) := Get(t, logE, old(state), Word(old(stream)));
              value == v && state == x && stream == if consumed then Advance(old(stream), 16) else old(stream)
    {
      hide Peek, Advance;
      var res := state % ANS_TAB_SIZE;
      InTable(t, logE, res);
      var symbol := Lookup(t, res, logE);
      assert IsSlot(d, symbol);
      MulAtMost(symbol.freq, ANS_TAB_SIZE, state / ANS_TAB_SIZE, 0x10_0000 - 1);
      state := symbol.freq * (state / ANS_TAB_SIZE) + symbol.offset;
      var normalize := state < 0x1_0000;
      if normalize {
        state := state * 0x1_0000 + Word(stream);
        stream := Advance(stream, 16);
      }
      value := symbol.value;
    }

    method ReadHybridUintConfig(config: H.HybridUintConfig, token: nat) returns (value: uint32)
      requires config.Ok()
      modifies this`stream
      ensures value == H.Decode(config, token, Peek(old(stream), H.ExtraBits(config, token)))
      ensures stream == Advance(old(stream), H.ExtraBits(config, token))
    {
      if token < config.SplitToken() {
        value := token % 0x1_0000_0000;
        return;
      }
      var nbits := LowBits(config.splitExponent - config.InToken()
                           + Shr(token - config.SplitToken(), config.InToken()), 5);
      var low := LowBits(token, config.lsbInToken);
      var bits := Peek(stream, nbits);
      stream := Advance(stream, nbits);
      var top := H.Join(1, LowBits(Shr(token, config.lsbInToken), config.msbInToken), config.msbInToken);
      value := H.Join(H.Join(top, bits, nbits), low, config.lsbInToken) % 0x1_0000_0000;
    }

    // A hybrid integer.
    method ReadHybridUint(c: Code) returns (value: uint32)
      requires ValidCode(c)
      modifies this
      ensures (value, state as nat, stream) == ReadOne(c, old(state), old(stream))
    {
      hide Peek, Advance, H.Decode, H.ExtraBits, Get;
      var token := ReadSymbol(c.d, c.table, c.logE);
      value := ReadHybridUintConfig(c.uint, token);
    }

    predicate CheckFinalState()
      reads this
      ensures CheckFinalState() <==> state as int == 0x13_0000
    {
      state == SIGNATURE_STATE
    }
  }

  // ---------------------------------------------------------------------
  // Whole messages: values with the histograms they are coded by.

  datatype Token = Token(histo: nat, value: uint32)

  ghost predicate ValidCodes(codes: seq<Code>) {
    forall c :: c in codes ==> ValidCode(c)
  }

  // Values whose tokens the histogram gives a positive frequency.
  ghost predicate Codable(codes: seq<Code>, message: seq<Token>)
    requires ValidCodes(codes)
  {
    forall t :: t in message ==>
      t.histo < |codes| && (assert codes[t.histo] in codes; HasToken(codes[t.histo], t.value))
  }

  ghost predicate InRange(codes: seq<Code>, histos: seq<nat>) {
    forall h :: h in histos ==> h < |codes|
  }

  lemma CodableHead(codes: seq<Code>, message: seq<Token>)
    requires ValidCodes(codes) && Codable(codes, message) && message != []
    ensures message[0].histo < |codes| && ValidCode(codes[message[0].histo])
    ensures HasToken(codes[message[0].histo], message[0].value)
    ensures Codable(codes, message[1..])
  {
    hide ValidCode, HasToken;
    assert message[0] in message && codes[message[0].histo] in codes;
  }

  // The final state of the coder and the bits, for a message coded from its
  // last value to its first.
  ghost function Encoded(codes: seq<Code>, message: seq<Token>): (r: (nat, BitString))
    requires ValidCodes(codes) && Codable(codes, message)
    ensures ValidState(r.0)
  {
    if message == [] then (SIGNATURE_STATE, []) else
      CodableHead(codes, message);
      var (x, stream) := Encoded(codes, message[1..]);
      ReadUndoesWrite(codes[message[0].histo], x, message[0].value, []);
      var (y, bits) := WriteOne(codes[message[0].histo], x, message[0].value);
      (y, bits + stream)
  }

  // What the reader returns for a list of histograms: values, final state, and
  // what is left of the stream.
  ghost function Decoded(codes: seq<Code>, histos: seq<nat>, x: nat, stream: BitString)
    : (seq<uint32>, nat, BitString)
    requires ValidCodes(codes) && InRange(codes, histos)
  {
    if histos == [] then ([], x, stream) else
      assert histos[0] in histos && codes[histos[0]] in codes;
      assert forall h :: h in histos[1..] ==> h in histos;
      var (v, x', rest) := ReadOne(codes[histos[0]], x, stream);
      var (vs, x'', rest') := Decoded(codes, histos[1..], x', rest);
      ([v] + vs, x'', rest')
  }

  function Histos(message: seq<Token>): (r: seq<nat>)
    ensures |r| == |message|
  {
    if message == [] then [] else [message[0].histo] + Histos(message[1..])
  }

  function Values(message: seq<Token>): seq<uint32> {
    if message == [] then [] else [message[0].value] + Values(message[1..])
  }

  lemma {:induction false} TokensInOrder(message: seq<Token>, i: nat)
    requires i < |message|
    ensures |Values(message)| == |message| && Values(message)[i] == message[i].value
    ensures Histos(message)[i] == message[i].histo
  {
    if |message| > 1 {
      TokensInOrder(message[1..], if i == 0 then 0 else i - 1);
    }
  }

  lemma {:induction false} HistosInRange(codes: seq<Code>, message: seq<Token>)
    requires ValidCodes(codes) && Codable(codes, message)
    ensures InRange(codes, Histos(message))
  {
    hide ValidCodes, Codable;
    if message != [] {
      CodableHead(codes, message);
      HistosInRange(codes, message[1..]);
    }
  }

  // For every message of codable values, whatever histograms it switches
  // between, the reader returns the message, ends in the signature state that
  // CheckANSFinalState wants, and leaves exactly what follows the message.
  lemma {:induction false} RoundTrip(codes: seq<Code>, message: seq<Token>, after: BitString)
    requires ValidCodes(codes) && Codable(codes, message)
    ensures InRange(codes, Histos(message))
    ensures var (x, stream) := Encoded(codes, message);
            Decoded(codes, Histos(message), x, stream + after) == (Values(message), SIGNATURE_STATE, after)
  {
    hide ValidCodes, Codable, ReadOne, WriteOne, ValidCode, HasToken;
    HistosInRange(codes, message);
    if message == [] {
      assert [] + after == after;
    } else {
      CodableHead(codes, message);
      RoundTrip(codes, message[1..], after);
      var c, value := codes[message[0].histo], message[0].value;
      var (x, stream) := Encoded(codes, message[1..]);
      ReadUndoesWrite(c, x, value, stream + after);
      var bits := WriteOne(c, x, value).1;
      assert bits + stream + after == bits + (stream + after);
      assert Histos(message)[1..] == Histos(message[1..]);
    }
  }

  // Codes the tokens from the last to the first; the bits are collected in
  // reverse, and written behind the final state.
  method WriteTokens(codes: seq<Code>, message: seq<Token>, writer: BitWriter) returns (numExtraBits: nat)
    requires ValidCodes(codes) && Codable(codes, message)
    modifies writer
    ensures InRange(codes, Histos(message))
    ensures writer.written == old(writer.written) + BitsOf(Encoded(codes, message).0, 32) + Encoded(codes, message).1
    ensures numExtraBits == ExtraTotal(codes, message)
  {
    hide ValidCode, HasToken, WriteOne, BitsOf;
    var fields := new ReversedBits();
    var ans := new AnsCoder();
    var i := |message|;
    numExtraBits := 0;
    while i > 0
      invariant 0 <= i <= |message| && fresh(fields) && fresh(ans) && fields.Valid()
      invariant Codable(codes, message[i..])
      invariant (ans.state as nat, fields.Contents()) == Encoded(codes, message[i..])
      invariant numExtraBits == ExtraTotal(codes, message[i..])
      invariant writer.written == old(writer.written)
    {
      i := i - 1;
      assert message[i..][1..] == message[i + 1..] && message[i] in message;
      CodableHead(codes, message[i..]);
      var nbits := WriteValue(codes[message[i].histo], message[i].value, ans, fields);
      numExtraBits := numExtraBits + nbits;
    }
    assert message[0..] == message;
    HistosInRange(codes, message);
    Pow2Of32();
    writer.Write(32, ans.state);
    fields.Flush(writer);
  }

  // The number of extra bits.
  ghost function ExtraTotal(codes: seq<Code>, message: seq<Token>): nat
    requires ValidCodes(codes) && Codable(codes, message)
  {
    if message == [] then 0 else
      CodableHead(codes, message);
      H.Encode(codes[message[0].histo].uint, message[0].value).nbits + ExtraTotal(codes, message[1..])
  }

  // One turn of the loop: extra bits first, as this is in reverse.
  method WriteValue(c: Code, value: uint32, ans: AnsCoder, fields: ReversedBits) returns (nbits: nat)
    requires ValidCode(c) && HasToken(c, value) && ValidState(ans.state) && fields.Valid()
    modifies ans, fields
    ensures fields.Valid() && ValidState(ans.state) && nbits == H.Encode(c.uint, value).nbits
    ensures ans.state as nat == WriteOne(c, old(ans.state), value).0
    ensures fields.Contents() == WriteOne(c, old(ans.state), value).1 + old(fields.Contents())
  {
    hide BitsOf, H.Encode, H.Decode, H.ExtraBits, Pow2, ValidCode, Put, Usable, InfoFor;
    ConfigIsOk(c);
    TokenIsUsable(c, value);
    H.RoundTrip(c.uint, value);
    Pow2Known();
    ghost var before := fields.Contents();
    var h := H.Encode(c.uint, value);
    nbits := h.nbits;
    fields.AddBits(h.bits, h.nbits);
    var ansBits, ansNbits := ans.PutSymbol(c.info[h.token]);
    NoBits(ansBits);
    fields.AddBits(ansBits, ansNbits);
    ghost var wanted := (if ansNbits != 0 then BitsOf(ansBits, 16) else []) + BitsOf(h.bits, h.nbits);
    assert BitsOf(ansBits, ansNbits) + (BitsOf(h.bits, h.nbits) + before) == wanted + before;
  }

  lemma ConfigIsOk(c: Code)
    requires ValidCode(c)
    ensures c.uint.Ok()
  {
  }

  // ---------------------------------------------------------------------
  // The writer asks for 46 bits for each token and some more in advance. A
  // symbol makes the state at most 8192 times as large, and each field of 16
  // bits makes it 65536 times smaller, so the fields stay well below that.

  // The bits that the coder emits, without the extra bits.
  ghost function CoderBits(codes: seq<Code>, message: seq<Token>): int
    requires ValidCodes(codes) && Codable(codes, message)
  {
    |Encoded(codes, message).1| - ExtraTotal(codes, message)
  }

  lemma ShlMonotonic(a: nat, b: nat, k: nat)
    requires a <= b
    ensures Shl(a, k) <= Shl(b, k)
  {
    if a < b {
      ShlLess(a, b, k);
    }
  }

  lemma PutGrows(x: nat, info: EncSymbolInfo)
    requires ValidState(x) && Usable(info)
    ensures Put(x, info) <= 8192 * Shrunk(x, info.freq)
    ensures Emits(x, info.freq) ==> Shrunk(x, info.freq) * 0x1_0000 <= x
  {
    PutRange(x, info);
    ShrunkRange(x, info.freq);
    QuotientBelow(Shrunk(x, info.freq), info.freq);
  }

  lemma QuotientBelow(y: nat, freq: nat)
    requires freq > 0
    ensures y / freq <= y
  {
    var q, r := Euclid(y, freq);
    MulAtMost(q, q, 1, freq);
  }

  lemma TimesPowers(x: nat, y: nat)
    ensures Shl(x, 13) == 8192 * x && Shl(y, 16) == y * 0x1_0000
  {
    ShlIsProduct(x, 13);
    ShlIsProduct(y, 16);
    assert Pow2(13) == 8192 by { assert Pow2(9) == 512; }
    Pow2Known();
    hide Shl;
  }

  // One symbol, in a form without products.
  lemma GrowthStep(x: nat, y: nat, e: nat, e': nat, bound: nat, k: nat)
    requires Shl(x, e) <= Shl(bound, k)
    requires (e' == e && y <= 8192 * x) || (e' == e + 16 && y * 0x1_0000 <= 8192 * x)
    ensures Shl(y, e') <= Shl(bound, k + 13)
  {
    hide Shl, Pow2;
    TimesPowers(x, y);
    ShlAdd(x, 13, e);
    ShlAdd(x, e, 13);
    ShlMonotonic(Shl(x, e), Shl(bound, k), 13);
    ShlAdd(bound, k, 13);
    if e' == e {
      ShlMonotonic(y, Shl(x, 13), e);
    } else {
      ShlMonotonic(Shl(y, 16), Shl(x, 13), e);
      ShlAdd(y, 16, e);
    }
  }

  lemma {:induction false} StateBound(codes: seq<Code>, message: seq<Token>)
    requires ValidCodes(codes) && Codable(codes, message)
    ensures CoderBits(codes, message) >= 0
    ensures Shl(Encoded(codes, message).0, CoderBits(codes, message)) <= Shl(SIGNATURE_STATE, 13 * |message|)
    ensures ExtraTotal(codes, message) <= 31 * |message|
  {
    hide ValidCodes, Codable, ValidCode, HasToken, Put, Shl, BitsOf, H.Encode;
    if message != [] {
      CodableHead(codes, message);
      StateBound(codes, message[1..]);
      var c, value := codes[message[0].histo], message[0].value;
      var (x, stream) := Encoded(codes, message[1..]);
      ConfigIsOk(c);
      TokenIsUsable(c, value);
      H.RoundTrip(c.uint, value);
      PutGrows(x, InfoOf(c, value));
      var e := CoderBits(codes, message[1..]);
      GrowthStep(x, WriteOne(c, x, value).0, e, CoderBits(codes, message), SIGNATURE_STATE, 13 * |message[1..]|);
    }
  }

  // All that WriteTokens writes fits what it has asked for.
  lemma FitsAllotment(codes: seq<Code>, message: seq<Token>)
    requires ValidCodes(codes) && Codable(codes, message)
    ensures 32 + |Encoded(codes, message).1| <= 44 * |message| + 37
    ensures 32 + |Encoded(codes, message).1| <= 46 * |message| + 32 * 1024 * 4
  {
    hide Codable, Encoded, ExtraTotal;
    StateBound(codes, message);
    var x, e, k := Encoded(codes, message).0, CoderBits(codes, message), 13 * |message|;
    Pow2Known();
    ShlOne(16);
    ShlMonotonic(Shl(1, 16), x, e);
    ShlAdd(1, 16, e);
    ShlOne(21);
    assert Pow2(21) == 0x20_0000 by { assert Pow2(20) == 0x10_0000; }
    ShlMonotonic(SIGNATURE_STATE, Shl(1, 21), k);
    ShlAdd(1, 21, k);
    ShlOne(16 + e);
    ShlOne(21 + k);
    Pow2Strict(21 + k, 16 + e);
  }

  // Every value's token is the one symbol of its histogram.
  ghost predicate Free(codes: seq<Code>, message: seq<Token>)
    requires ValidCodes(codes) && Codable(codes, message)
  {
    message == [] || (
      CodableHead(codes, message);
      var c := codes[message[0].histo];
      && HasFullWeight(c.d, H.Encode(c.uint, message[0].value).token) && IsTheTable(c.d, c.logE, c.table)
      && Free(codes, message[1..]))
  }

  ghost function ExtraOnly(codes: seq<Code>, message: seq<Token>): BitString
    requires ValidCodes(codes) && Codable(codes, message)
  {
    if message == [] then [] else
      CodableHead(codes, message);
      var h := H.Encode(codes[message[0].histo].uint, message[0].value);
      BitsOf(h.bits, h.nbits) + ExtraOnly(codes, message[1..])
  }

  // A message of such values costs its extra bits, behind the signature.
  lemma {:induction false} FreeMessage(codes: seq<Code>, message: seq<Token>)
    requires ValidCodes(codes) && Codable(codes, message) && Free(codes, message)
    ensures Encoded(codes, message) == (0x13_0000, ExtraOnly(codes, message))
  {
    hide ValidCodes, Codable, Put, BitsOf, H.Encode, IsAliasTable, IsTheTable, Emits;
    if message != [] {
      CodableHead(codes, message);
      FreeMessage(codes, message[1..]);
      var c, value := codes[message[0].histo], message[0].value;
      TokenIsUsable(c, value);
      FullWeightIsFree(c.d, c.logE, c.table, H.Encode(c.uint, value).token, InfoOf(c, value), SIGNATURE_STATE);
      assert [] + BitsOf(H.Encode(c.uint, value).bits, H.Encode(c.uint, value).nbits)
          == BitsOf(H.Encode(c.uint, value).bits, H.Encode(c.uint, value).nbits);
    }
  }

  ghost function Joined(values: seq<uint32>, r: (seq<uint32>, nat, BitString)): (seq<uint32>, nat, BitString) {
    (values + r.0, r.1, r.2)
  }

  lemma JoinedStep(codes: seq<Code>, histos: seq<nat>, x: nat, stream: BitString, values: seq<uint32>)
    requires ValidCodes(codes) && InRange(codes, histos) && histos != []
    ensures InRange(codes, histos[1..]) && histos[0] < |codes| && ValidCode(codes[histos[0]])
    ensures var (v, x', rest) := ReadOne(codes[histos[0]], x, stream);
            Joined(values, Decoded(codes, histos, x, stream))
              == Joined(values + [v], Decoded(codes, histos[1..], x', rest))
  {
    hide ReadOne, InfoFor, IsAliasTable;
    assert histos[0] in histos && codes[histos[0]] in codes;
    assert forall h :: h in histos[1..] ==> h in histos;
    var (v, x', rest) := ReadOne(codes[histos[0]], x, stream);
    var r := Decoded(codes, histos[1..], x', rest);
    assert Decoded(codes, histos, x, stream) == ([v] + r.0, r.1, r.2);
    hide Decoded;
    assert values + ([v] + r.0) == values + [v] + r.0;
  }

  // Reads one value for each histogram.
  method ReadTokens(codes: seq<Code>, histos: seq<nat>, reader: AnsSymbolReader) returns (values: seq<uint32>)
    requires ValidCodes(codes) && InRange(codes, histos)
    modifies reader
    ensures (values, reader.state as nat, reader.stream)
         == Decoded(codes, histos, old(reader.state), old(reader.stream))
  {
    values := [];
    assert histos[0..] == histos;
    ghost var whole := Decoded(codes, histos, reader.state, reader.stream);
    assert [] + whole.0 == whole.0;
    hide InRange, ReadOne, ValidCode, ValidCodes;
    for i := 0 to |histos|
      invariant InRange(codes, histos[i..])
      invariant whole == Joined(values, Decoded(codes, histos[i..], reader.state, reader.stream))
    {
      JoinedStep(codes, histos[i..], reader.state, reader.stream, values);
      assert histos[i..][0] == histos[i] && histos[i..][1..] == histos[i + 1..];
      var v := reader.ReadHybridUint(codes[histos[i]]);
      values := values + [v];
    }
    assert values + [] == values;
  }

  // A stream that begins with what was written.
  lemma StreamIsRead(codes: seq<Code>, message: seq<Token>, stream: BitString, after: BitString)
    requires ValidCodes(codes) && Codable(codes, message)
    requires stream == BitsOf(Encoded(codes, message).0, 32) + Encoded(codes, message).1 + after
    ensures InRange(codes, Histos(message))
    ensures Decoded(codes, Histos(message), Peek(stream, 32), Advance(stream, 32))
         == (Values(message), SIGNATURE_STATE, after)
  {
    hide ValidCodes, Codable, BitsOf, Peek, Advance;
    var (x, bits) := Encoded(codes, message);
    Pow2Of32();
    assert stream == BitsOf(x, 32) + (bits + after);
    FieldIsRead(x, 32, bits + after);
    RoundTrip(codes, message, after);
  }

  // What WriteTokens wrote, a reader of the same codes reads: it finds the
  // values, passes its final check, and stops right before what follows.
  method WriteAndRead(codes: seq<Code>, message: seq<Token>, after: BitString)
    returns (values: seq<uint32>, passed: bool, rest: BitString)
    requires ValidCodes(codes) && Codable(codes, message)
    ensures values == Values(message) && passed && rest == after
  {
    hide ValidCodes, Codable, BitsOf, Peek, Advance, Values, Histos, InRange, ExtraTotal, Encoded, Decoded;
    var writer := new BitWriter();
    var extra := WriteTokens(codes, message, writer);
    var stream := writer.written + after;
    StreamIsRead(codes, message, stream, after);
    var reader := new AnsSymbolReader(stream);
    values := ReadTokens(codes, Histos(message), reader);
    passed := reader.CheckFinalState();
    rest := reader.stream;
  }

  lemma AliasTableOfCounts(counts: seq<int>, logE: nat, t: seq<Entry>)
    requires IsAliasTable(Effective(counts, ANS_TAB_SIZE), logE, t)
    requires Trim(counts) != []
    ensures IsAliasTable(counts, logE, t)
  {
    var d := Effective(counts, ANS_TAB_SIZE);
    TrimIsPrefix(counts);
    assert forall s: nat :: Freq(d, s) == Freq(counts, s);
    forall v: nat | Shr(v, logE) < |t|
      ensures IsSlot(counts, Lookup(t, v, logE))
    {
      assert IsSlot(d, Lookup(t, v, logE));
    }
  }

  // The encoder's and decoder's shared tables for a histogram. A histogram
  // whose counts sum to the table size, or an empty one, always gets a code.
  method BuildCode(counts: seq<int>, logAlphaSize: nat, uint: H.HybridUintConfig) returns (ok: bool, code: Code)
    requires 4 <= logAlphaSize <= 8 && Weights(counts) && uint.Ok()
    requires counts == [] || Sum(counts) == ANS_TAB_SIZE
    ensures ok == (|Trim(counts)| <= Pow2(logAlphaSize))
    ensures ok ==> ValidCodes([code]) && code.uint == uint && code.d == if counts == [] then [ANS_TAB_SIZE] else counts
    ensures ok ==> code.logE + logAlphaSize == ANS_LOG_TAB_SIZE && |code.table| == Pow2(logAlphaSize)
    ensures ok ==> IsTheTable(Effective(counts, ANS_TAB_SIZE), code.logE, code.table)
  {
    hide IsAliasTable, IsTheTable, InfoFor;
    Pow2Known();
    TrimIsPrefix(counts);
    var a := new Entry[Pow2(logAlphaSize)](_ => Entry(0, 0, 0, 0, 0));
    var logE := ANS_LOG_TAB_SIZE - logAlphaSize;
    RangeIs(ANS_LOG_TAB_SIZE, logAlphaSize);
    Pow2Monotonic(logAlphaSize, ANS_LOG_TAB_SIZE);
    ok := InitAliasTable(counts, ANS_LOG_TAB_SIZE, logAlphaSize, a);
    var d := if counts == [] then [ANS_TAB_SIZE] else counts;
    code := Code(d, logE, a[..], [], uint);
    if ok {
      if counts != [] {
        AliasTableOfCounts(counts, logE, a[..]);
      }
      var info := BuildInfoTable(d, logE, a[..]);
      code := code.(info := info);
    }
  }
}
