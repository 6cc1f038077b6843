// Hybrid integers, libjxl/lib/jxl/dec_ans.h: a value is a token, which an
// entropy code carries, and a few extra bits.
module HybridUint {
  import opened Bits

  // Values below 1 << splitExponent are tokens of their own.
  datatype HybridUintConfig = HybridUintConfig(splitExponent: nat, msbInToken: nat, lsbInToken: nat) {
    predicate Ok() { msbInToken + lsbInToken <= splitExponent }
    function SplitToken(): nat { Pow2(splitExponent) }
    function InToken(): nat { msbInToken + lsbInToken }
  }

  datatype Hybrid = Hybrid(token: nat, nbits: nat, bits: nat)

  function FloorLog2(n: nat): (l: nat)
    requires n > 0
    ensures Pow2(l) <= n < Pow2(l + 1)
  {
    if n == 1 then 0 else 1 + FloorLog2(n / 2)
  }

  // HybridUintConfig::Encode.
  function Encode(c: HybridUintConfig, value: nat): Hybrid
    requires c.Ok()
  {
    if value < c.SplitToken() then Hybrid(value, 0, 0)
    else
      var n := FloorLog2(value);
      LogAtLeast(value, c.splitExponent);
      var m: nat := value - Pow2(n);
      var token := c.SplitToken() + Shl(n - c.splitExponent, c.InToken())
                   + Shl(Shr(m, n - c.msbInToken), c.lsbInToken) + LowBits(m, c.lsbInToken);
      var nbits := n - c.msbInToken - c.lsbInToken;
      Hybrid(token, nbits, LowBits(Shr(value, c.lsbInToken), nbits))
  }

  // The extra bits that the reader takes, as ReadHybridUintConfig counts them.
  function ExtraBits(c: HybridUintConfig, token: nat): nat
    requires c.Ok()
  {
    if token < c.SplitToken() then 0
    else LowBits(c.splitExponent - c.InToken() + Shr(token - c.SplitToken(), c.InToken()), 5)
  }

  // high << k | low.
  function Join(high: nat, low: nat, k: nat): nat { Or(low, Shl(high, k)) }

  function Decode(c: HybridUintConfig, token: nat, bits: nat): uint32
    requires c.Ok()
  {
    if token < c.SplitToken() then token % 0x1_0000_0000
    else
      var nbits, low := ExtraBits(c, token), LowBits(token, c.lsbInToken);
      var top := Join(1, LowBits(Shr(token, c.lsbInToken), c.msbInToken), c.msbInToken);
      Join(Join(top, bits, nbits), low, c.lsbInToken) % 0x1_0000_0000
  }

  // ---------------------------------------------------------------------
  // Numbers cut into bit fields.

  lemma LogAtLeast(value: nat, e: nat)
    requires value >= Pow2(e)
    ensures FloorLog2(value) >= e
  {
    Pow2Strict(e, FloorLog2(value) + 1);
  }

  lemma LogIs(value: nat, n: nat)
    requires Pow2(n) <= value < Pow2(n + 1)
    ensures FloorLog2(value) == n
  {
    Pow2Strict(n, FloorLog2(value) + 1);
    Pow2Strict(FloorLog2(value), n + 1);
  }

  lemma {:induction false} ShlSum(a: nat, b: nat, k: nat)
    ensures Shl(a + b, k) == Shl(a, k) + Shl(b, k)
  {
    if k > 0 {
      ShlSum(a, b, k - 1);
    }
  }

  // Two fields, of a and b bits, on top of each other.
  lemma TwoFields(high: nat, low: nat, a: nat, b: nat)
    requires high < Pow2(a) && low < Pow2(b)
    ensures Shl(high, b) + low < Pow2(a + b)
  {
    ShlLess(high, Pow2(a), b);
    RangeIs(a + b, a);
  }

  lemma TopField(x: nat, a: nat, b: nat)
    requires x < Pow2(a + b)
    ensures Shr(x, b) < Pow2(a)
  {
    ShiftMask(x, b);
    RangeIs(a + b, a);
    if Shr(x, b) > Pow2(a) {
      ShlLess(Pow2(a), Shr(x, b), b);
    }
  }

  lemma JoinIsSum(high: nat, low: nat, k: nat)
    requires low < Pow2(k)
    ensures Join(high, low, k) == Shl(high, k) + low
  {
    OrDisjoint(low, high, k);
  }

  // ---------------------------------------------------------------------
  // The parts of a value of n + 1 bits: after the leading one, msb bits for the
  // token, the extra bits, and lsb bits for the token.

  datatype Parts = Parts(n: nat, top: nat, bits: nat, low: nat)

  ghost predicate Fit(c: HybridUintConfig, p: Parts) {
    && c.Ok() && p.n >= c.splitExponent && p.top < Pow2(c.msbInToken) && p.low < Pow2(c.lsbInToken)
    && p.bits < Pow2(p.n - c.InToken())
  }

  ghost function ValueOf(c: HybridUintConfig, p: Parts): nat
    requires Fit(c, p)
  {
    Shl(Shl(Pow2(c.msbInToken) + p.top, p.n - c.InToken()) + p.bits, c.lsbInToken) + p.low
  }

  ghost function TokenOf(c: HybridUintConfig, p: Parts): nat
    requires Fit(c, p)
  {
    c.SplitToken() + Shl(p.n - c.splitExponent, c.InToken()) + (Shl(p.top, c.lsbInToken) + p.low)
  }

  lemma MantissaIs(c: HybridUintConfig, p: Parts)
    requires Fit(c, p)
    ensures var m := Shl(Shl(p.top, p.n - c.InToken()) + p.bits, c.lsbInToken) + p.low;
            && m < Pow2(p.n) && ValueOf(c, p) == Pow2(p.n) + m
            && Shr(m, p.n - c.msbInToken) == p.top && LowBits(m, c.lsbInToken) == p.low
  {
    hide Shl, Shr, LowBits, Pow2;
    var nb, msb, lsb := p.n - c.InToken(), c.msbInToken, c.lsbInToken;
    var inner := Shl(p.top, nb) + p.bits;
    var m := Shl(inner, lsb) + p.low;
    TwoFields(p.top, p.bits, msb, nb);
    TwoFields(inner, p.low, msb + nb, lsb);
    assert msb + nb + lsb == p.n;
    // The leading one.
    ShlSum(Pow2(msb), p.top, nb);
    RangeIs(msb + nb, msb);
    ShlSum(Pow2(msb + nb), inner, lsb);
    RangeIs(p.n, msb + nb);
    // The two fields of the token.
    ShiftMaskUnique(inner, p.low, lsb);
    ShlSum(Shl(p.top, nb), p.bits, lsb);
    ShlAdd(p.top, nb, lsb);
    TwoFields(p.bits, p.low, nb, lsb);
    assert nb + lsb == p.n - msb;
    ShiftMaskUnique(p.top, Shl(p.bits, lsb) + p.low, nb + lsb);
  }

  lemma EncodesParts(c: HybridUintConfig, p: Parts)
    requires Fit(c, p)
    ensures ValueOf(c, p) >= c.SplitToken()
    ensures Encode(c, ValueOf(c, p)) == Hybrid(TokenOf(c, p), p.n - c.InToken(), p.bits)
  {
    hide Shl, Shr, LowBits, Pow2, FloorLog2;
    var value, nb := ValueOf(c, p), p.n - c.InToken();
    MantissaIs(c, p);
    NextPow2(p.n);
    LogIs(value, p.n);
    Pow2Monotonic(c.splitExponent, p.n);
    var upper := Shl(Pow2(c.msbInToken) + p.top, nb) + p.bits;
    ShiftMaskUnique(upper, p.low, c.lsbInToken);
    ShiftMaskUnique(Pow2(c.msbInToken) + p.top, p.bits, nb);
  }

  lemma NextPow2(n: nat)
    ensures Pow2(n + 1) == 2 * Pow2(n)
  {
  }

  lemma TokenParts(c: HybridUintConfig, p: Parts)
    requires Fit(c, p)
    ensures var t := TokenOf(c, p);
            && t >= c.SplitToken() && Shr(t - c.SplitToken(), c.InToken()) == p.n - c.splitExponent
            && LowBits(t, c.lsbInToken) == p.low && LowBits(Shr(t, c.lsbInToken), c.msbInToken) == p.top
  {
    hide Shl, Shr, LowBits, Pow2;
    var msb, lsb, k := c.msbInToken, c.lsbInToken, c.InToken();
    var e: nat := p.n - c.splitExponent;
    TwoFields(p.top, p.low, msb, lsb);
    ShiftMaskUnique(e, Shl(p.top, lsb) + p.low, k);
    // The token ends with both fields.
    var y := Pow2(c.splitExponent - k) + e;
    RangeIs(c.splitExponent, c.splitExponent - k);
    ShlSum(Pow2(c.splitExponent - k), e, k);
    ShlAdd(y, msb, lsb);
    ShlSum(Shl(y, msb), p.top, lsb);
    ShiftMaskUnique(Shl(y, msb) + p.top, p.low, lsb);
    ShiftMaskUnique(y, p.top, msb);
  }

  lemma LowFive(x: nat)
    requires x < 32
    ensures LowBits(x, 5) == x
  {
    ShiftMaskUnique(0, x, 5);
    assert Pow2(3) == 8 && Shl(0, 3) == 0;
  }

  lemma TakesBits(c: HybridUintConfig, p: Parts)
    requires Fit(c, p) && p.n < 32
    ensures ExtraBits(c, TokenOf(c, p)) == p.n - c.InToken()
  {
    hide Shl, Shr, LowBits, Pow2, TokenOf;
    TokenParts(c, p);
    LowFive(p.n - c.InToken());
  }

  lemma JoinedParts(c: HybridUintConfig, p: Parts)
    requires Fit(c, p)
    ensures Join(Join(Join(1, p.top, c.msbInToken), p.bits, p.n - c.InToken()), p.low, c.lsbInToken) == ValueOf(c, p)
  {
    hide Join;
    ThreeJoined(p.top, p.bits, p.low, c.msbInToken, p.n - c.InToken(), c.lsbInToken);
  }

  lemma ThreeJoined(top: nat, bits: nat, low: nat, msb: nat, nb: nat, lsb: nat)
    requires top < Pow2(msb) && bits < Pow2(nb) && low < Pow2(lsb)
    ensures Join(Join(Join(1, top, msb), bits, nb), low, lsb) == Shl(Shl(Pow2(msb) + top, nb) + bits, lsb) + low
  {
    JoinIsSum(1, top, msb);
    ShlOne(msb);
    hide Shl, Pow2, Join;
    var upper := Pow2(msb) + top;
    assert Join(1, top, msb) == upper;
    JoinIsSum(upper, bits, nb);
    JoinIsSum(Shl(upper, nb) + bits, low, lsb);
  }

  lemma ValueFits(c: HybridUintConfig, p: Parts)
    requires Fit(c, p) && p.n < 32
    ensures ValueOf(c, p) < 0x1_0000_0000
  {
    hide Shl, Shr, LowBits, Pow2;
    MantissaIs(c, p);
    Pow2Monotonic(p.n + 1, 32);
    NextPow2(p.n);
    Pow2Of32();
  }

  lemma DecodesParts(c: HybridUintConfig, p: Parts)
    requires Fit(c, p) && p.n < 32
    ensures ExtraBits(c, TokenOf(c, p)) == p.n - c.InToken()
    ensures Decode(c, TokenOf(c, p), p.bits) == ValueOf(c, p) < 0x1_0000_0000
  {
    hide Fit, Shl, Shr, LowBits, Pow2, Join, TokenOf, ValueOf, ExtraBits;
    TokenParts(c, p);
    TakesBits(c, p);
    JoinedParts(c, p);
    ValueFits(c, p);
  }

  // ---------------------------------------------------------------------
  // Both directions.

  // The parts of a value.
  lemma PartsOfValue(c: HybridUintConfig, value: nat) returns (p: Parts)
    requires c.Ok() && value >= c.SplitToken()
    ensures Fit(c, p) && ValueOf(c, p) == value && p.n == FloorLog2(value)
  {
    hide Shl, Shr, LowBits, Pow2;
    var n, msb, lsb := FloorLog2(value), c.msbInToken, c.lsbInToken;
    LogAtLeast(value, c.splitExponent);
    NextPow2(n);
    var m, nb: nat := value - Pow2(n), n - msb - lsb;
    var inner := Shr(m, lsb);
    ShiftMask(m, lsb);
    ShiftMask(inner, nb);
    assert n == msb + nb + lsb;
    TopField(m, msb + nb, lsb);
    TopField(inner, msb, nb);
    p := Parts(n, Shr(inner, nb), LowBits(inner, nb), LowBits(m, lsb));
    MantissaIs(c, p);
  }

  // The parts of a token with its extra bits.
  lemma PartsOfToken(c: HybridUintConfig, token: nat, bits: nat) returns (p: Parts)
    requires c.Ok() && token >= c.SplitToken()
    requires bits < Pow2(c.splitExponent - c.InToken() + Shr(token - c.SplitToken(), c.InToken()))
    ensures Fit(c, p) && TokenOf(c, p) == token && p.bits == bits
    ensures p.n == c.splitExponent + Shr(token - c.SplitToken(), c.InToken())
  {
    hide Shl, Shr, LowBits, Pow2;
    var rest: nat := token - c.SplitToken();
    var f := LowBits(rest, c.InToken());
    ShiftMask(rest, c.InToken());
    ShiftMask(f, c.lsbInToken);
    TopField(f, c.msbInToken, c.lsbInToken);
    p := Parts(c.splitExponent + Shr(rest, c.InToken()), Shr(f, c.lsbInToken), bits, LowBits(f, c.lsbInToken));
  }

  // Every 32-bit value comes back from its token and extra bits, and the reader
  // takes as many bits as were written.
  lemma RoundTrip(c: HybridUintConfig, value: uint32)
    requires c.Ok()
    ensures var h := Encode(c, value);
            h.bits < Pow2(h.nbits) && h.nbits < 32 && ExtraBits(c, h.token) == h.nbits
            && Decode(c, h.token, h.bits) == value
  {
    if value >= c.SplitToken() {
      var p := PartsOfValue(c, value);
      EncodesParts(c, p);
      Pow2Of32();
      hide Decode, ExtraBits, Encode, Pow2, ValueOf, TokenOf;
      Pow2Strict(p.n, 32);
      DecodesParts(c, p);
    }
  }

  // A token with as many bits as it asks for is what its value is coded as, if
  // the value has at most 32 bits: no token stands for two sets of values.
  lemma OneForm(c: HybridUintConfig, token: nat, bits: nat)
    requires c.Ok() && (token < c.SplitToken() ==> token < 0x1_0000_0000)
    requires token >= c.SplitToken() ==> c.splitExponent + Shr(token - c.SplitToken(), c.InToken()) < 32
    requires bits < Pow2(ExtraBits(c, token))
    ensures Encode(c, Decode(c, token, bits)) == Hybrid(token, ExtraBits(c, token), bits)
  {
    if token >= c.SplitToken() {
      hide Encode, Decode, ValueOf, TokenOf, Pow2, Shr;
      LowFive(c.splitExponent - c.InToken() + Shr(token - c.SplitToken(), c.InToken()));
      var p := PartsOfToken(c, token, bits);
      DecodesParts(c, p);
      EncodesParts(c, p);
    }
  }

  // ---------------------------------------------------------------------
  // The order of the code.

  // Small values, and only they, have small tokens: their own, without extra bits.
  lemma SmallTokens(c: HybridUintConfig, value: nat)
    requires c.Ok()
    ensures Encode(c, value).token < c.SplitToken() <==> value < c.SplitToken()
    ensures value < c.SplitToken() ==> Encode(c, value) == Hybrid(value, 0, 0) && ExtraBits(c, value) == 0
    ensures value < c.SplitToken() && value < 0x1_0000_0000 ==> Decode(c, value, 0) == value
  {
    if value >= c.SplitToken() {
      var p := PartsOfValue(c, value);
      EncodesParts(c, p);
      TokenParts(c, p);
    }
  }

  lemma LowOfValue(c: HybridUintConfig, p: Parts)
    requires Fit(c, p)
    ensures LowBits(ValueOf(c, p), c.lsbInToken) == p.low
  {
    hide Shl, LowBits, Pow2;
    ShiftMaskUnique(Shl(Pow2(c.msbInToken) + p.top, p.n - c.InToken()) + p.bits, p.low, c.lsbInToken);
  }

  // A token says how many bits its value has, and ends with the value's last bits.
  lemma TokenFields(c: HybridUintConfig, value: nat)
    requires c.Ok()
    ensures LowBits(Encode(c, value).token, c.lsbInToken) == LowBits(value, c.lsbInToken)
    ensures value >= c.SplitToken() ==>
              var h := Encode(c, value);
              && h.token >= c.SplitToken() && h.nbits == FloorLog2(value) - c.InToken()
              && Shr(h.token - c.SplitToken(), c.InToken()) == FloorLog2(value) - c.splitExponent
  {
    if value >= c.SplitToken() {
      hide Shr, LowBits, Pow2, Encode, Fit, ValueOf, TokenOf, FloorLog2;
      var p := PartsOfValue(c, value);
      EncodesParts(c, p);
      TokenParts(c, p);
      LowOfValue(c, p);
    }
  }

  // However large a token is, the reader takes fewer than 32 extra bits.
  lemma ExtraBitsWrap(c: HybridUintConfig, token: nat)
    requires c.Ok() && token >= c.SplitToken()
    ensures ExtraBits(c, token)
         == (c.splitExponent - c.InToken() + Shr(token - c.SplitToken(), c.InToken())) % 32
  {
    LowFiveIs(c.splitExponent - c.InToken() + Shr(token - c.SplitToken(), c.InToken()));
  }

  lemma LowFiveIs(x: nat)
    ensures LowBits(x, 5) == x % 32
  {
    assert Pow2(5) == 32 by { assert Pow2(3) == 8; }
    hide Pow2, LowBits, Shl, Shr;
    ShiftMask(x, 5);
    ShlIsProduct(Shr(x, 5), 5);
    DivIs(x, Shr(x, 5), 32, LowBits(x, 5));
  }

  lemma FieldsOrder(a: nat, x: nat, b: nat, y: nat, k: nat)
    requires x < Pow2(k) && y < Pow2(k)
    ensures Shl(a, k) + x <= Shl(b, k) + y <==> a < b || (a == b && x <= y)
  {
    if a < b {
      ShlLess(a, b, k);
    } else if b < a {
      ShlLess(b, a, k);
    }
  }

  lemma LongerParts(c: HybridUintConfig, p: Parts, q: Parts)
    requires Fit(c, p) && Fit(c, q) && p.n < q.n
    ensures TokenOf(c, p) < TokenOf(c, q)
  {
    hide Shl, Pow2;
    TwoFields(p.top, p.low, c.msbInToken, c.lsbInToken);
    ShlLess(p.n - c.splitExponent, q.n - c.splitExponent, c.InToken());
  }

  // A value of more bits has a greater token, once it is above the split.
  lemma LongerLater(c: HybridUintConfig, v: nat, w: nat)
    requires c.Ok() && w >= c.SplitToken() && v < Pow2(FloorLog2(w))
    ensures Encode(c, v).token < Encode(c, w).token
  {
    SmallTokens(c, v);
    SmallTokens(c, w);
    if v >= c.SplitToken() {
      hide Encode, TokenOf, ValueOf;
      var p := PartsOfValue(c, v);
      var q := PartsOfValue(c, w);
      Pow2Strict(p.n, q.n);
      EncodesParts(c, p);
      EncodesParts(c, q);
      LongerParts(c, p, q);
    }
  }

  lemma PartsOrder(c: HybridUintConfig, p: Parts, q: Parts)
    requires Fit(c, p) && Fit(c, q) && p.n == q.n && p.low == q.low
    ensures ValueOf(c, p) <= ValueOf(c, q) <==> p.top < q.top || (p.top == q.top && p.bits <= q.bits)
    ensures TokenOf(c, p) <= TokenOf(c, q) <==> p.top <= q.top
  {
    hide Shl, Pow2;
    var msb, nb, lsb := c.msbInToken, p.n - c.InToken(), c.lsbInToken;
    FieldsOrder(Pow2(msb) + p.top, p.bits, Pow2(msb) + q.top, q.bits, nb);
    FieldsOrder(Shl(Pow2(msb) + p.top, nb) + p.bits, p.low, Shl(Pow2(msb) + q.top, nb) + q.bits, q.low, lsb);
    FieldsOrder(p.top, p.low, q.top, q.low, lsb);
  }

  lemma PartsKeepOrder(c: HybridUintConfig, p: Parts, q: Parts)
    requires Fit(c, p) && Fit(c, q) && p.n <= q.n && p.low == q.low
    requires ValueOf(c, p) <= ValueOf(c, q)
    ensures TokenOf(c, p) < TokenOf(c, q)
            || (TokenOf(c, p) == TokenOf(c, q) && p.n == q.n && p.bits <= q.bits)
  {
    hide Fit, TokenOf, ValueOf;
    if p.n < q.n {
      LongerParts(c, p, q);
    } else {
      PartsOrder(c, p, q);
      PartsOrder(c, q, p);
    }
  }

  lemma LogKeepsOrder(v: nat, w: nat)
    requires 0 < v <= w
    ensures FloorLog2(v) <= FloorLog2(w)
  {
    Pow2Strict(FloorLog2(v), FloorLog2(w) + 1);
  }

  // Values with the same last bits are ordered as their tokens, then as their
  // extra bits. Where no last bits are in the token, that is all values.
  lemma TokensKeepOrder(c: HybridUintConfig, v: nat, w: nat)
    requires c.Ok() && v <= w && LowBits(v, c.lsbInToken) == LowBits(w, c.lsbInToken)
    ensures var g, h := Encode(c, v), Encode(c, w);
            g.token < h.token || (g.token == h.token && g.nbits == h.nbits && g.bits <= h.bits)
  {
    SmallTokens(c, v);
    SmallTokens(c, w);
    if v >= c.SplitToken() {
      hide Encode, Fit, TokenOf, ValueOf, LowBits, FloorLog2;
      var p := PartsOfValue(c, v);
      var q := PartsOfValue(c, w);
      EncodesParts(c, p);
      EncodesParts(c, q);
      LowOfValue(c, p);
      LowOfValue(c, q);
      LogKeepsOrder(v, w);
      PartsKeepOrder(c, p, q);
    }
  }

  lemma DefaultParts(n: nat, top: nat, bits: nat)
    requires n >= 4 && top < 4 && bits < Pow2(n - 2)
    ensures var c, p := HybridUintConfig(4, 2, 0), Parts(n, top, bits, 0);
            && Fit(c, p) && ValueOf(c, p) == (4 + top) * Pow2(n - 2) + bits
            && TokenOf(c, p) == 16 + 4 * (n - 4) + top
  {
    Pow2Known();
    assert Pow2(2) == 4 && Pow2(0) == 1;
    hide Pow2, Shl;
    ShlIsProduct(4 + top, n - 2);
    ShlIsProduct((4 + top) * Pow2(n - 2) + bits, 0);
    ShlIsProduct(n - 4, 2);
    ShlIsProduct(top, 0);
  }

  // The default configuration: from 16 on, four tokens for each length of the
  // value, by the two bits after its first one; the other bits are extra.
  lemma DefaultCode(n: nat, top: nat, bits: nat)
    requires n >= 4 && top < 4 && bits < Pow2(n - 2)
    ensures Encode(HybridUintConfig(4, 2, 0), (4 + top) * Pow2(n - 2) + bits)
         == Hybrid(16 + 4 * (n - 4) + top, n - 2, bits)
  {
    hide Encode, Pow2, Fit, ValueOf, TokenOf;
    DefaultParts(n, top, bits);
    EncodesParts(HybridUintConfig(4, 2, 0), Parts(n, top, bits, 0));
  }
}
