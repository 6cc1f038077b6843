// Blending of a layer row over a background row: libjxl/lib/jxl/alpha.{h,cc}
// and blending.{h,cc}, over exact reals.
module Blending {
  import opened Samples

  datatype PatchBlendMode =
    None | Replace | Add | Mul | BlendAbove | BlendBelow | AlphaWeightedAddAbove | AlphaWeightedAddBelow

  datatype PatchBlending = PatchBlending(mode: PatchBlendMode, alphaChannel: nat, clamp: bool)

  datatype ExtraChannelInfo = ExtraChannelInfo(isAlpha: bool, alphaAssociated: bool)

  // ---------------------------------------------------------------------
  // One sample.

  function Clamped(x: real, clamp: bool): (r: real)
    ensures clamp ==> 0.0 <= r <= 1.0
    ensures !clamp || 0.0 <= x <= 1.0 ==> r == x
  {
    if !clamp then x else if x < 0.0 then 0.0 else if x > 1.0 then 1.0 else x
  }

  // Opacity of a layer with opacity fa over one with opacity ba.
  function OverAlpha(ba: real, fa: real): real {
    1.0 - (1.0 - fa) * (1.0 - ba)
  }

  // Colour of f over b, with colours multiplied by opacity.
  function OverAssociated(b: real, f: real, fa: real): real {
    f + b * (1.0 - fa)
  }

  // Colour of f over b, with colours not multiplied by opacity.
  function Over(b: real, ba: real, f: real, fa: real): real {
    if OverAlpha(ba, fa) > 0.0 then (f * fa + b * ba * (1.0 - fa)) / OverAlpha(ba, fa) else 0.0
  }

  function OverSample(b: real, ba: real, f: real, fa: real, associated: bool): real {
    if associated then OverAssociated(b, f, fa) else Over(b, ba, f, fa)
  }

  // Multiplying by opacity turns one form of "over" into the other.
  lemma AssociatedAgrees(b: real, ba: real, f: real, fa: real)
    requires 0.0 <= ba <= 1.0 && 0.0 <= fa <= 1.0
    ensures Over(b, ba, f, fa) * OverAlpha(ba, fa) == OverAssociated(b * ba, f * fa, fa)
  {
    if OverAlpha(ba, fa) <= 0.0 {
      NoOpacity(ba, fa);
    } else {
      CancelDivision(f * fa + b * ba * (1.0 - fa), OverAlpha(ba, fa));
    }
  }

  lemma CancelDivision(x: real, y: real)
    requires y != 0.0
    ensures x / y * y == x
  {
  }

  lemma NoOpacity(ba: real, fa: real)
    requires 0.0 <= ba <= 1.0 && 0.0 <= fa <= 1.0 && OverAlpha(ba, fa) <= 0.0
    ensures ba == 0.0 && fa == 0.0
  {
    assert OverAlpha(ba, fa) == fa + (1.0 - fa) * ba;
    ProductAtLeast(1.0 - fa, ba);
  }

  lemma ProductAtLeast(x: real, y: real)
    requires x >= 0.0 && y >= 0.0
    ensures x * y >= 0.0
  {
  }

  // Flattening two layers first, or laying them down one after another.
  lemma OverIsAssociative(b: real, ba: real, m: real, ma: real, f: real, fa: real)
    ensures OverAssociated(OverAssociated(b, m, ma), f, fa)
         == OverAssociated(b, OverAssociated(m, f, fa), OverAlpha(ma, fa))
    ensures OverAlpha(OverAlpha(ba, ma), fa) == OverAlpha(ba, OverAlpha(ma, fa))
  {
    var u, v := 1.0 - ma, 1.0 - fa;
    Distribute(b, u, v);
    Distribute(1.0 - ba, u, v);
    assert (m + b * u) * v == m * v + (b * u) * v;
  }

  lemma Distribute(b: real, u: real, v: real)
    ensures (b * u) * v == b * (v * u)
  {
  }

  // A transparent sample leaves the background, an opaque one replaces it.
  lemma OverExtremes(b: real, ba: real, f: real)
    ensures Over(b, ba, f, 1.0) == f && OverAlpha(ba, 1.0) == 1.0
    ensures ba > 0.0 ==> Over(b, ba, f, 0.0) == b && OverAlpha(ba, 0.0) == ba
  {
    if ba > 0.0 {
      assert OverAlpha(ba, 0.0) == ba;
      assert b * ba / ba == b;
    }
  }

  // ---------------------------------------------------------------------
  // One pixel: planes 0 to 2 are colour, plane 3 + i is extra channel i.

  function AlphaOf(planes: seq<real>, channel: nat): real {
    if 3 + channel < |planes| then planes[3 + channel] else 0.0
  }

  predicate HasAlpha(info: seq<ExtraChannelInfo>) {
    exists i :: 0 <= i < |info| && info[i].isAlpha
  }

  predicate Weighted(mode: PatchBlendMode) {
    mode.BlendAbove? || mode.BlendBelow? || mode.AlphaWeightedAddAbove? || mode.AlphaWeightedAddBelow?
  }

  predicate ChannelsExist(color: PatchBlending, ec: seq<PatchBlending>, info: seq<ExtraChannelInfo>) {
    && |ec| == |info|
    && (HasAlpha(info) && Weighted(color.mode) ==> color.alphaChannel < |info|)
    && forall i :: 0 <= i < |ec| && Weighted(ec[i].mode) ==> ec[i].alphaChannel < |info|
  }

  function Associated(info: seq<ExtraChannelInfo>, channel: nat): bool {
    channel < |info| && info[channel].alphaAssociated
  }

  // `self`: the sample is of the channel that holds the opacity.
  function Sample(p: PatchBlending, b: real, ba: real, f: real, fa: real, self: bool, associated: bool): real {
    match p.mode
    case None => b
    case Replace => f
    case Add => b + f
    case Mul => Times(b, Clamped(f, p.clamp))
    case BlendAbove =>
      if self then OverAlpha(ba, Clamped(fa, p.clamp)) else OverSample(b, ba, f, Clamped(fa, p.clamp), associated)
    case BlendBelow =>
      if self then OverAlpha(fa, Clamped(ba, p.clamp)) else OverSample(f, fa, b, Clamped(ba, p.clamp), associated)
    case AlphaWeightedAddAbove => if self then b else b + Times(f, Clamped(fa, p.clamp))
    case AlphaWeightedAddBelow => if self then f else f + Times(b, Clamped(ba, p.clamp))
  }

  // Without an alpha channel there is nothing to weigh the colour with.
  function WithoutAlpha(mode: PatchBlendMode): PatchBlendMode {
    match mode
    case BlendAbove => Replace
    case BlendBelow => Replace
    case AlphaWeightedAddAbove => Add
    case AlphaWeightedAddBelow => Add
    case _ => mode
  }

  function ColorMode(color: PatchBlending, info: seq<ExtraChannelInfo>): PatchBlending {
    if HasAlpha(info) then color else color.(mode := WithoutAlpha(color.mode))
  }

  function ColorSample(bg: seq<real>, fg: seq<real>, p: int, color: PatchBlending, info: seq<ExtraChannelInfo>): real
    requires 0 <= p < 3 <= |bg| && |fg| == |bg|
  {
    var a := color.alphaChannel;
    Sample(ColorMode(color, info), bg[p], AlphaOf(bg, a), fg[p], AlphaOf(fg, a), false, Associated(info, a))
  }

  function ExtraSample(bg: seq<real>, fg: seq<real>, i: int, ec: PatchBlending, info: seq<ExtraChannelInfo>): real
    requires 0 <= i && 3 + i < |bg| && |fg| == |bg|
  {
    var a := ec.alphaChannel;
    Sample(ec, bg[3 + i], AlphaOf(bg, a), fg[3 + i], AlphaOf(fg, a), i == a, Associated(info, a))
  }

  // The colour's opacity goes to its alpha channel, whatever that channel's mode is.
  predicate SetsAlpha(color: PatchBlending, info: seq<ExtraChannelInfo>) {
    HasAlpha(info) && (color.mode.BlendAbove? || color.mode.BlendBelow?)
  }

  function BlendedSample(bg: seq<real>, fg: seq<real>, c: int, color: PatchBlending, ec: seq<PatchBlending>,
                         info: seq<ExtraChannelInfo>): real
    requires |bg| == |fg| == 3 + |ec| && 0 <= c < |bg|
  {
    var a := color.alphaChannel;
    if c < 3 then ColorSample(bg, fg, c, color, info)
    else if SetsAlpha(color, info) && c == 3 + a then
      Sample(color, bg[c], AlphaOf(bg, a), fg[c], AlphaOf(fg, a), true, false)
    else ExtraSample(bg, fg, c - 3, ec[c - 3], info)
  }

  function BlendPixel(bg: seq<real>, fg: seq<real>, color: PatchBlending, ec: seq<PatchBlending>,
                      info: seq<ExtraChannelInfo>): (r: seq<real>)
    requires |bg| == |fg| == 3 + |ec|
    ensures |r| == |bg|
  {
    seq(|bg|, c requires 0 <= c < |bg| => BlendedSample(bg, fg, c, color, ec, info))
  }

  // ---------------------------------------------------------------------
  // What the modes mean, on a plane c of a pixel.

  // The blending of the plane: an extra channel's own, unless the colour's
  // opacity goes there.
  function PlaneBlending(color: PatchBlending, ec: seq<PatchBlending>, info: seq<ExtraChannelInfo>, c: nat)
    : PatchBlending
    requires c < 3 + |ec|
  {
    if c < 3 || (SetsAlpha(color, info) && c == 3 + color.alphaChannel) then ColorMode(color, info) else ec[c - 3]
  }

  predicate IsOwnAlpha(p: PatchBlending, c: nat) {
    c == 3 + p.alphaChannel
  }

  lemma PlaneIsSample(bg: seq<real>, fg: seq<real>, color: PatchBlending, ec: seq<PatchBlending>,
                      info: seq<ExtraChannelInfo>, c: nat)
    requires |bg| == |fg| == 3 + |ec| && c < |bg|
    ensures var p := PlaneBlending(color, ec, info, c);
            BlendPixel(bg, fg, color, ec, info)[c]
            == Sample(p, bg[c], AlphaOf(bg, p.alphaChannel), fg[c], AlphaOf(fg, p.alphaChannel), IsOwnAlpha(p, c),
                      Associated(info, p.alphaChannel))
  {
    hide OverSample, OverAlpha, Clamped;
  }

  lemma KeptOrReplaced(bg: seq<real>, fg: seq<real>, color: PatchBlending, ec: seq<PatchBlending>,
                       info: seq<ExtraChannelInfo>, c: nat)
    requires |bg| == |fg| == 3 + |ec| && c < |bg|
    ensures var mode, r := PlaneBlending(color, ec, info, c).mode, BlendPixel(bg, fg, color, ec, info)[c];
            && (mode.None? ==> r == bg[c]) && (mode.Replace? ==> r == fg[c])
            && (mode.Add? && fg[c] == 0.0 ==> r == bg[c]) && (mode.Add? && bg[c] == 0.0 ==> r == fg[c])
  {
    hide BlendPixel, PlaneBlending;
    PlaneIsSample(bg, fg, color, ec, info, c);
  }

  // Multiplying by 1 keeps the background and by 0 clears it, also where a clamp
  // makes it 1 or 0; the result grows with the background. Without a clamp,
  // background and layer are alike.
  lemma Multiplied(bg: seq<real>, fg: seq<real>, color: PatchBlending, ec: seq<PatchBlending>,
                   info: seq<ExtraChannelInfo>, c: nat, k: real)
    requires |bg| == |fg| == 3 + |ec| && c < |bg| && PlaneBlending(color, ec, info, c).mode.Mul?
    ensures var clamp, r := PlaneBlending(color, ec, info, c).clamp, BlendPixel(bg, fg, color, ec, info)[c];
            && (fg[c] == 1.0 || (clamp && fg[c] >= 1.0) ==> r == bg[c])
            && (fg[c] == 0.0 || (clamp && fg[c] <= 0.0) ==> r == 0.0)
            && BlendPixel(bg[c := k * bg[c]], fg, color, ec, info)[c] == k * r
            && (!clamp ==> r == BlendPixel(fg, bg, color, ec, info)[c])
  {
    hide BlendPixel, PlaneBlending;
    PlaneIsSample(bg, fg, color, ec, info, c);
    PlaneIsSample(fg, bg, color, ec, info, c);
    PlaneIsSample(bg[c := k * bg[c]], fg, color, ec, info, c);
  }

  // A weighted addition adds the layer in proportion to its opacity: nothing at
  // opacity 0, all at 1. The opacity itself stays.
  lemma WeightedAddition(bg: seq<real>, fg: seq<real>, color: PatchBlending, ec: seq<PatchBlending>,
                         info: seq<ExtraChannelInfo>, c: nat)
    requires |bg| == |fg| == 3 + |ec| && c < |bg|
    requires PlaneBlending(color, ec, info, c).mode.AlphaWeightedAddAbove?
    ensures var p, r := PlaneBlending(color, ec, info, c), BlendPixel(bg, fg, color, ec, info)[c];
            var fa := AlphaOf(fg, p.alphaChannel);
            && (IsOwnAlpha(p, c) || fa == 0.0 || (p.clamp && fa <= 0.0) ==> r == bg[c])
            && (!IsOwnAlpha(p, c) && (fa == 1.0 || (p.clamp && fa >= 1.0)) ==> r == bg[c] + fg[c])
            && (!IsOwnAlpha(p, c) && (!p.clamp || 0.0 <= fa <= 1.0) ==> r - bg[c] == fa * fg[c])
  {
    hide BlendPixel, PlaneBlending;
    PlaneIsSample(bg, fg, color, ec, info, c);
  }

  // An opaque sample hides the background. A transparent one shows it, and adds
  // what colour it has left if that is multiplied by opacity.
  lemma LaidOver(bg: seq<real>, fg: seq<real>, color: PatchBlending, ec: seq<PatchBlending>,
                 info: seq<ExtraChannelInfo>, c: nat)
    requires |bg| == |fg| == 3 + |ec| && c < |bg|
    requires PlaneBlending(color, ec, info, c).mode.BlendAbove?
    ensures var p, r := PlaneBlending(color, ec, info, c), BlendPixel(bg, fg, color, ec, info)[c];
            var ba, fa := AlphaOf(bg, p.alphaChannel), AlphaOf(fg, p.alphaChannel);
            && (!IsOwnAlpha(p, c) && (fa == 1.0 || (p.clamp && fa >= 1.0)) ==> r == fg[c])
            && (!IsOwnAlpha(p, c) && (fa == 0.0 || (p.clamp && fa <= 0.0)) ==>
                  (Associated(info, p.alphaChannel) ==> r == bg[c] + fg[c])
                  && (!Associated(info, p.alphaChannel) && ba > 0.0 ==> r == bg[c]))
            && (IsOwnAlpha(p, c) ==> r == OverAlpha(ba, Clamped(fa, p.clamp)))
  {
    hide BlendPixel, PlaneBlending, Over, OverAlpha;
    PlaneIsSample(bg, fg, color, ec, info, c);
    OverExtremes(bg[c], AlphaOf(bg, PlaneBlending(color, ec, info, c).alphaChannel), fg[c]);
  }

  // The mode that does the same with background and layer exchanged.
  function Mirror(p: PatchBlending): PatchBlending {
    p.(mode := match p.mode
               case None => Replace
               case Replace => None
               case Add => Add
               case Mul => Mul
               case BlendAbove => BlendBelow
               case BlendBelow => BlendAbove
               case AlphaWeightedAddAbove => AlphaWeightedAddBelow
               case AlphaWeightedAddBelow => AlphaWeightedAddAbove)
  }

  function MirrorAll(ec: seq<PatchBlending>): (r: seq<PatchBlending>)
    ensures |r| == |ec| && forall i: nat | i < |r| :: r[i] == Mirror(ec[i])
  {
    seq(|ec|, i requires 0 <= i < |ec| => Mirror(ec[i]))
  }

  predicate OneSided(p: PatchBlending) {
    p.mode.Mul? && p.clamp
  }

  // Each mode "below" is the mode "above" with background and layer exchanged,
  // for all planes at once. Only a clamped product is one-sided, and the colour
  // of a blend without alpha, which shows the layer either way.
  lemma Mirrored(bg: seq<real>, fg: seq<real>, color: PatchBlending, ec: seq<PatchBlending>,
                 info: seq<ExtraChannelInfo>)
    requires |bg| == |fg| == 3 + |ec|
    requires !OneSided(color) && forall p :: p in ec ==> !OneSided(p)
    requires HasAlpha(info) || !(color.mode.BlendAbove? || color.mode.BlendBelow?)
    ensures BlendPixel(bg, fg, Mirror(color), MirrorAll(ec), info) == BlendPixel(fg, bg, color, ec, info)
  {
    var a, b := BlendPixel(bg, fg, Mirror(color), MirrorAll(ec), info), BlendPixel(fg, bg, color, ec, info);
    forall c: nat | c < |bg|
      ensures a[c] == b[c]
    {
      MirroredPlane(bg, fg, color, ec, info, c);
    }
  }

  lemma MirroredPlane(bg: seq<real>, fg: seq<real>, color: PatchBlending, ec: seq<PatchBlending>,
                      info: seq<ExtraChannelInfo>, c: nat)
    requires |bg| == |fg| == 3 + |ec| && c < |bg|
    requires !OneSided(color) && forall p :: p in ec ==> !OneSided(p)
    requires HasAlpha(info) || !(color.mode.BlendAbove? || color.mode.BlendBelow?)
    ensures BlendPixel(bg, fg, Mirror(color), MirrorAll(ec), info)[c] == BlendPixel(fg, bg, color, ec, info)[c]
  {
    PlaneIsSample(bg, fg, Mirror(color), MirrorAll(ec), info, c);
    PlaneIsSample(fg, bg, color, ec, info, c);
    hide BlendPixel, OverSample, OverAlpha, Clamped, HasAlpha;
    var p := PlaneBlending(color, ec, info, c);
    assert c >= 3 ==> ec[c - 3] in ec;
    assert PlaneBlending(Mirror(color), MirrorAll(ec), info, c) == Mirror(p) && !OneSided(p);
    MirroredSample(p, bg[c], AlphaOf(bg, p.alphaChannel), fg[c], AlphaOf(fg, p.alphaChannel), IsOwnAlpha(p, c),
                   Associated(info, p.alphaChannel));
  }

  lemma MirroredSample(p: PatchBlending, b: real, ba: real, f: real, fa: real, self: bool, associated: bool)
    requires !OneSided(p)
    ensures Sample(Mirror(p), b, ba, f, fa, self, associated) == Sample(p, f, fa, b, ba, self, associated)
  {
    hide OverSample, OverAlpha;
  }

  // Without an alpha channel the colour of a blend is the layer's, and that of a
  // weighted addition the plain sum.
  lemma NoAlphaChannel(bg: seq<real>, fg: seq<real>, color: PatchBlending, ec: seq<PatchBlending>,
                       info: seq<ExtraChannelInfo>, c: nat)
    requires |bg| == |fg| == 3 + |ec| && c < 3 && !HasAlpha(info)
    ensures var r := BlendPixel(bg, fg, color, ec, info)[c];
            && (color.mode.BlendAbove? || color.mode.BlendBelow? ==> r == fg[c])
            && (color.mode.AlphaWeightedAddAbove? || color.mode.AlphaWeightedAddBelow? ==> r == bg[c] + fg[c])
  {
  }

  // A blended colour composes its opacity, in its alpha channel and nowhere else.
  lemma ColorOpacity(bg: seq<real>, fg: seq<real>, color: PatchBlending, ec: seq<PatchBlending>,
                     info: seq<ExtraChannelInfo>, c: nat)
    requires |bg| == |fg| == 3 + |ec| && 3 <= c < |bg| && HasAlpha(info)
    ensures var r := BlendPixel(bg, fg, color, ec, info)[c];
            var rest := BlendPixel(bg, fg, color.(mode := None), ec, info)[c];
            if IsOwnAlpha(color, c) && color.mode.BlendAbove? then
              r == OverAlpha(bg[c], Clamped(fg[c], color.clamp))
            else if IsOwnAlpha(color, c) && color.mode.BlendBelow? then
              r == OverAlpha(fg[c], Clamped(bg[c], color.clamp))
            else r == rest
  {
    hide OverSample, OverAlpha, Clamped;
  }

  // ---------------------------------------------------------------------
  // One row: each method fills the first n samples of `out` from the n samples
  // at x0 of the inputs.

  predicate Long(row: array<real>, n: nat) {
    n <= row.Length
  }

  method PerformAlphaBlending(bg: array<real>, bga: array<real>, fg: array<real>, fga: array<real>, out: array<real>,
                              x0: nat, n: nat, associated: bool, clamp: bool)
    requires Long(bg, x0 + n) && Long(bga, x0 + n) && Long(fg, x0 + n) && Long(fga, x0 + n) && Long(out, n)
    requires out != bg && out != bga && out != fg && out != fga
    modifies out
    ensures forall x: nat | x < n ::
              var fa := Clamped(fga[x0 + x], clamp);
              out[x] == if bg == bga && fg == fga then OverAlpha(bga[x0 + x], fa)
                        else OverSample(bg[x0 + x], bga[x0 + x], fg[x0 + x], fa, associated)
  {
    hide Clamped, OverAlpha, OverAssociated, Over;
    if bg == bga && fg == fga {
      for x := 0 to n
        invariant forall j: nat | j < x :: out[j] == OverAlpha(bga[x0 + j], Clamped(fga[x0 + j], clamp))
      {
        var fa := Clamped(fga[x0 + x], clamp);
        out[x] := OverAlpha(bga[x0 + x], fa);
      }
    } else if associated {
      for x := 0 to n
        invariant forall j: nat | j < x ::
                    out[j] == OverAssociated(bg[x0 + j], fg[x0 + j], Clamped(fga[x0 + j], clamp))
      {
        var fa := Clamped(fga[x0 + x], clamp);
        out[x] := OverAssociated(bg[x0 + x], fg[x0 + x], fa);
      }
    } else {
      for x := 0 to n
        invariant forall j: nat | j < x ::
                    out[j] == Over(bg[x0 + j], bga[x0 + j], fg[x0 + j], Clamped(fga[x0 + j], clamp))
      {
        out[x] := Reciprocal(bg[x0 + x], bga[x0 + x], fg[x0 + x], Clamped(fga[x0 + x], clamp));
      }
    }
  }

  // The source divides once and multiplies each plane.
  function Reciprocal(b: real, ba: real, f: real, fa: real): (r: real)
    ensures r == Over(b, ba, f, fa)
  {
    var newA := 1.0 - (1.0 - fa) * (1.0 - ba);
    var rnewA := if newA > 0.0 then 1.0 / newA else 0.0;
    (f * fa + b * ba * (1.0 - fa)) * rnewA
  }

  // The overload for colour: three planes and their opacity.
  datatype BlendingLayer = BlendingLayer(r: array<real>, g: array<real>, b: array<real>, a: array<real>)

  predicate LongLayer(layer: BlendingLayer, n: nat) {
    Long(layer.r, n) && Long(layer.g, n) && Long(layer.b, n) && Long(layer.a, n)
  }

  predicate NotIn(row: array<real>, layer: BlendingLayer) {
    row != layer.r && row != layer.g && row != layer.b && row != layer.a
  }

  ghost predicate OverRow(out: seq<real>, bg: seq<real>, bga: seq<real>, fg: seq<real>, fga: seq<real>, x0: nat, n: nat,
                          associated: bool, clamp: bool)
    requires n <= |out| && x0 + n <= |bg| && x0 + n <= |bga| && x0 + n <= |fg| && x0 + n <= |fga|
  {
    forall x: nat | x < n ::
      out[x] == OverSample(bg[x0 + x], bga[x0 + x], fg[x0 + x], Clamped(fga[x0 + x], clamp), associated)
  }

  ghost predicate OverAlphaRow(out: seq<real>, bga: seq<real>, fga: seq<real>, x0: nat, n: nat, clamp: bool)
    requires n <= |out| && x0 + n <= |bga| && x0 + n <= |fga|
  {
    forall x: nat | x < n :: out[x] == OverAlpha(bga[x0 + x], Clamped(fga[x0 + x], clamp))
  }

  predicate Separate(bg: BlendingLayer, fg: BlendingLayer, out: BlendingLayer) {
    && NotIn(out.r, bg) && NotIn(out.g, bg) && NotIn(out.b, bg) && NotIn(out.a, bg)
    && NotIn(out.r, fg) && NotIn(out.g, fg) && NotIn(out.b, fg) && NotIn(out.a, fg)
    && out.r != out.g && out.r != out.b && out.g != out.b && out.r != out.a && out.g != out.a && out.b != out.a
  }

  method BlendColorAt(bg: BlendingLayer, fg: BlendingLayer, out: BlendingLayer, x0: nat, x: nat, associated: bool,
                      clamp: bool)
    requires LongLayer(bg, x0 + x + 1) && LongLayer(fg, x0 + x + 1) && LongLayer(out, x + 1) && Separate(bg, fg, out)
    modifies out.r, out.g, out.b, out.a
    ensures out.r[..] == old(out.r[..])[x := OverSample(bg.r[x0 + x], bg.a[x0 + x], fg.r[x0 + x],
                                                       Clamped(fg.a[x0 + x], clamp), associated)]
    ensures out.g[..] == old(out.g[..])[x := OverSample(bg.g[x0 + x], bg.a[x0 + x], fg.g[x0 + x],
                                                       Clamped(fg.a[x0 + x], clamp), associated)]
    ensures out.b[..] == old(out.b[..])[x := OverSample(bg.b[x0 + x], bg.a[x0 + x], fg.b[x0 + x],
                                                       Clamped(fg.a[x0 + x], clamp), associated)]
    ensures out.a[..] == old(out.a[..])[x := OverAlpha(bg.a[x0 + x], Clamped(fg.a[x0 + x], clamp))]
  {
    hide Clamped, OverAlpha, OverAssociated, Over;
    var fga := Clamped(fg.a[x0 + x], clamp);
    if associated {
      out.r[x] := OverAssociated(bg.r[x0 + x], fg.r[x0 + x], fga);
      out.g[x] := OverAssociated(bg.g[x0 + x], fg.g[x0 + x], fga);
      out.b[x] := OverAssociated(bg.b[x0 + x], fg.b[x0 + x], fga);
    } else {
      out.r[x] := Reciprocal(bg.r[x0 + x], bg.a[x0 + x], fg.r[x0 + x], fga);
      out.g[x] := Reciprocal(bg.g[x0 + x], bg.a[x0 + x], fg.g[x0 + x], fga);
      out.b[x] := Reciprocal(bg.b[x0 + x], bg.a[x0 + x], fg.b[x0 + x], fga);
    }
    out.a[x] := OverAlpha(bg.a[x0 + x], fga);
    assert out.r[x] == OverSample(bg.r[x0 + x], bg.a[x0 + x], fg.r[x0 + x], fga, associated);
    assert out.g[x] == OverSample(bg.g[x0 + x], bg.a[x0 + x], fg.g[x0 + x], fga, associated);
    assert out.b[x] == OverSample(bg.b[x0 + x], bg.a[x0 + x], fg.b[x0 + x], fga, associated);
    assert out.a[x] == OverAlpha(bg.a[x0 + x], fga);
    hide *;
  }

  method PerformAlphaBlendingColor(bg: BlendingLayer, fg: BlendingLayer, out: BlendingLayer, x0: nat, n: nat,
                                   associated: bool, clamp: bool)
    requires LongLayer(bg, x0 + n) && LongLayer(fg, x0 + n) && LongLayer(out, n) && Separate(bg, fg, out)
    modifies out.r, out.g, out.b, out.a
    ensures OverRow(out.r[..], bg.r[..], bg.a[..], fg.r[..], fg.a[..], x0, n, associated, clamp)
    ensures OverRow(out.g[..], bg.g[..], bg.a[..], fg.g[..], fg.a[..], x0, n, associated, clamp)
    ensures OverRow(out.b[..], bg.b[..], bg.a[..], fg.b[..], fg.a[..], x0, n, associated, clamp)
    ensures OverAlphaRow(out.a[..], bg.a[..], fg.a[..], x0, n, clamp)
  {
    hide Clamped, OverSample, OverAlpha, OverRow, OverAlphaRow;
    RowsBegin(out, bg, fg, x0, associated, clamp);
    for x := 0 to n
      invariant OverRow(out.r[..], bg.r[..], bg.a[..], fg.r[..], fg.a[..], x0, x, associated, clamp)
      invariant OverRow(out.g[..], bg.g[..], bg.a[..], fg.g[..], fg.a[..], x0, x, associated, clamp)
      invariant OverRow(out.b[..], bg.b[..], bg.a[..], fg.b[..], fg.a[..], x0, x, associated, clamp)
      invariant OverAlphaRow(out.a[..], bg.a[..], fg.a[..], x0, x, clamp)
    {
      ghost var r, g, b, a := out.r[..], out.g[..], out.b[..], out.a[..];
      BlendColorAt(bg, fg, out, x0, x, associated, clamp);
      OverRowStep(r, bg.r[..], bg.a[..], fg.r[..], fg.a[..], x0, x, associated, clamp);
      OverRowStep(g, bg.g[..], bg.a[..], fg.g[..], fg.a[..], x0, x, associated, clamp);
      OverRowStep(b, bg.b[..], bg.a[..], fg.b[..], fg.a[..], x0, x, associated, clamp);
      OverAlphaRowStep(a, bg.a[..], fg.a[..], x0, x, clamp);
    }
  }

  lemma RowsBegin(out: BlendingLayer, bg: BlendingLayer, fg: BlendingLayer, x0: nat, associated: bool, clamp: bool)
    requires LongLayer(bg, x0) && LongLayer(fg, x0)
    ensures OverRow(out.r[..], bg.r[..], bg.a[..], fg.r[..], fg.a[..], x0, 0, associated, clamp)
    ensures OverRow(out.g[..], bg.g[..], bg.a[..], fg.g[..], fg.a[..], x0, 0, associated, clamp)
    ensures OverRow(out.b[..], bg.b[..], bg.a[..], fg.b[..], fg.a[..], x0, 0, associated, clamp)
    ensures OverAlphaRow(out.a[..], bg.a[..], fg.a[..], x0, 0, clamp)
  {
  }

  lemma OverRowStep(out: seq<real>, bg: seq<real>, bga: seq<real>, fg: seq<real>, fga: seq<real>, x0: nat, x: nat,
                    associated: bool, clamp: bool)
    requires x < |out| && x0 + x < |bg| && x0 + x < |bga| && x0 + x < |fg| && x0 + x < |fga|
    requires OverRow(out, bg, bga, fg, fga, x0, x, associated, clamp)
    ensures var v := OverSample(bg[x0 + x], bga[x0 + x], fg[x0 + x], Clamped(fga[x0 + x], clamp), associated);
      OverRow(out[x := v], bg, bga, fg, fga, x0, x + 1, associated, clamp)
  {
    hide OverSample, Clamped;
  }

  lemma OverAlphaRowStep(out: seq<real>, bga: seq<real>, fga: seq<real>, x0: nat, x: nat, clamp: bool)
    requires x < |out| && x0 + x < |bga| && x0 + x < |fga| && OverAlphaRow(out, bga, fga, x0, x, clamp)
    ensures OverAlphaRow(out[x := OverAlpha(bga[x0 + x], Clamped(fga[x0 + x], clamp))], bga, fga, x0, x + 1, clamp)
  {
    hide OverAlpha, Clamped;
  }

  method PerformAlphaWeightedAdd(bg: array<real>, fg: array<real>, fga: array<real>, out: array<real>, x0: nat, n: nat,
                                 clamp: bool)
    requires Long(bg, x0 + n) && Long(fg, x0 + n) && Long(fga, x0 + n) && Long(out, n)
    requires out != bg && out != fg && out != fga
    modifies out
    ensures forall x: nat | x < n ::
              out[x] == bg[x0 + x] + (if fg == fga then 0.0 else Times(fg[x0 + x], Clamped(fga[x0 + x], clamp)))
  {
    hide Clamped, Times;
    if fg == fga {
      CopyRow(bg, out, x0, n);
    } else {
      for x := 0 to n
        invariant forall j: nat | j < x :: out[j] == bg[x0 + j] + Times(fg[x0 + j], Clamped(fga[x0 + j], clamp))
      {
        out[x] := bg[x0 + x] + Times(fg[x0 + x], Clamped(fga[x0 + x], clamp));
      }
    }
  }

  method PerformMulBlending(bg: array<real>, fg: array<real>, out: array<real>, x0: nat, n: nat, clamp: bool)
    requires Long(bg, x0 + n) && Long(fg, x0 + n) && Long(out, n) && out != bg && out != fg
    modifies out
    ensures forall x: nat | x < n :: out[x] == Times(bg[x0 + x], Clamped(fg[x0 + x], clamp))
  {
    hide Clamped, Times;
    for x := 0 to n
      invariant forall j: nat | j < x :: out[j] == Times(bg[x0 + j], Clamped(fg[x0 + j], clamp))
    {
      out[x] := Times(bg[x0 + x], Clamped(fg[x0 + x], clamp));
    }
  }

  method AddRow(bg: array<real>, fg: array<real>, out: array<real>, x0: nat, n: nat)
    requires Long(bg, x0 + n) && Long(fg, x0 + n) && Long(out, n) && out != bg && out != fg
    modifies out
    ensures forall x: nat | x < n :: out[x] == bg[x0 + x] + fg[x0 + x]
  {
    for x := 0 to n
      invariant forall j: nat | j < x :: out[j] == bg[x0 + j] + fg[x0 + j]
    {
      out[x] := bg[x0 + x] + fg[x0 + x];
    }
  }

  method CopyRow(src: array<real>, out: array<real>, x0: nat, n: nat)
    requires Long(src, x0 + n) && Long(out, n) && out != src
    modifies out
    ensures forall x: nat | x < n :: out[x] == src[x0 + x]
  {
    for x := 0 to n
      invariant forall j: nat | j < x :: out[j] == src[x0 + j]
    {
      out[x] := src[x0 + x];
    }
  }

  // ---------------------------------------------------------------------
  // All planes of a row. `out` may be the very rows of `fg`.

  ghost function Contents(rows: seq<array<real>>): seq<seq<real>>
    reads rows
  {
    seq(|rows|, c requires 0 <= c < |rows| reads rows => rows[c][..])
  }

  // The planes at position x.
  ghost function PixelAt(rows: seq<seq<real>>, x: nat): seq<real>
    requires forall row :: row in rows ==> x < |row|
  {
    seq(|rows|, c requires 0 <= c < |rows| => rows[c][x])
  }

  predicate Reach(rows: seq<array<real>>, n: nat) {
    forall c: nat | c < |rows| :: Long(rows[c], n)
  }

  predicate Distinct(rows: seq<array<real>>) {
    forall c: nat, d: nat | c < |rows| && d < |rows| && c != d :: rows[c] != rows[d]
  }

  predicate NotAmong(row: array<real>, rows: seq<array<real>>) {
    forall c: nat | c < |rows| :: rows[c] != row
  }

  // Rows may share storage only as the blank row of an unset slot.
  ghost predicate SharedOnlyIfBlank(rows: seq<array<real>>, n: nat)
    reads rows
  {
    && Reach(rows, n)
    && forall c: nat, d: nat, x: nat | c < |rows| && d < |rows| && c != d && rows[c] == rows[d] && x < n ::
      rows[c][x] == 0.0
  }

  // Row i of `t` holds what it has to, for an extra channel.
  ghost predicate ExtraDone(t: seq<real>, bg: seq<seq<real>>, fg: seq<seq<real>>, i: nat, x0: nat, n: nat,
                            ec: PatchBlending, info: seq<ExtraChannelInfo>)
    requires |bg| == |fg| && 3 + i < |bg| && Wide(bg, x0 + n) && Wide(fg, x0 + n)
  {
    n <= |t| && forall x: nat | x < n :: t[x] == ExtraSample(PixelAt(bg, x0 + x), PixelAt(fg, x0 + x), i, ec, info)
  }

  ghost predicate Wide(rows: seq<seq<real>>, n: nat) {
    forall row :: row in rows ==> n <= |row|
  }

  // The same, with the rows named one by one.
  ghost predicate SampleRow(t: seq<real>, b: seq<real>, ba: seq<real>, f: seq<real>, fa: seq<real>, x0: nat, n: nat,
                            p: PatchBlending, self: bool, associated: bool)
    requires x0 + n <= |b| && x0 + n <= |f| && x0 + n <= |ba| && x0 + n <= |fa|
  {
    n <= |t| && forall x: nat | x < n ::
      t[x] == Sample(p, b[x0 + x], ba[x0 + x], f[x0 + x], fa[x0 + x], self, associated)
  }

  ghost function AlphaRow(rows: seq<seq<real>>, channel: nat, n: nat): (r: seq<real>)
    requires Wide(rows, n)
    ensures n <= |r|
  {
    if 3 + channel < |rows| then rows[3 + channel] else seq(n, _ => 0.0)
  }

  lemma ExtraRowDone(t: seq<real>, bg: seq<seq<real>>, fg: seq<seq<real>>, i: nat, x0: nat, n: nat, ec: PatchBlending,
                     info: seq<ExtraChannelInfo>)
    requires |bg| == |fg| && 3 + i < |bg| && Wide(bg, x0 + n) && Wide(fg, x0 + n)
    requires SampleRow(t, bg[3 + i], AlphaRow(bg, ec.alphaChannel, x0 + n), fg[3 + i],
                       AlphaRow(fg, ec.alphaChannel, x0 + n),
                       x0, n, ec, i == ec.alphaChannel, Associated(info, ec.alphaChannel))
    ensures ExtraDone(t, bg, fg, i, x0, n, ec, info)
  {
    hide Sample;
  }

  // Here the opacities do not matter.
  method BlendUnweighted(bg: array<real>, fg: array<real>, out: array<real>, x0: nat, n: nat, ec: PatchBlending,
                         ghost ba: seq<real>, ghost fa: seq<real>, ghost self: bool, ghost associated: bool)
    requires !Weighted(ec.mode) && x0 + n <= |ba| && x0 + n <= |fa|
    requires Long(bg, x0 + n) && Long(fg, x0 + n) && Long(out, n) && out != bg && out != fg
    modifies out
    ensures SampleRow(out[..], bg[..], ba, fg[..], fa, x0, n, ec, self, associated)
  {
    hide OverSample, OverAlpha, Clamped, Times;
    match ec.mode
    case Add => AddRow(bg, fg, out, x0, n);
    case Mul => PerformMulBlending(bg, fg, out, x0, n, ec.clamp);
    case Replace => CopyRow(fg, out, x0, n);
    case None => CopyRow(bg, out, x0, n);
  }

  method BlendOver(bg: array<real>, bga: array<real>, fg: array<real>, fga: array<real>, out: array<real>, x0: nat,
                   n: nat, ec: PatchBlending, associated: bool)
    requires ec.mode.BlendAbove? || ec.mode.BlendBelow?
    requires Long(bg, x0 + n) && Long(bga, x0 + n) && Long(fg, x0 + n) && Long(fga, x0 + n) && Long(out, n)
    requires out != bg && out != bga && out != fg && out != fga
    requires fg == fga ==> bg == bga
    modifies out
    ensures SampleRow(out[..], bg[..], bga[..], fg[..], fga[..], x0, n, ec, fg == fga, associated)
  {
    hide OverSample, OverAlpha, Clamped, Times;
    if ec.mode.BlendAbove? {
      PerformAlphaBlending(bg, bga, fg, fga, out, x0, n, associated, ec.clamp);
      assert SampleRow(out[..], bg[..], bga[..], fg[..], fga[..], x0, n, ec, fg == fga, associated);
    } else {
      PerformAlphaBlending(fg, fga, bg, bga, out, x0, n, associated, ec.clamp);
      assert SampleRow(out[..], bg[..], bga[..], fg[..], fga[..], x0, n, ec, fg == fga, associated);
    }
  }

  method BlendWeighted(bg: array<real>, bga: array<real>, fg: array<real>, fga: array<real>, out: array<real>, x0: nat,
                       n: nat, ec: PatchBlending, associated: bool)
    requires Weighted(ec.mode)
    requires Long(bg, x0 + n) && Long(bga, x0 + n) && Long(fg, x0 + n) && Long(fga, x0 + n) && Long(out, n)
    requires out != bg && out != bga && out != fg && out != fga
    requires fg == fga ==> bg == bga
    requires bg == bga && fg != fga ==> forall x: nat | x < x0 + n :: bg[x] == 0.0
    modifies out
    ensures SampleRow(out[..], bg[..], bga[..], fg[..], fga[..], x0, n, ec, fg == fga, associated)
  {
    hide OverSample, OverAlpha, Clamped, Times;
    if ec.mode.BlendAbove? || ec.mode.BlendBelow? {
      BlendOver(bg, bga, fg, fga, out, x0, n, ec, associated);
    } else if ec.mode.AlphaWeightedAddAbove? {
      PerformAlphaWeightedAdd(bg, fg, fga, out, x0, n, ec.clamp);
    } else {
      PerformAlphaWeightedAdd(fg, bg, bga, out, x0, n, ec.clamp);
      forall x: nat | x < n && bg == bga
        ensures out[x] == fg[x0 + x] + (if fg == fga then 0.0 else Times(bg[x0 + x], Clamped(bga[x0 + x], ec.clamp)))
      {
        if fg != fga {
          TimesZero(Clamped(bga[x0 + x], ec.clamp));
        }
      }
    }
  }

  method BlendExtra(bg: seq<array<real>>, fg: seq<array<real>>, i: nat, out: array<real>, x0: nat, n: nat,
                    ec: PatchBlending, info: seq<ExtraChannelInfo>)
    requires |bg| == |fg| == 3 + |info| && i < |info| && (Weighted(ec.mode) ==> ec.alphaChannel < |info|)
    requires SharedOnlyIfBlank(bg, x0 + n) && Reach(fg, x0 + n) && Distinct(fg)
    requires Long(out, n) && NotAmong(out, bg) && NotAmong(out, fg)
    modifies out
    ensures ExtraDone(out[..], Contents(bg), Contents(fg), i, x0, n, ec, info)
  {
    hide ExtraDone, Wide, Sample, SampleRow;
    WideContents(bg, x0 + n);
    WideContents(fg, x0 + n);
    var a := ec.alphaChannel;
    if !Weighted(ec.mode) {
      BlendUnweighted(bg[3 + i], fg[3 + i], out, x0, n, ec, AlphaRow(Contents(bg), a, x0 + n),
                      AlphaRow(Contents(fg), a, x0 + n), i == a, Associated(info, a));
    } else {
      BlendWeighted(bg[3 + i], bg[3 + a], fg[3 + i], fg[3 + a], out, x0, n, ec, info[a].alphaAssociated);
    }
    assert SampleRow(out[..], Contents(bg)[3 + i], AlphaRow(Contents(bg), a, x0 + n), Contents(fg)[3 + i],
                     AlphaRow(Contents(fg), a, x0 + n), x0, n, ec, i == a, Associated(info, a));
    ExtraRowDone(out[..], Contents(bg), Contents(fg), i, x0, n, ec, info);
  }

  lemma WideContents(rows: seq<array<real>>, n: nat)
    requires Reach(rows, n)
    ensures Wide(Contents(rows), n)
  {
  }

  // ---------------------------------------------------------------------
  // All planes.

  // Colour plane p is done.
  ghost predicate ColorDone(t: seq<real>, bg: seq<seq<real>>, fg: seq<seq<real>>, p: nat, x0: nat, n: nat,
                            color: PatchBlending, info: seq<ExtraChannelInfo>)
    requires p < 3 <= |bg| && |bg| == |fg| && Wide(bg, x0 + n) && Wide(fg, x0 + n)
  {
    n <= |t| && forall x: nat | x < n :: t[x] == ColorSample(PixelAt(bg, x0 + x), PixelAt(fg, x0 + x), p, color, info)
  }

  ghost predicate Blended(t: seq<seq<real>>, bg: seq<seq<real>>, fg: seq<seq<real>>, x0: nat, n: nat,
                          color: PatchBlending, ec: seq<PatchBlending>, info: seq<ExtraChannelInfo>)
    requires |bg| == |fg| == 3 + |ec| && Wide(bg, x0 + n) && Wide(fg, x0 + n)
  {
    |t| == |bg| && Wide(t, n) && forall c: nat, x: nat | c < |t| && x < n ::
      t[c][x] == BlendedSample(PixelAt(bg, x0 + x), PixelAt(fg, x0 + x), c, color, ec, info)
  }

  lemma ColorRowDone(t: seq<real>, bg: seq<seq<real>>, fg: seq<seq<real>>, p: nat, x0: nat, n: nat,
                     color: PatchBlending, info: seq<ExtraChannelInfo>)
    requires p < 3 <= |bg| && |bg| == |fg| && Wide(bg, x0 + n) && Wide(fg, x0 + n)
    requires SampleRow(t, bg[p], AlphaRow(bg, color.alphaChannel, x0 + n), fg[p],
                       AlphaRow(fg, color.alphaChannel, x0 + n),
                       x0, n, ColorMode(color, info), false, Associated(info, color.alphaChannel))
    ensures ColorDone(t, bg, fg, p, x0, n, color, info)
  {
    hide Sample, ColorMode;
  }

  method BlendColorPlane(bg: seq<array<real>>, fg: seq<array<real>>, p: nat, out: array<real>, x0: nat, n: nat,
                         color: PatchBlending, info: seq<ExtraChannelInfo>)
    requires p < 3 && |bg| == |fg| == 3 + |info| && !SetsAlpha(color, info)
    requires HasAlpha(info) && Weighted(color.mode) ==> color.alphaChannel < |info|
    requires SharedOnlyIfBlank(bg, x0 + n) && Reach(fg, x0 + n) && Distinct(fg)
    requires Long(out, n) && NotAmong(out, bg) && NotAmong(out, fg)
    modifies out
    ensures ColorDone(out[..], Contents(bg), Contents(fg), p, x0, n, color, info)
  {
    hide ColorDone, Wide, Sample, SampleRow, HasAlpha;
    WideContents(bg, x0 + n);
    WideContents(fg, x0 + n);
    var a, mode := color.alphaChannel, ColorMode(color, info);
    if Weighted(mode.mode) {
      BlendWeighted(bg[p], bg[3 + a], fg[p], fg[3 + a], out, x0, n, mode, info[a].alphaAssociated);
    } else {
      BlendUnweighted(bg[p], fg[p], out, x0, n, mode, AlphaRow(Contents(bg), a, x0 + n),
                      AlphaRow(Contents(fg), a, x0 + n), false, Associated(info, a));
    }
    ColorRowDone(out[..], Contents(bg), Contents(fg), p, x0, n, color, info);
  }

  // The colour's own alpha channel, when the colour is blended over.
  ghost predicate AlphaDone(t: seq<real>, bg: seq<seq<real>>, fg: seq<seq<real>>, x0: nat, n: nat, color: PatchBlending)
    requires 3 + color.alphaChannel < |bg| && |bg| == |fg| && Wide(bg, x0 + n) && Wide(fg, x0 + n)
  {
    var b, f := bg[3 + color.alphaChannel], fg[3 + color.alphaChannel];
    n <= |t| && forall x: nat | x < n ::
      t[x] == Sample(color, b[x0 + x], b[x0 + x], f[x0 + x], f[x0 + x], true, false)
  }

  lemma OverPlaneDone(t: seq<real>, bg: seq<seq<real>>, fg: seq<seq<real>>, p: nat, x0: nat, n: nat,
                      color: PatchBlending, info: seq<ExtraChannelInfo>)
    requires p < 3 && |bg| == |fg| == 3 + |info| && Wide(bg, x0 + n) && Wide(fg, x0 + n) && n <= |t|
    requires SetsAlpha(color, info) && color.alphaChannel < |info|
    requires var a, associated := color.alphaChannel, info[color.alphaChannel].alphaAssociated;
      if color.mode.BlendAbove? then OverRow(t, bg[p], bg[3 + a], fg[p], fg[3 + a], x0, n, associated, color.clamp)
      else OverRow(t, fg[p], fg[3 + a], bg[p], bg[3 + a], x0, n, associated, color.clamp)
    ensures ColorDone(t, bg, fg, p, x0, n, color, info)
  {
    hide OverSample, Clamped, HasAlpha;
  }

  lemma OverAlphaPlaneDone(t: seq<real>, bg: seq<seq<real>>, fg: seq<seq<real>>, x0: nat, n: nat, color: PatchBlending)
    requires 3 + color.alphaChannel < |bg| && |bg| == |fg| && Wide(bg, x0 + n) && Wide(fg, x0 + n) && n <= |t|
    requires color.mode.BlendAbove? || color.mode.BlendBelow?
    requires var a := color.alphaChannel;
      if color.mode.BlendAbove? then OverAlphaRow(t, bg[3 + a], fg[3 + a], x0, n, color.clamp)
      else OverAlphaRow(t, fg[3 + a], bg[3 + a], x0, n, color.clamp)
    ensures AlphaDone(t, bg, fg, x0, n, color)
  {
    hide OverAlpha, Clamped;
  }

  method BlendColorOver(bg: seq<array<real>>, fg: seq<array<real>>, tmp: seq<array<real>>, x0: nat, n: nat,
                        color: PatchBlending, info: seq<ExtraChannelInfo>)
    requires |bg| == |fg| == |tmp| == 3 + |info| && SetsAlpha(color, info) && color.alphaChannel < |info|
    requires Reach(bg, x0 + n) && Reach(fg, x0 + n) && Reach(tmp, n) && Distinct(tmp)
    requires forall c: nat | c < |tmp| :: NotAmong(tmp[c], bg) && NotAmong(tmp[c], fg)
    modifies tmp[0], tmp[1], tmp[2], tmp[3 + color.alphaChannel]
    ensures forall p: nat | p < 3 :: ColorDone(tmp[p][..], Contents(bg), Contents(fg), p, x0, n, color, info)
    ensures AlphaDone(tmp[3 + color.alphaChannel][..], Contents(bg), Contents(fg), x0, n, color)
  {
    hide Wide, OverRow, OverAlphaRow, ColorDone, AlphaDone, HasAlpha;
    WideContents(bg, x0 + n);
    WideContents(fg, x0 + n);
    var a := color.alphaChannel;
    var below := BlendingLayer(bg[0], bg[1], bg[2], bg[3 + a]);
    var above := BlendingLayer(fg[0], fg[1], fg[2], fg[3 + a]);
    var out := BlendingLayer(tmp[0], tmp[1], tmp[2], tmp[3 + a]);
    if color.mode.BlendAbove? {
      PerformAlphaBlendingColor(below, above, out, x0, n, info[a].alphaAssociated, color.clamp);
    } else {
      PerformAlphaBlendingColor(above, below, out, x0, n, info[a].alphaAssociated, color.clamp);
    }
    ghost var b, f := Contents(bg), Contents(fg);
    OverPlaneDone(tmp[0][..], b, f, 0, x0, n, color, info);
    OverPlaneDone(tmp[1][..], b, f, 1, x0, n, color, info);
    OverPlaneDone(tmp[2][..], b, f, 2, x0, n, color, info);
    OverAlphaPlaneDone(tmp[3 + a][..], b, f, x0, n, color);
  }

  method StoreRow(src: array<real>, out: array<real>, x0: nat, n: nat)
    requires Long(src, n) && Long(out, x0 + n) && out != src
    modifies out
    ensures out[..] == Stored(old(out[..]), src[..], x0, n)
  {
    for x := 0 to n
      invariant out[..] == Stored(old(out[..]), src[..], x0, x)
    {
      out[x0 + x] := src[x];
    }
  }

  // The row with n samples from x0 on replaced.
  ghost function Stored(row: seq<real>, src: seq<real>, x0: nat, n: nat): seq<real>
    requires n <= |src| && x0 + n <= |row|
  {
    seq(|row|, k requires 0 <= k < |row| => if x0 <= k < x0 + n then src[k - x0] else row[k])
  }

  // Plane c is done, in the way its rule asks for.
  ghost predicate PlaneDone(t: seq<real>, bg: seq<seq<real>>, fg: seq<seq<real>>, c: nat, x0: nat, n: nat,
                            color: PatchBlending, ec: seq<PatchBlending>, info: seq<ExtraChannelInfo>)
    requires |bg| == |fg| == 3 + |ec| && c < |bg| && Wide(bg, x0 + n) && Wide(fg, x0 + n)
  {
    if c < 3 then ColorDone(t, bg, fg, c, x0, n, color, info)
    else if SetsAlpha(color, info) && c == 3 + color.alphaChannel then AlphaDone(t, bg, fg, x0, n, color)
    else ExtraDone(t, bg, fg, c - 3, x0, n, ec[c - 3], info)
  }

  lemma PlaneBlended(t: seq<real>, bg: seq<seq<real>>, fg: seq<seq<real>>, c: nat, x0: nat, n: nat,
                     color: PatchBlending, ec: seq<PatchBlending>, info: seq<ExtraChannelInfo>)
    requires |bg| == |fg| == 3 + |ec| && c < |bg| && Wide(bg, x0 + n) && Wide(fg, x0 + n)
    requires PlaneDone(t, bg, fg, c, x0, n, color, ec, info)
    ensures n <= |t|
    ensures forall x: nat | x < n ::
              t[x] == BlendedSample(PixelAt(bg, x0 + x), PixelAt(fg, x0 + x), c, color, ec, info)
  {
    hide Sample, ColorSample, ExtraSample, SetsAlpha;
  }

  lemma AllBlended(t: seq<seq<real>>, bg: seq<seq<real>>, fg: seq<seq<real>>, x0: nat, n: nat, color: PatchBlending,
                   ec: seq<PatchBlending>, info: seq<ExtraChannelInfo>)
    requires |t| == |bg| == |fg| == 3 + |ec| && Wide(bg, x0 + n) && Wide(fg, x0 + n)
    requires forall c: nat | c < |t| :: PlaneDone(t[c], bg, fg, c, x0, n, color, ec, info)
    ensures Blended(t, bg, fg, x0, n, color, ec, info)
  {
    hide BlendedSample, PlaneDone;
    forall c: nat | c < |t|
      ensures n <= |t[c]|
      ensures forall x: nat | x < n ::
                t[c][x] == BlendedSample(PixelAt(bg, x0 + x), PixelAt(fg, x0 + x), c, color, ec, info)
    {
      PlaneBlended(t[c], bg, fg, c, x0, n, color, ec, info);
    }
  }

  method AllocateRows(count: nat, n: nat) returns (rows: seq<array<real>>)
    ensures |rows| == count && Reach(rows, n) && Distinct(rows)
    ensures forall c: nat | c < count :: fresh(rows[c])
  {
    rows := [];
    while |rows| < count
      invariant |rows| <= count && Reach(rows, n) && Distinct(rows)
      invariant forall c: nat | c < |rows| :: fresh(rows[c])
    {
      var row := new real[n];
      rows := rows + [row];
    }
  }

  ghost predicate Fits(bg: seq<array<real>>, fg: seq<array<real>>, tmp: seq<array<real>>, n: nat, width: nat)
    reads bg
  {
    && |bg| == |fg| == |tmp| && Reach(bg, width) && SharedOnlyIfBlank(bg, width) && Reach(fg, width) && Distinct(fg)
    && Reach(tmp, n) && Distinct(tmp) && forall c: nat | c < |tmp| :: NotAmong(tmp[c], bg) && NotAmong(tmp[c], fg)
  }

  method BlendExtras(bg: seq<array<real>>, fg: seq<array<real>>, tmp: seq<array<real>>, x0: nat, n: nat,
                     color: PatchBlending, ec: seq<PatchBlending>, info: seq<ExtraChannelInfo>)
    requires Fits(bg, fg, tmp, n, x0 + n) && |bg| == 3 + |info| && ChannelsExist(color, ec, info)
    modifies tmp
    ensures Contents(bg) == old(Contents(bg)) && Contents(fg) == old(Contents(fg))
    ensures forall i: nat | i < |ec| :: Wide(Contents(bg), x0 + n) && Wide(Contents(fg), x0 + n) &&
              ExtraDone(tmp[3 + i][..], Contents(bg), Contents(fg), i, x0, n, ec[i], info)
  {
    hide ExtraDone, Wide, SharedOnlyIfBlank;
    ghost var b, f := Contents(bg), Contents(fg);
    WideContents(bg, x0 + n);
    WideContents(fg, x0 + n);
    for i := 0 to |info|
      invariant Contents(bg) == b && Contents(fg) == f
      invariant forall j: nat | j < i :: ExtraDone(tmp[3 + j][..], b, f, j, x0, n, ec[j], info)
    {
      BlendExtra(bg, fg, i, tmp[3 + i], x0, n, ec[i], info);
    }
  }

  method BlendColors(bg: seq<array<real>>, fg: seq<array<real>>, tmp: seq<array<real>>, x0: nat, n: nat,
                     color: PatchBlending, ec: seq<PatchBlending>, info: seq<ExtraChannelInfo>, hasAlpha: bool)
    requires Fits(bg, fg, tmp, n, x0 + n) && |bg| == 3 + |info| && ChannelsExist(color, ec, info)
    requires hasAlpha == HasAlpha(info) && Wide(Contents(bg), x0 + n) && Wide(Contents(fg), x0 + n)
    requires forall i: nat | i < |ec| :: ExtraDone(tmp[3 + i][..], Contents(bg), Contents(fg), i, x0, n, ec[i], info)
    modifies tmp
    ensures Contents(bg) == old(Contents(bg)) && Contents(fg) == old(Contents(fg))
    ensures Wide(Contents(bg), x0 + n) && Wide(Contents(fg), x0 + n)
    ensures forall c: nat | c < |tmp| :: PlaneDone(tmp[c][..], Contents(bg), Contents(fg), c, x0, n, color, ec, info)
  {
    hide ExtraDone, Wide, SharedOnlyIfBlank, ColorDone, AlphaDone, HasAlpha;
    ghost var b, f := Contents(bg), Contents(fg);
    if hasAlpha && (color.mode.BlendAbove? || color.mode.BlendBelow?) {
      BlendColorOver(bg, fg, tmp, x0, n, color, info);
    } else {
      for p := 0 to 3
        invariant Contents(bg) == b && Contents(fg) == f
        invariant forall q: nat | q < p :: ColorDone(tmp[q][..], b, f, q, x0, n, color, info)
        invariant forall i: nat | i < |ec| :: ExtraDone(tmp[3 + i][..], b, f, i, x0, n, ec[i], info)
      {
        BlendColorPlane(bg, fg, p, tmp[p], x0, n, color, info);
      }
    }
    assert Contents(bg) == b && Contents(fg) == f;
  }

  method StoreRows(tmp: seq<array<real>>, out: seq<array<real>>, x0: nat, n: nat)
    requires |tmp| == |out| && Reach(tmp, n) && Reach(out, x0 + n) && Distinct(out)
    requires forall c: nat | c < |tmp| :: NotAmong(tmp[c], out)
    modifies out
    ensures forall c: nat | c < |out| :: Contents(out)[c] == Stored(old(Contents(out))[c], old(Contents(tmp))[c], x0, n)
  {
    for i := 0 to |out|
      invariant forall c: nat | c < |tmp| :: tmp[c][..] == old(tmp[c][..])
      invariant forall c: nat | i <= c < |out| :: out[c][..] == old(out[c][..])
      invariant forall c: nat | c < i :: out[c][..] == Stored(old(out[c][..]), old(tmp[c][..]), x0, n)
    {
      StoreRow(tmp[i], out[i], x0, n);
    }
  }

  // Plane c at position k: blended inside the n pixels from x0 on, as it was elsewhere.
  ghost predicate BlendedAt(out: seq<seq<real>>, was: seq<seq<real>>, bg: seq<seq<real>>, fg: seq<seq<real>>, x0: nat,
                            n: nat, color: PatchBlending, ec: seq<PatchBlending>, info: seq<ExtraChannelInfo>, c: nat,
                            k: nat)
    requires |bg| == |fg| == 3 + |ec| && Wide(bg, x0 + n) && Wide(fg, x0 + n)
    requires c < |out| == |was| == |bg| && k < |out[c]| == |was[c]|
  {
    out[c][k] == if x0 <= k < x0 + n then BlendPixel(PixelAt(bg, k), PixelAt(fg, k), color, ec, info)[c] else was[c][k]
  }

  ghost predicate IsBlend(out: seq<seq<real>>, was: seq<seq<real>>, bg: seq<seq<real>>, fg: seq<seq<real>>, x0: nat,
                          n: nat, color: PatchBlending, ec: seq<PatchBlending>, info: seq<ExtraChannelInfo>)
    requires |out| == |was| == |bg| == |fg| == 3 + |ec| && Wide(bg, x0 + n) && Wide(fg, x0 + n)
  {
    && (forall c: nat | c < |out| :: |out[c]| == |was[c]|)
    && forall c: nat, k: nat | c < |out| && k < |out[c]| :: BlendedAt(out, was, bg, fg, x0, n, color, ec, info, c, k)
  }

  lemma StoredIsBlend(out: seq<seq<real>>, was: seq<seq<real>>, t: seq<seq<real>>, bg: seq<seq<real>>,
                      fg: seq<seq<real>>,
                      x0: nat, n: nat, color: PatchBlending, ec: seq<PatchBlending>, info: seq<ExtraChannelInfo>)
    requires |t| == |out| == |was| == |bg| == |fg| == 3 + |ec| && Wide(bg, x0 + n) && Wide(fg, x0 + n)
    requires Wide(was, x0 + n) && Blended(t, bg, fg, x0, n, color, ec, info)
    requires forall c: nat | c < |out| :: out[c] == Stored(was[c], t[c], x0, n)
    ensures IsBlend(out, was, bg, fg, x0, n, color, ec, info)
  {
    hide BlendedAt, Blended, BlendPixel;
    forall c: nat, k: nat | c < |out| && k < |out[c]|
      ensures BlendedAt(out, was, bg, fg, x0, n, color, ec, info, c, k)
    {
      StoredIsBlendAt(out, was, t, bg, fg, x0, n, color, ec, info, c, k);
    }
  }

  lemma StoredIsBlendAt(out: seq<seq<real>>, was: seq<seq<real>>, t: seq<seq<real>>, bg: seq<seq<real>>,
                        fg: seq<seq<real>>, x0: nat, n: nat, color: PatchBlending, ec: seq<PatchBlending>,
                        info: seq<ExtraChannelInfo>, c: nat, k: nat)
    requires |t| == |out| == |was| == |bg| == |fg| == 3 + |ec| && Wide(bg, x0 + n) && Wide(fg, x0 + n)
    requires Wide(was, x0 + n) && Blended(t, bg, fg, x0, n, color, ec, info)
    requires c < |out| && k < |out[c]| == |was[c]| && out[c] == Stored(was[c], t[c], x0, n)
    ensures BlendedAt(out, was, bg, fg, x0, n, color, ec, info, c, k)
  {
    hide BlendedSample;
    if x0 <= k < x0 + n {
      var x: nat := k - x0;
      assert out[c][k] == t[c][x] && x0 + x == k;
    }
  }

  method FindAlpha(info: seq<ExtraChannelInfo>) returns (hasAlpha: bool)
    ensures hasAlpha == HasAlpha(info)
  {
    for i := 0 to |info|
      invariant !HasAlpha(info[..i])
    {
      if info[i].isAlpha {
        return true;
      }
      assert info[..i + 1] == info[..i] + [info[i]];
    }
    assert info[..|info|] == info;
    return false;
  }

  // Blends n pixels at x0 of `fg` over `bg` into `out`, whose rows may be those
  // of `fg`: every output depends on the inputs from before the call only.
  method PerformBlending(bg: seq<array<real>>, fg: seq<array<real>>, out: seq<array<real>>, x0: nat, n: nat,
                         color: PatchBlending, ec: seq<PatchBlending>, info: seq<ExtraChannelInfo>)
    requires |bg| == |fg| == |out| == 3 + |info| && ChannelsExist(color, ec, info)
    requires Reach(bg, x0 + n) && SharedOnlyIfBlank(bg, x0 + n)
    requires Reach(fg, x0 + n) && Distinct(fg) && Reach(out, x0 + n) && Distinct(out)
    requires Wide(Contents(bg), x0 + n) && Wide(Contents(fg), x0 + n)
    modifies out
    ensures IsBlend(Contents(out), old(Contents(out)), old(Contents(bg)), old(Contents(fg)), x0, n, color, ec, info)
  {
    hide PlaneDone, Wide, SharedOnlyIfBlank, ExtraDone, IsBlend, Blended, HasAlpha;
    WideContents(out, x0 + n);
    ghost var b, f, o := Contents(bg), Contents(fg), Contents(out);
    var hasAlpha := FindAlpha(info);
    var tmp := AllocateRows(3 + |info|, n);
    // Extra channels first, so that they use the opacity from before the blending.
    BlendExtras(bg, fg, tmp, x0, n, color, ec, info);
    BlendColors(bg, fg, tmp, x0, n, color, ec, info, hasAlpha);
    ghost var t := Contents(tmp);
    AllBlended(t, b, f, x0, n, color, ec, info);
    assert Contents(out) == o;
    StoreRows(tmp, out, x0, n);
    StoredIsBlend(Contents(out), o, t, b, f, x0, n, color, ec, info);
  }
}
