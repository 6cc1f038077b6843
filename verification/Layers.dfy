// Replaying the layers on a decoder with four reference slots. The pixel rule is
// that of libjxl/lib/jxl/blending.cc; the use of slots follows
// libjxl/lib/jxl/render_pipeline/stage_blending.cc and frame_header.h.
module Layers {
  import opened FrameDiff
  import opened Multiframe
  import B = Blending

  // One pixel of the decoder: three colour planes, then the extra channels. A
  // gray image has equal colour planes; an alpha channel of the main image is
  // the first extra channel.
  type Planes = seq<real>

  function ColorOf(p: Pixel, channels: nat): seq<real>
    requires 1 <= channels <= 4 && |p.main| == channels
  {
    if channels <= 2 then [p.main[0], p.main[0], p.main[0]] else p.main[..3]
  }

  function PlanesOf(p: Pixel, channels: nat): (r: Planes)
    requires 1 <= channels <= 4 && |p.main| == channels
    ensures |r| == 3 + (if channels == 2 || channels == 4 then 1 else 0) + |p.extras|
  {
    ColorOf(p, channels) + (if channels == 2 || channels == 4 then [p.main[channels - 1]] else []) + p.extras
  }

  type Canvas = seq<seq<Planes>>

  datatype Slots = Slots(at: map<nat, Canvas>)

  // The file's extra channels; in mode blend_mask the mask comes last.
  function Infos(given: seq<B.ExtraChannelInfo>, mode: Mode): seq<B.ExtraChannelInfo> {
    given + (if mode == BlendMask then [B.ExtraChannelInfo(false, false)] else [])
  }

  // `given` describes the extra channels of such frames, without the mask.
  predicate Describes(given: seq<B.ExtraChannelInfo>, shape: Shape) {
    && 1 <= shape.channels <= 4 && |given| == MaskAlphaIndex(shape)
    && (shape.channels == 2 || shape.channels == 4 ==> given[0].isAlpha)
  }

  function PatchMode(mode: BlendMode): B.PatchBlendMode {
    match mode
    case Replace => B.Replace
    case Add => B.Add
    case Blend => B.BlendAbove
    case MulAdd => B.AlphaWeightedAddAbove
    case Mul => B.Mul
  }

  // Extra channels are blended in the same way as the colour.
  function Composed(header: LayerHeader, bg: Planes, fg: Planes, info: seq<B.ExtraChannelInfo>): Planes
    requires |bg| == |fg| == 3 + |info|
  {
    var blending := B.PatchBlending(PatchMode(header.mode), header.alpha, header.clamp);
    B.BlendPixel(bg, fg, blending, seq(|info|, _ => blending), info)
  }

  predicate InLayer(header: LayerHeader, x: nat, y: nat) {
    header.x0 <= x < header.x0 + header.xsize && header.y0 <= y < header.y0 + header.ysize
  }

  predicate IsCanvas(c: Canvas, shape: Shape, depth: nat) {
    && |c| == shape.height && (forall y: nat | y < |c| :: |c[y]| == shape.width)
    && forall y: nat, x: nat | y < |c| && x < shape.width :: |c[y][x]| == depth
  }

  // The background of a layer: its source slot, blank when nothing was stored.
  function Background(slots: Slots, source: nat, shape: Shape, depth: nat): (c: Canvas)
    requires source in slots.at ==> IsCanvas(slots.at[source], shape, depth)
    ensures IsCanvas(c, shape, depth)
  {
    if source in slots.at then slots.at[source] else seq(shape.height, _ => seq(shape.width, _ => seq(depth, _ => 0.0)))
  }

  // A slot that was never set is blank: a layer that is added to it is shown as it
  // is.
  lemma AddedOverUnset(slots: Slots, header: LayerHeader, shape: Shape, fg: Planes, info: seq<B.ExtraChannelInfo>,
                       y: nat, x: nat)
    requires header.source !in slots.at && header.mode == Add && |fg| == 3 + |info|
    requires y < shape.height && x < shape.width
    ensures Composed(header, Background(slots, header.source, shape, 3 + |info|)[y][x], fg, info) == fg
  {
  }

  predicate LayerFits(layer: Layer, shape: Shape, channels: nat, extras: nat) {
    && layer.header.x0 + layer.header.xsize <= shape.width && layer.header.y0 + layer.header.ysize <= shape.height
    && |layer.pixels| == layer.header.ysize && 1 <= channels <= 4
    && (forall y: nat | y < |layer.pixels| :: |layer.pixels[y]| == layer.header.xsize)
    && forall y: nat, x: nat | y < |layer.pixels| && x < layer.header.xsize ::
         |layer.pixels[y][x].main| == channels && |layer.pixels[y][x].extras| == extras
  }

  // The file: a canvas shape, its extra channels (mask included) and the layers.
  datatype File = File(shape: Shape, info: seq<B.ExtraChannelInfo>, extras: nat, layers: seq<Layer>)

  ghost predicate FileFits(file: File) {
    && 1 <= file.shape.channels <= 4
    && |file.info| == (if file.shape.channels == 2 || file.shape.channels == 4 then 1 else 0) + file.extras
    && forall i: nat | i < |file.layers| :: LayerFits(file.layers[i], file.shape, file.shape.channels, file.extras)
  }

  ghost predicate SlotsFit(slots: Slots, shape: Shape, depth: nat) {
    forall k :: k in slots.at ==> IsCanvas(slots.at[k], shape, depth)
  }

  // Pixel (x, y) after layer i is laid over a background.
  ghost function ShownAt(file: File, i: nat, bg: Canvas, y: nat, x: nat): (r: Planes)
    requires FileFits(file) && i < |file.layers| && IsCanvas(bg, file.shape, 3 + |file.info|)
    requires y < file.shape.height && x < file.shape.width
    ensures |r| == 3 + |file.info|
  {
    var layer := file.layers[i];
    if InLayer(layer.header, x, y) then
      Composed(layer.header, bg[y][x],
               PlanesOf(layer.pixels[y - layer.header.y0][x - layer.header.x0], file.shape.channels), file.info)
    else bg[y][x]
  }

  ghost function Shown(file: File, i: nat, slots: Slots): (c: Canvas)
    requires FileFits(file) && i < |file.layers| && SlotsFit(slots, file.shape, 3 + |file.info|)
    ensures IsCanvas(c, file.shape, 3 + |file.info|)
  {
    var bg := Background(slots, file.layers[i].header.source, file.shape, 3 + |file.info|);
    seq(file.shape.height, y requires 0 <= y < file.shape.height =>
      seq(file.shape.width, x requires 0 <= x < file.shape.width => ShownAt(file, i, bg, y, x)))
  }

  // A layer is kept when something can refer to it: it is not the last one, and
  // it names a slot or has no duration.
  predicate CanBeReferenced(header: LayerHeader, isLast: bool) {
    !isLast && (header.duration == 0 || header.saveAsReference != 0)
  }

  ghost function SlotsBefore(file: File, i: nat): (slots: Slots)
    requires FileFits(file) && i <= |file.layers|
    ensures SlotsFit(slots, file.shape, 3 + |file.info|)
  {
    if i == 0 then Slots(map[])
    else
      var before, header := SlotsBefore(file, i - 1), file.layers[i - 1].header;
      if CanBeReferenced(header, i == |file.layers|) then
        Slots(before.at[header.saveAsReference := Shown(file, i - 1, before)])
      else before
  }

  // What a viewer sees as frame i.
  ghost function Replayed(file: File, i: nat): (c: Canvas)
    requires FileFits(file) && i < |file.layers|
  {
    Shown(file, i, SlotsBefore(file, i))
  }

  // Layer j is stored in slot k: it is not the last one, it names the slot, and
  // for slot 0 it has no duration.
  predicate Stores(file: File, j: nat, k: nat) {
    && j + 1 < |file.layers| && file.layers[j].header.saveAsReference == k
    && (k == 0 ==> file.layers[j].header.duration == 0)
  }

  predicate LastStored(file: File, i: nat, k: nat, j: nat) {
    j < i && Stores(file, j, k) && forall m: nat | j < m < i :: !Stores(file, m, k)
  }

  // A slot holds what the viewer saw with the last layer that was stored in it ...
  lemma {:induction false} SlotHoldsLast(file: File, i: nat, k: nat, j: nat)
    requires FileFits(file) && i <= |file.layers| && LastStored(file, i, k, j)
    ensures k in SlotsBefore(file, i).at && SlotsBefore(file, i).at[k] == Replayed(file, j)
  {
    hide FileFits, Shown;
    if j < i - 1 {
      assert !Stores(file, i - 1, k);
      SlotHoldsLast(file, i - 1, k, j);
    }
  }

  // ... and is unset before the first.
  lemma {:induction false} SlotIsUnset(file: File, i: nat, k: nat)
    requires FileFits(file) && i <= |file.layers| && forall j: nat | j < i :: !Stores(file, j, k)
    ensures k !in SlotsBefore(file, i).at
  {
    hide FileFits, Shown;
    if i > 0 {
      SlotIsUnset(file, i - 1, k);
      assert !Stores(file, i - 1, k);
    }
  }

  // ---------------------------------------------------------------------
  // What the viewer should see.

  function WantedPixel(p: Pixel, channels: nat, mode: Mode): Planes
    requires 1 <= channels <= 4 && |p.main| == channels
  {
    PlanesOf(if mode == BlendMask then WithMask(p, true) else p, channels)
  }

  // The planes show everything: different pixels look different, with the mask or
  // without. Gray is shown in all three colour planes.
  lemma PlanesTellPixels(p: Pixel, q: Pixel, channels: nat, mode: Mode)
    requires 1 <= channels <= 4 && |p.main| == |q.main| == channels && |p.extras| == |q.extras|
    ensures PlanesOf(p, channels) == PlanesOf(q, channels) <==> p == q
    ensures WantedPixel(p, channels, mode) == WantedPixel(q, channels, mode) <==> p == q
    ensures PlanesOf(p, channels)[0] == p.main[0]
    ensures channels <= 2 ==> PlanesOf(p, channels)[1] == PlanesOf(p, channels)[2] == p.main[0]
  {
    SamePlanes(p, q, channels);
    if mode == BlendMask {
      var a, b := WithMask(p, true), WithMask(q, true);
      SamePlanes(a, b, channels);
      assert a == b ==> p.extras == a.extras[..|p.extras|] == q.extras;
    }
  }

  // Where a channel of the main image is shown.
  function PlaneOfChannel(channels: nat, i: nat): nat {
    if channels == 2 && i == 1 then 3 else i
  }

  lemma ChannelIsShown(p: Pixel, channels: nat, i: nat)
    requires 1 <= channels <= 4 && |p.main| == channels && i < channels
    ensures PlaneOfChannel(channels, i) < |PlanesOf(p, channels)|
    ensures PlanesOf(p, channels)[PlaneOfChannel(channels, i)] == p.main[i]
  {
  }

  lemma SamePlanes(p: Pixel, q: Pixel, channels: nat)
    requires 1 <= channels <= 4 && |p.main| == |q.main| == channels && |p.extras| == |q.extras|
    ensures PlanesOf(p, channels) == PlanesOf(q, channels) ==> p == q
  {
    var a, b := PlanesOf(p, channels), PlanesOf(q, channels);
    if a == b {
      assert p.extras == a[|a| - |p.extras|..] && q.extras == b[|b| - |q.extras|..];
      forall i: nat | i < channels
        ensures p.main[i] == q.main[i]
      {
        ChannelIsShown(p, channels, i);
        ChannelIsShown(q, channels, i);
      }
    }
  }

  ghost function Wanted(frame: Frame, mode: Mode): Canvas
    requires frame.Valid() && 1 <= frame.shape.channels <= 4
  {
    seq(frame.shape.height, y requires 0 <= y < frame.shape.height =>
      seq(frame.shape.width, x requires 0 <= x < frame.shape.width =>
        WantedPixel(frame.rows[y][x], frame.shape.channels, mode)))
  }

  // In mode blend_mask without an alpha channel the colour of the layer is
  // copied: an unchanged pixel inside the layer has to be black.
  ghost predicate Reproducible(given: seq<B.ExtraChannelInfo>, frames: seq<Frame>, mode: Mode, ratio: real, i: nat)
    requires Uniform(frames) && i < |frames| && 1 <= frames[i].shape.channels <= 4
  {
    mode == BlendMask && i > 0 && !B.HasAlpha(given) ==>
      var box := PlanOf(frames, mode, ratio, i).box;
      forall y: nat, x: nat | Inside(box, x, y) && y < frames[i].shape.height && x < frames[i].shape.width ::
        BlackIfUnchanged(frames, i, y, x)
  }

  ghost predicate BlackIfUnchanged(frames: seq<Frame>, i: nat, y: nat, x: nat)
    requires Uniform(frames) && 1 <= i < |frames| && y < frames[i].shape.height && x < frames[i].shape.width
    requires 1 <= frames[i].shape.channels <= 4
  {
    var p, channels := frames[i].rows[y][x], frames[i].shape.channels;
    p == frames[i - 1].rows[y][x] ==> Black(p, channels)
  }

  // ---------------------------------------------------------------------
  // One pixel.

  lemma ReplacedPixel(header: LayerHeader, bg: Planes, fg: Planes, info: seq<B.ExtraChannelInfo>)
    requires |bg| == |fg| == 3 + |info| && header.mode == Replace
    ensures Composed(header, bg, fg, info) == fg
  {
    hide B.HasAlpha;
  }

  // Adding what changed gives the new pixel.
  lemma AddedPixel(header: LayerHeader, p: Pixel, q: Pixel, channels: nat, info: seq<B.ExtraChannelInfo>)
    requires 1 <= channels <= 4 && |p.main| == |q.main| == channels && |p.extras| == |q.extras|
    requires |PlanesOf(p, channels)| == 3 + |info| && header.mode == Add
    ensures Composed(header, PlanesOf(q, channels), PlanesOf(Minus(p, q), channels), info) == PlanesOf(p, channels)
  {
    var bg, fg, wanted := PlanesOf(q, channels), PlanesOf(Minus(p, q), channels), PlanesOf(p, channels);
    var result := Composed(header, bg, fg, info);
    forall c | 0 <= c < |wanted|
      ensures result[c] == wanted[c]
    {
      SummedSample(header, bg, fg, info, c);
      PlanesOfMinus(p, q, channels, c);
    }
  }

  lemma SummedSample(header: LayerHeader, bg: Planes, fg: Planes, info: seq<B.ExtraChannelInfo>, c: int)
    requires |bg| == |fg| == 3 + |info| && header.mode == Add && 0 <= c < |bg|
    ensures Composed(header, bg, fg, info)[c] == bg[c] + fg[c]
  {
    hide B.HasAlpha;
  }

  lemma PlanesOfMinus(p: Pixel, q: Pixel, channels: nat, c: int)
    requires 1 <= channels <= 4 && |p.main| == |q.main| == channels && |p.extras| == |q.extras|
    requires 0 <= c < |PlanesOf(p, channels)|
    ensures PlanesOf(q, channels)[c] + PlanesOf(Minus(p, q), channels)[c] == PlanesOf(p, channels)[c]
  {
  }

  // Over an opaque background with an opaque mask, the mask sample m chooses.
  lemma MaskedSample(header: LayerHeader, bg: Planes, fg: Planes, given: seq<B.ExtraChannelInfo>, c: int, m: real)
    requires |bg| == |fg| == 3 + |given| + 1 && 0 <= c < |bg|
    requires header.mode == Blend && header.alpha == |given| && !header.clamp
    requires bg[3 + |given|] == 1.0 && fg[3 + |given|] == m && (m == 0.0 || m == 1.0)
    ensures var r := Composed(header, bg, fg, Infos(given, BlendMask));
      r[c] == if m == 1.0 || (c < 3 && !B.HasAlpha(given)) then fg[c] else bg[c]
  {
    HasAlphaWithMask(given);
    B.OverExtremes(bg[c], 1.0, fg[c]);
    hide B.HasAlpha, B.Over, B.OverAssociated, B.OverAlpha;
  }

  lemma HasAlphaWithMask(given: seq<B.ExtraChannelInfo>)
    ensures B.HasAlpha(Infos(given, BlendMask)) == B.HasAlpha(given)
  {
    var info := Infos(given, BlendMask);
    if i :| 0 <= i < |given| && given[i].isAlpha {
      assert info[i].isAlpha;
    }
    if i :| 0 <= i < |info| && info[i].isAlpha {
      assert i < |given| && given[i].isAlpha;
    }
  }

  ghost predicate Black(p: Pixel, channels: nat)
    requires 1 <= channels <= 4 && |p.main| == channels
  {
    forall c: nat | c < 3 :: ColorOf(p, channels)[c] == 0.0
  }

  // A masked layer over the previous frame shows the new pixel, but for the
  // colour of unchanged pixels when there is no alpha channel.
  lemma MaskedPixel(header: LayerHeader, p: Pixel, q: Pixel, given: seq<B.ExtraChannelInfo>, channels: nat)
    requires 1 <= channels <= 4 && |p.main| == |q.main| == channels && |p.extras| == |q.extras|
    requires |PlanesOf(p, channels)| == 3 + |given|
    requires header.mode == Blend && header.alpha == |given| && !header.clamp
    ensures var fg := PlanesOf(if p != q then WithMask(p, true) else WithMask(Zeroed(p), false), channels);
      var r := Composed(header, WantedPixel(q, channels, BlendMask), fg, Infos(given, BlendMask));
      r == WantedPixel(p, channels, BlendMask) <==> (p == q && !B.HasAlpha(given) ==> Black(p, channels))
  {
    var bg, wanted := WantedPixel(q, channels, BlendMask), WantedPixel(p, channels, BlendMask);
    var m := if p != q then 1.0 else 0.0;
    var fg := PlanesOf(if p != q then WithMask(p, true) else WithMask(Zeroed(p), false), channels);
    var r := Composed(header, bg, fg, Infos(given, BlendMask));
    forall c | 0 <= c < |bg|
      ensures r[c] == if m == 1.0 || (c < 3 && !B.HasAlpha(given)) then fg[c] else bg[c]
    {
      MaskedSample(header, bg, fg, given, c, m);
    }
    hide Composed, B.HasAlpha;
    if p != q {
      assert r == fg == wanted;
    } else if B.HasAlpha(given) {
      assert r == bg == wanted;
    } else {
      CopiedColor(r, p, channels);
    }
  }

  // The copied colour is black, so it is right exactly where black was wanted.
  lemma CopiedColor(r: Planes, p: Pixel, channels: nat)
    requires 1 <= channels <= 4 && |p.main| == channels
    requires var wanted, zeroed := WantedPixel(p, channels, BlendMask), PlanesOf(WithMask(Zeroed(p), false), channels);
      |r| == |wanted| && forall c: nat | c < |r| :: r[c] == if c < 3 then zeroed[c] else wanted[c]
    ensures r == WantedPixel(p, channels, BlendMask) <==> Black(p, channels)
  {
    var wanted := WantedPixel(p, channels, BlendMask);
    forall c: nat | c < 3
      ensures r[c] == 0.0 && wanted[c] == ColorOf(p, channels)[c]
    {
    }
    if Black(p, channels) {
      assert forall c: nat | c < |r| :: r[c] == wanted[c];
    }
  }

  // ---------------------------------------------------------------------
  // One frame.

  ghost predicate Encodes(file: File, frames: seq<Frame>, mode: Mode, ratio: real, given: seq<B.ExtraChannelInfo>,
                          durations: seq<nat>)
  {
    && Uniform(frames) && frames != [] && Describes(given, frames[0].shape)
    && file.shape == frames[0].shape && file.info == Infos(given, mode)
    && file.extras == frames[0].shape.extras + (if mode == BlendMask then 1 else 0)
    && |file.layers| == |frames| == |durations|
    && forall i: nat | i < |frames| :: IsPlanned(file.layers[i], frames, mode, ratio, i, durations[i])
  }

  lemma PayloadDepth(frames: seq<Frame>, mode: Mode, i: nat, y: nat, x: nat)
    requires Uniform(frames) && i < |frames| && y < frames[i].shape.height && x < frames[i].shape.width
    ensures var p := PayloadPixel(frames, mode, i, y, x);
      |p.main| == frames[i].shape.channels
        && |p.extras| == frames[i].shape.extras + (if mode == BlendMask then 1 else 0)
  {
  }

  lemma EncodedFileFits(file: File, frames: seq<Frame>, mode: Mode, ratio: real, given: seq<B.ExtraChannelInfo>,
                        durations: seq<nat>)
    requires Encodes(file, frames, mode, ratio, given, durations)
    ensures FileFits(file)
  {
    hide PlanOf;
    forall i: nat | i < |file.layers|
      ensures LayerFits(file.layers[i], file.shape, file.shape.channels, file.extras)
    {
      assert IsPlanned(file.layers[i], frames, mode, ratio, i, durations[i]);
      PlannedLayerFits(file.layers[i], frames, mode, ratio, i, durations[i]);
    }
  }

  lemma PlannedLayerFits(layer: Layer, frames: seq<Frame>, mode: Mode, ratio: real, i: nat, duration: nat)
    requires Uniform(frames) && i < |frames| && 1 <= frames[0].shape.channels <= 4
    requires IsPlanned(layer, frames, mode, ratio, i, duration)
    ensures LayerFits(layer, frames[0].shape, frames[0].shape.channels,
                      frames[0].shape.extras + (if mode == BlendMask then 1 else 0))
  {
    hide PlanOf, PayloadPixel;
    var box := PlanOf(frames, mode, ratio, i).box;
    forall y: nat, x: nat | y < |layer.pixels| && x < layer.header.xsize
      ensures |layer.pixels[y][x].main| == frames[0].shape.channels
      ensures |layer.pixels[y][x].extras| == frames[0].shape.extras + (if mode == BlendMask then 1 else 0)
    {
      PayloadDepth(frames, mode, i, box.y0 + y, box.x0 + x);
    }
  }

  // The frame that a slot stands for, at frame i.
  function SourceFrame(slot: nat, i: nat): nat
    requires i > 0
  {
    if slot == 2 then 0 else i - 1
  }

  // A pixel outside the box of a cropped layer is that of the source frame.
  lemma OutsideUnchanged(current: Frame, reference: Frame, y: nat, x: nat)
    requires current.Valid() && reference.Valid() && current.shape == reference.shape
    requires y < current.shape.height && x < current.shape.width && !Inside(Stats(current, reference).bbox, x, y)
    ensures current.rows[y][x] == reference.rows[y][x]
  {
    var mask := Changed(current, reference);
    BoxIsTight(mask, current.shape.width, Box(0, 0, 0, 0));
    assert !mask[y][x];
  }

  // Slots 1 and 2 only, and no crop or blending without one of them.
  lemma PlanShape(frames: seq<Frame>, mode: Mode, ratio: real, i: nat)
    requires Uniform(frames) && i < |frames|
    ensures var plan := PlanOf(frames, mode, ratio, i);
      && (plan.slot == 0 || plan.slot == 1 || plan.slot == 2) && (i == 0 ==> plan.slot == 0)
      && (plan.slot == 0 ==> !plan.crop && plan.blend == Replace)
      && (!plan.crop ==> plan.box == WholeCanvas(frames[i].shape))
      && (plan.blend == Blend <==> mode == BlendMask && i > 0) && (plan.blend == Add <==> mode == Additive && i > 0)
      && (plan.blend == Blend || plan.blend == Add || plan.blend == Replace)
      && (plan.blend == Blend || plan.blend == Add ==> plan.slot == 1)
      && (plan.crop ==> plan.box == Stats(frames[i], frames[SourceFrame(plan.slot, i)]).bbox)
  {
    hide Stats, Better, Crops;
  }

  ghost predicate PixelReproducible(given: seq<B.ExtraChannelInfo>, frames: seq<Frame>, mode: Mode, ratio: real, i: nat,
                                    y: nat, x: nat)
    requires Uniform(frames) && i < |frames| && 1 <= frames[i].shape.channels <= 4
    requires y < frames[i].shape.height && x < frames[i].shape.width
  {
    mode == BlendMask && i > 0 && !B.HasAlpha(given) && Inside(PlanOf(frames, mode, ratio, i).box, x, y) ==>
      BlackIfUnchanged(frames, i, y, x)
  }

  // The pixel that the background has to hold, if the layer looks at it.
  ghost predicate BackgroundIs(bg: Canvas, frames: seq<Frame>, mode: Mode, ratio: real, i: nat, y: nat, x: nat)
    requires Uniform(frames) && i < |frames| && 1 <= frames[0].shape.channels <= 4
    requires y < frames[0].shape.height && x < frames[0].shape.width && y < |bg| && x < |bg[y]|
  {
    var slot := PlanOf(frames, mode, ratio, i).slot;
    i > 0 && slot != 0 ==>
      bg[y][x] == WantedPixel(frames[SourceFrame(slot, i)].rows[y][x], frames[0].shape.channels, mode)
  }

  lemma ShownOutside(file: File, frames: seq<Frame>, mode: Mode, ratio: real, given: seq<B.ExtraChannelInfo>,
                     durations: seq<nat>, i: nat, bg: Canvas, y: nat, x: nat)
    requires Encodes(file, frames, mode, ratio, given, durations) && FileFits(file) && i < |frames|
    requires IsCanvas(bg, file.shape, 3 + |file.info|) && y < file.shape.height && x < file.shape.width
    requires BackgroundIs(bg, frames, mode, ratio, i, y, x) && !Inside(PlanOf(frames, mode, ratio, i).box, x, y)
    ensures ShownAt(file, i, bg, y, x) == WantedPixel(frames[i].rows[y][x], frames[0].shape.channels, mode)
  {
    hide PlanOf, Composed, IsPayload, Stats;
    PlanShape(frames, mode, ratio, i);
    var plan := PlanOf(frames, mode, ratio, i);
    assert IsPlanned(file.layers[i], frames, mode, ratio, i, durations[i]);
    assert plan.crop && i > 0;
    OutsideUnchanged(frames[i], frames[SourceFrame(plan.slot, i)], y, x);
  }

  lemma ShownInside(file: File, frames: seq<Frame>, mode: Mode, ratio: real, given: seq<B.ExtraChannelInfo>,
                    durations: seq<nat>, i: nat, bg: Canvas, y: nat, x: nat)
    requires Encodes(file, frames, mode, ratio, given, durations) && FileFits(file) && i < |frames|
    requires IsCanvas(bg, file.shape, 3 + |file.info|) && y < file.shape.height && x < file.shape.width
    requires Inside(PlanOf(frames, mode, ratio, i).box, x, y)
    ensures var fg := PlanesOf(PayloadPixel(frames, mode, i, y, x), frames[0].shape.channels);
      |fg| == 3 + |file.info| && ShownAt(file, i, bg, y, x) == Composed(file.layers[i].header, bg[y][x], fg, file.info)
  {
    hide PlanOf, Composed, PayloadPixel;
    PayloadDepth(frames, mode, i, y, x);
    var layer, box := file.layers[i], PlanOf(frames, mode, ratio, i).box;
    assert IsPlanned(layer, frames, mode, ratio, i, durations[i]);
    var dy: nat, dx: nat := y - box.y0, x - box.x0;
    assert layer.pixels[dy][dx] == PayloadPixel(frames, mode, i, box.y0 + dy, box.x0 + dx);
  }

  // Each pixel of frame i is shown as wanted, exactly if it is reproducible.
  lemma ShownPixel(file: File, frames: seq<Frame>, mode: Mode, ratio: real, given: seq<B.ExtraChannelInfo>,
                   durations: seq<nat>, i: nat, bg: Canvas, y: nat, x: nat)
    requires Encodes(file, frames, mode, ratio, given, durations) && FileFits(file) && i < |frames|
    requires IsCanvas(bg, file.shape, 3 + |file.info|) && y < file.shape.height && x < file.shape.width
    requires BackgroundIs(bg, frames, mode, ratio, i, y, x)
    ensures ShownAt(file, i, bg, y, x) == WantedPixel(frames[i].rows[y][x], frames[0].shape.channels, mode)
       <==> PixelReproducible(given, frames, mode, ratio, i, y, x)
  {
    hide PlanOf, Composed, ShownAt, IsPayload, FileFits, Minus, Zeroed, PlanesOf, B.HasAlpha;
    PayloadDepth(frames, mode, i, y, x);
    var plan, header := PlanOf(frames, mode, ratio, i), file.layers[i].header;
    if !Inside(plan.box, x, y) {
      ShownOutside(file, frames, mode, ratio, given, durations, i, bg, y, x);
    } else {
      ShownInside(file, frames, mode, ratio, given, durations, i, bg, y, x);
      PlanShape(frames, mode, ratio, i);
      assert IsPlanned(file.layers[i], frames, mode, ratio, i, durations[i]);
      var channels := frames[0].shape.channels;
      var p := frames[i].rows[y][x];
      var fg := PlanesOf(PayloadPixel(frames, mode, i, y, x), channels);
      if plan.blend == Replace {
        ReplacedPixel(header, bg[y][x], fg, file.info);
      } else if plan.blend == Add {
        AddedPixel(header, p, frames[i - 1].rows[y][x], channels, file.info);
      } else {
        MaskedPixel(header, p, frames[i - 1].rows[y][x], given, channels);
      }
    }
  }

  // ---------------------------------------------------------------------
  // Whole files.

  // Slots 1 and 2 hold what the plan takes them to hold.
  ghost predicate SlotsMirror(slots: Slots, frames: seq<Frame>, mode: Mode, i: nat)
    requires Uniform(frames) && i < |frames| && 1 <= frames[0].shape.channels <= 4
  {
    && (i >= 1 && (mode == Auto || mode == First) ==> 2 in slots.at && slots.at[2] == Wanted(frames[0], mode))
    && (i >= 1 && (mode == Previous || mode == Additive || mode == BlendMask || (mode == Auto && i >= 2)) ==>
          1 in slots.at && slots.at[1] == Wanted(frames[i - 1], mode))
  }

  // A layer with a crop or a blend never looks at an unset slot.
  lemma SourceIsSet(slots: Slots, frames: seq<Frame>, mode: Mode, ratio: real, i: nat)
    requires Uniform(frames) && i < |frames| && 1 <= frames[0].shape.channels <= 4
             && SlotsMirror(slots, frames, mode, i)
    ensures var plan := PlanOf(frames, mode, ratio, i);
      plan.crop || plan.blend != Replace ==>
        plan.slot in slots.at && i > 0 && slots.at[plan.slot] == Wanted(frames[SourceFrame(plan.slot, i)], mode)
  {
    hide Stats, Better, Crops, Wanted;
  }

  lemma WantedFits(frames: seq<Frame>, mode: Mode, i: nat, given: seq<B.ExtraChannelInfo>)
    requires Uniform(frames) && i < |frames| && Describes(given, frames[0].shape)
    ensures IsCanvas(Wanted(frames[i], mode), frames[0].shape, 3 + |Infos(given, mode)|)
  {
  }

  lemma BackgroundFollows(file: File, frames: seq<Frame>, mode: Mode, ratio: real, given: seq<B.ExtraChannelInfo>,
                          durations: seq<nat>, slots: Slots, i: nat, y: nat, x: nat)
    requires Encodes(file, frames, mode, ratio, given, durations) && FileFits(file) && i < |frames|
    requires SlotsFit(slots, file.shape, 3 + |file.info|) && SlotsMirror(slots, frames, mode, i)
    requires y < file.shape.height && x < file.shape.width
    ensures BackgroundIs(Background(slots, file.layers[i].header.source, file.shape, 3 + |file.info|), frames, mode,
                         ratio, i, y, x)
  {
    hide PlanOf, IsPayload, FileFits, SlotsMirror;
    SourceIsSet(slots, frames, mode, ratio, i);
    PlanShape(frames, mode, ratio, i);
    PlannedSlot(frames, mode, ratio, i);
    assert IsPlanned(file.layers[i], frames, mode, ratio, i, durations[i]);
  }

  lemma PlannedSlot(frames: seq<Frame>, mode: Mode, ratio: real, i: nat)
    requires Uniform(frames) && i < |frames|
    ensures var plan := PlanOf(frames, mode, ratio, i); plan.slot != 0 ==> plan.crop || plan.blend != Replace
  {
    hide Stats, Better, Crops;
  }

  lemma PixelExact(file: File, frames: seq<Frame>, mode: Mode, ratio: real, given: seq<B.ExtraChannelInfo>,
                   durations: seq<nat>, slots: Slots, i: nat, y: nat, x: nat)
    requires Encodes(file, frames, mode, ratio, given, durations) && FileFits(file) && i < |frames|
    requires SlotsFit(slots, file.shape, 3 + |file.info|) && SlotsMirror(slots, frames, mode, i)
    requires y < file.shape.height && x < file.shape.width
    ensures IsCanvas(Wanted(frames[i], mode), file.shape, 3 + |file.info|)
    ensures Shown(file, i, slots)[y][x] == Wanted(frames[i], mode)[y][x]
       <==> PixelReproducible(given, frames, mode, ratio, i, y, x)
  {
    hide SlotsMirror, PixelReproducible, ShownAt, WantedPixel, IsPayload, PlanOf, BackgroundIs;
    WantedFits(frames, mode, i, given);
    BackgroundFollows(file, frames, mode, ratio, given, durations, slots, i, y, x);
    var bg := Background(slots, file.layers[i].header.source, file.shape, 3 + |file.info|);
    ShownPixel(file, frames, mode, ratio, given, durations, i, bg, y, x);
  }

  lemma SameCanvas(c: Canvas, d: Canvas, shape: Shape, depth: nat)
    requires IsCanvas(c, shape, depth) && IsCanvas(d, shape, depth)
    ensures c == d <==> forall y: nat, x: nat | y < shape.height && x < shape.width :: c[y][x] == d[y][x]
  {
    if forall y: nat, x: nat | y < shape.height && x < shape.width :: c[y][x] == d[y][x] {
      forall y: nat | y < |c|
        ensures c[y] == d[y]
      {
        assert |c[y]| == |d[y]|;
      }
    }
  }

  lemma AllPixelsReproducible(given: seq<B.ExtraChannelInfo>, frames: seq<Frame>, mode: Mode, ratio: real, i: nat)
    requires Uniform(frames) && i < |frames| && 1 <= frames[i].shape.channels <= 4
    ensures Reproducible(given, frames, mode, ratio, i)
       <==> forall y: nat, x: nat | y < frames[i].shape.height && x < frames[i].shape.width ::
              PixelReproducible(given, frames, mode, ratio, i, y, x)
  {
    hide PlanOf, BlackIfUnchanged, B.HasAlpha;
    var box := PlanOf(frames, mode, ratio, i).box;
    if Reproducible(given, frames, mode, ratio, i) {
      forall y: nat, x: nat | y < frames[i].shape.height && x < frames[i].shape.width
        ensures PixelReproducible(given, frames, mode, ratio, i, y, x)
      {
      }
    } else {
      var y: nat, x: nat :| Inside(box, x, y) && y < frames[i].shape.height && x < frames[i].shape.width
                         && !BlackIfUnchanged(frames, i, y, x);
      assert !PixelReproducible(given, frames, mode, ratio, i, y, x);
    }
  }

  lemma PixelsExact(file: File, frames: seq<Frame>, mode: Mode, ratio: real, given: seq<B.ExtraChannelInfo>,
                    durations: seq<nat>, slots: Slots, i: nat)
    requires Encodes(file, frames, mode, ratio, given, durations) && FileFits(file) && i < |frames|
    requires SlotsFit(slots, file.shape, 3 + |file.info|) && SlotsMirror(slots, frames, mode, i)
    ensures IsCanvas(Wanted(frames[i], mode), file.shape, 3 + |file.info|)
    ensures forall y: nat, x: nat | y < file.shape.height && x < file.shape.width ::
              (Shown(file, i, slots)[y][x] == Wanted(frames[i], mode)[y][x]
               <==> PixelReproducible(given, frames, mode, ratio, i, y, x))
  {
    WantedFits(frames, mode, i, given);
    hide SlotsMirror, PixelReproducible, Shown, Wanted, IsPlanned, SlotsFit;
    forall y: nat, x: nat | y < file.shape.height && x < file.shape.width
      ensures Shown(file, i, slots)[y][x] == Wanted(frames[i], mode)[y][x]
         <==> PixelReproducible(given, frames, mode, ratio, i, y, x)
    {
      PixelExact(file, frames, mode, ratio, given, durations, slots, i, y, x);
    }
  }

  // Frame i is shown as wanted exactly if all its pixels are reproducible.
  lemma FrameExact(file: File, frames: seq<Frame>, mode: Mode, ratio: real, given: seq<B.ExtraChannelInfo>,
                   durations: seq<nat>, slots: Slots, i: nat)
    requires Encodes(file, frames, mode, ratio, given, durations) && FileFits(file) && i < |frames|
    requires SlotsFit(slots, file.shape, 3 + |file.info|) && SlotsMirror(slots, frames, mode, i)
    ensures Shown(file, i, slots) == Wanted(frames[i], mode) <==> Reproducible(given, frames, mode, ratio, i)
  {
    hide Shown, Wanted, IsPlanned, Reproducible, SlotsFit, IsCanvas, SlotsMirror, PixelReproducible;
    PixelsExact(file, frames, mode, ratio, given, durations, slots, i);
    SameCanvas(Shown(file, i, slots), Wanted(frames[i], mode), file.shape, 3 + |file.info|);
    AllPixelsReproducible(given, frames, mode, ratio, i);
  }

  // A viewer sees frame i as wanted.
  ghost predicate Exact(file: File, frames: seq<Frame>, mode: Mode, i: nat)
    requires Uniform(frames) && i < |frames| && 1 <= frames[i].shape.channels <= 4
  {
    FileFits(file) && i < |file.layers| && Replayed(file, i) == Wanted(frames[i], mode)
  }

  ghost predicate AllExact(file: File, frames: seq<Frame>, mode: Mode, n: nat)
    requires Uniform(frames) && n <= |frames| && frames != [] && 1 <= frames[0].shape.channels <= 4
  {
    forall i: nat | i < n :: Exact(file, frames, mode, i)
  }

  ghost predicate AllReproducible(given: seq<B.ExtraChannelInfo>, frames: seq<Frame>, mode: Mode, ratio: real, n: nat)
    requires Uniform(frames) && n <= |frames| && frames != [] && 1 <= frames[0].shape.channels <= 4
  {
    forall i: nat | i < n :: Reproducible(given, frames, mode, ratio, i)
  }

  // As long as the replay is exact, the slots hold what the encoder's dictionary holds.
  lemma {:induction false} SlotsFollow(file: File, frames: seq<Frame>, mode: Mode, ratio: real,
                                       given: seq<B.ExtraChannelInfo>, durations: seq<nat>, i: nat)
    requires Encodes(file, frames, mode, ratio, given, durations) && FileFits(file) && i < |frames|
    requires AllExact(file, frames, mode, i)
    ensures SlotsMirror(SlotsBefore(file, i), frames, mode, i)
    decreases i
  {
    hide Exact, SlotsBefore, FileFits, IsPlanned;
    if i > 0 {
      SlotsFollow(file, frames, mode, ratio, given, durations, i - 1);
      assert Exact(file, frames, mode, i - 1);
      SlotsStep(file, frames, mode, ratio, given, durations, i);
    }
  }

  lemma SlotsStep(file: File, frames: seq<Frame>, mode: Mode, ratio: real, given: seq<B.ExtraChannelInfo>,
                  durations: seq<nat>, i: nat)
    requires Encodes(file, frames, mode, ratio, given, durations) && FileFits(file) && 1 <= i < |frames|
    requires SlotsMirror(SlotsBefore(file, i - 1), frames, mode, i - 1) && Exact(file, frames, mode, i - 1)
    ensures SlotsMirror(SlotsBefore(file, i), frames, mode, i)
  {
    hide IsPayload, FileFits, Shown, Wanted, PlanOf, Stats;
    assert IsPlanned(file.layers[i - 1], frames, mode, ratio, i - 1, durations[i - 1]);
    if i == 1 {
      EarlySave(frames, mode, ratio);
    } else {
      LaterSave(frames, mode, ratio, i - 1);
    }
  }

  lemma EarlySave(frames: seq<Frame>, mode: Mode, ratio: real)
    requires Uniform(frames) && frames != []
    ensures PlanOf(frames, mode, ratio, 0).save == FirstSave(mode, |frames|)
  {
  }

  // Frame i, after frames that were exact.
  lemma NextExact(file: File, frames: seq<Frame>, mode: Mode, ratio: real, given: seq<B.ExtraChannelInfo>,
                  durations: seq<nat>, i: nat)
    requires Encodes(file, frames, mode, ratio, given, durations) && FileFits(file) && i < |frames|
    requires AllExact(file, frames, mode, i)
    ensures Exact(file, frames, mode, i) <==> Reproducible(given, frames, mode, ratio, i)
  {
    SlotsFollow(file, frames, mode, ratio, given, durations, i);
    FrameExact(file, frames, mode, ratio, given, durations, SlotsBefore(file, i), i);
    hide Shown, Wanted, FileFits, IsPlanned, SlotsBefore, Reproducible;
  }

  lemma {:induction false} PrefixExact(file: File, frames: seq<Frame>, mode: Mode, ratio: real,
                                       given: seq<B.ExtraChannelInfo>, durations: seq<nat>, n: nat)
    requires Encodes(file, frames, mode, ratio, given, durations) && FileFits(file) && n <= |frames|
    ensures AllExact(file, frames, mode, n) <==> AllReproducible(given, frames, mode, ratio, n)
    decreases n
  {
    hide Exact, Reproducible, FileFits, IsPlanned;
    if n > 0 {
      PrefixExact(file, frames, mode, ratio, given, durations, n - 1);
      if AllExact(file, frames, mode, n - 1) {
        NextExact(file, frames, mode, ratio, given, durations, n - 1);
      }
    }
  }

  // The replay reproduces every frame with all its extra channels, in every
  // mode, exactly if every frame is reproducible: always, but for mode
  // blend_mask without an alpha channel.
  lemma ReplayIsExact(file: File, frames: seq<Frame>, mode: Mode, ratio: real, given: seq<B.ExtraChannelInfo>,
                      durations: seq<nat>)
    requires Encodes(file, frames, mode, ratio, given, durations)
    ensures FileFits(file)
    ensures AllExact(file, frames, mode, |frames|) <==> AllReproducible(given, frames, mode, ratio, |frames|)
    ensures mode != BlendMask || B.HasAlpha(given) ==> AllExact(file, frames, mode, |frames|)
  {
    EncodedFileFits(file, frames, mode, ratio, given, durations);
    PrefixExact(file, frames, mode, ratio, given, durations, |frames|);
    hide Exact, FileFits, IsPlanned, B.HasAlpha, BlackIfUnchanged;
  }

  // An image with its own alpha channel is reproduced in every mode.
  lemma AlphaImageIsExact(file: File, frames: seq<Frame>, mode: Mode, ratio: real, given: seq<B.ExtraChannelInfo>,
                          durations: seq<nat>)
    requires Encodes(file, frames, mode, ratio, given, durations)
    requires frames[0].shape.channels == 2 || frames[0].shape.channels == 4
    ensures AllExact(file, frames, mode, |frames|)
  {
    hide IsPlanned, AllExact;
    ReplayIsExact(file, frames, mode, ratio, given, durations);
    assert given[0].isAlpha;
  }

  // The slots that the plan counts on, whatever they hold.
  ghost predicate SlotsSet(slots: Slots, mode: Mode, i: nat) {
    && (i >= 1 && (mode == Auto || mode == First) ==> 2 in slots.at)
    && (i >= 1 && (mode == Previous || mode == Additive || mode == BlendMask || (mode == Auto && i >= 2)) ==>
          1 in slots.at)
  }

  lemma {:induction false} SlotsAreSet(file: File, frames: seq<Frame>, mode: Mode, ratio: real,
                                       given: seq<B.ExtraChannelInfo>, durations: seq<nat>, i: nat)
    requires Encodes(file, frames, mode, ratio, given, durations) && FileFits(file) && i < |frames|
    ensures SlotsSet(SlotsBefore(file, i), mode, i)
    decreases i
  {
    hide IsPayload, FileFits, Shown, PlanOf, Stats;
    if i > 0 {
      SlotsAreSet(file, frames, mode, ratio, given, durations, i - 1);
      assert IsPlanned(file.layers[i - 1], frames, mode, ratio, i - 1, durations[i - 1]);
      if i == 1 {
        EarlySave(frames, mode, ratio);
      } else {
        LaterSave(frames, mode, ratio, i - 1);
      }
    }
  }

  lemma PlannedIsSet(slots: Slots, frames: seq<Frame>, mode: Mode, ratio: real, i: nat)
    requires Uniform(frames) && i < |frames| && SlotsSet(slots, mode, i)
    ensures var plan := PlanOf(frames, mode, ratio, i);
      plan.crop || plan.blend != Replace ==> plan.slot in slots.at
  {
    hide Stats, Better, Crops;
  }

  // In every mode, and whether the replay is exact or not, no layer with a crop
  // or a blend looks at an unset slot.
  lemma NoUnsetSlotIsRead(file: File, frames: seq<Frame>, mode: Mode, ratio: real, given: seq<B.ExtraChannelInfo>,
                          durations: seq<nat>, i: nat)
    requires Encodes(file, frames, mode, ratio, given, durations) && i < |frames|
    requires file.layers[i].header.haveCrop || file.layers[i].header.mode != Replace
    ensures FileFits(file)
    ensures file.layers[i].header.source in SlotsBefore(file, i).at
  {
    EncodedFileFits(file, frames, mode, ratio, given, durations);
    SlotsAreSet(file, frames, mode, ratio, given, durations, i);
    PlannedIsSet(SlotsBefore(file, i), frames, mode, ratio, i);
    hide PlanOf, SlotsBefore, FileFits, SlotsSet, IsPayload;
    assert IsPlanned(file.layers[i], frames, mode, ratio, i, durations[i]);
  }

  // From frames to a file that shows these frames.
  method EncodeFile(frames: seq<Frame>, dtypes: seq<Dtype>, bits: int, mode: Mode, ratio: real, durations: Durations,
                    given: seq<B.ExtraChannelInfo>) returns (r: Result<File>)
    requires |dtypes| == |frames| && forall i: nat | i < |frames| :: frames[i].Valid()
    requires frames != [] ==> Describes(given, frames[0].shape)
    ensures r.Ok? <==> Encodable(frames, dtypes, bits, mode, durations)
    ensures r.Ok? ==>
              (AllExact(r.value, frames, mode, |frames|) <==> AllReproducible(given, frames, mode, ratio, |frames|))
    ensures r.Ok? && (mode != BlendMask || B.HasAlpha(given)) ==> AllExact(r.value, frames, mode, |frames|)
  {
    hide IsPlanned, AllExact, AllReproducible, B.HasAlpha, IntegerMaskValue, ValidDurations, OneDtype, Ticks;
    var layers := EncodeLayers(frames, dtypes, bits, mode, ratio, durations);
    if layers.ValueError? {
      return ValueError;
    }
    var shape := frames[0].shape;
    var file := File(shape, Infos(given, mode), shape.extras + (if mode == BlendMask then 1 else 0), layers.value);
    ReplayIsExact(file, frames, mode, ratio, given, Ticks(durations, |frames|));
    return Ok(file);
  }

  // ---------------------------------------------------------------------
  // Where mode blend_mask needs an alpha channel.

  // A frame repeated in mode blend_mask, without an alpha channel: the layer
  // has the first pixel, masked out, and its colour comes out black.
  lemma RepeatedFrame(given: seq<B.ExtraChannelInfo>, frames: seq<Frame>, ratio: real, i: nat)
    requires Uniform(frames) && 1 <= i < |frames| && 1 <= frames[i].shape.channels <= 4
    requires frames[i].shape.height > 0 && frames[i].shape.width > 0 && frames[i] == frames[i - 1]
    requires !B.HasAlpha(given) && !Black(frames[i].rows[0][0], frames[i].shape.channels)
    ensures !Reproducible(given, frames, BlendMask, ratio, i)
  {
    hide B.HasAlpha, Black;
    PlanShape(frames, BlendMask, ratio, i);
    var mask := Changed(frames[i], frames[i - 1]);
    assert Blank(mask);
    BoxIsTight(mask, frames[i].shape.width, Box(0, 0, 0, 0));
    assert Inside(PlanOf(frames, BlendMask, ratio, i).box, 0, 0);
    assert !BlackIfUnchanged(frames, i, 0, 0);
  }

  // Two equal frames of one gray pixel, at the default crop ratio.
  lemma GrayPixelIsLost(file: File, durations: seq<nat>)
    requires var frame := Frame(Shape(1, 1, 1, 0), [[Pixel([0.5], [])]]);
      Encodes(file, [frame, frame], BlendMask, 0.98, [], durations)
    ensures var frame := Frame(Shape(1, 1, 1, 0), [[Pixel([0.5], [])]]);
      !AllExact(file, [frame, frame], BlendMask, 2)
  {
    hide IsPlanned;
    var frame := Frame(Shape(1, 1, 1, 0), [[Pixel([0.5], [])]]);
    var frames := [frame, frame];
    assert ColorOf(frame.rows[0][0], 1)[0] == 0.5;
    RepeatedFrame([], frames, 0.98, 1);
    hide Reproducible, AllExact;
    ReplayIsExact(file, frames, BlendMask, 0.98, [], durations);
  }

  // ---------------------------------------------------------------------
  // Skipping the blending stage.

  datatype FrameKind = Regular | SkipProgressive | ReferenceOnly | DC

  method NeedsBlending(kind: FrameKind, mode: BlendMode, ecModes: seq<BlendMode>, customSizeOrOrigin: bool)
    returns (r: bool)
    ensures var plain := mode == Replace && forall i: nat | i < |ecModes| :: ecModes[i] == Replace;
      r <==> (kind == Regular || kind == SkipProgressive) && (customSizeOrOrigin || !plain)
  {
    if !(kind == Regular || kind == SkipProgressive) {
      return false;
    }
    var replaceAll := mode == Replace;
    for i := 0 to |ecModes|
      invariant replaceAll <==> mode == Replace && forall j: nat | j < i :: ecModes[j] == Replace
    {
      if ecModes[i] != Replace {
        replaceAll := false;
      }
    }
    if !customSizeOrOrigin && replaceAll {
      return false;
    }
    return true;
  }

  // A layer that replaces the whole canvas shows the same whatever the slots hold.
  lemma SkippingIsSafe(file: File, i: nat, bg: Canvas, y: nat, x: nat)
    requires FileFits(file) && i < |file.layers| && IsCanvas(bg, file.shape, 3 + |file.info|)
    requires y < file.shape.height && x < file.shape.width
    requires var h := file.layers[i].header;
      h.mode == Replace && h.x0 == 0 && h.y0 == 0 && h.xsize == file.shape.width && h.ysize == file.shape.height
    ensures ShownAt(file, i, bg, y, x) == PlanesOf(file.layers[i].pixels[y][x], file.shape.channels)
  {
    hide Composed;
    var layer := file.layers[i];
    ReplacedPixel(layer.header, bg[y][x], PlanesOf(layer.pixels[y][x], file.shape.channels), file.info);
  }
}
