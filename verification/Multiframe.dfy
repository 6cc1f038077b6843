// The multi-frame encoder's plan: jxlpy/api.py (encode_multiframe and
// _pack_source_ref), jxlpy/multiframe.py (select_reference_bbox) and
// native/jxlpy_native.cc (MakeFrameHeader).
module Multiframe {
  import opened Bits
  import opened FrameDiff
  import W = Wrappers

  datatype Mode = Auto | First | Previous | None | Full | Additive | BlendMask

  datatype BlendMode = Replace | Add | Blend | MulAdd | Mul

  // ---------------------------------------------------------------------
  // The packed source field.

  function Native(mode: BlendMode): uint8 {
    match mode
    case Replace => 0
    case Add => 1
    case Blend => 2
    case MulAdd => 3
    case Mul => 4
  }

  function BlendModeOf(n: nat): BlendMode {
    if n == 1 then Add else if n == 2 then Blend else if n == 3 then MulAdd else if n == 4 then Mul else Replace
  }

  function PackSourceRef(source: int, mode: BlendMode, alpha: int, clamp: bool): Result<nat> {
    if !(0 <= source <= 3) then ValueError
    else if !(0 <= alpha <= 255) then ValueError
    else Ok(Or(Or(Or(source, Shl(Native(mode), 8)), Shl(alpha, 16)), Shl(if clamp then 1 else 0, 24)))
  }

  lemma {:induction false} ShlPlus(a: nat, b: nat, k: nat)
    ensures Shl(a + b, k) == Shl(a, k) + Shl(b, k)
  {
    if k > 0 {
      ShlPlus(a, b, k - 1);
    }
  }

  lemma {:induction false} ShrTwice(x: nat, a: nat, b: nat)
    ensures Shr(Shr(x, a), b) == Shr(x, a + b)
  {
    if a > 0 {
      ShrTwice(x / 2, a - 1, b);
    }
  }

  // Four fields of a word, from the low end up.
  function Word(f0: nat, f1: nat, f2: nat, f3: nat): nat {
    Shl(Shl(Shl(f3, 8) + f2, 8) + f1, 8) + f0
  }

  lemma PackedIsWord(source: int, mode: BlendMode, alpha: int, clamp: bool)
    requires 0 <= source <= 3 && 0 <= alpha <= 255
    ensures PackSourceRef(source, mode, alpha, clamp) == Ok(Word(source, Native(mode), alpha, if clamp then 1 else 0))
  {
    hide Or, Shl, Pow2;
    var m: nat, c: nat := Native(mode), if clamp then 1 else 0;
    Pow2Known();
    Pow2At24();
    ShlLess(m, 0x100, 8);
    ShlLess(alpha, 0x100, 16);
    ShlOfPow2(8, 8);
    ShlOfPow2(8, 16);
    OrDisjoint(source, m, 8);
    OrDisjoint(source + Shl(m, 8), alpha, 16);
    OrDisjoint(source + Shl(m, 8) + Shl(alpha, 16), c, 24);
    ShlPlus(Shl(c, 8), alpha, 8);
    ShlPlus(Shl(Shl(c, 8), 8) + Shl(alpha, 8), m, 8);
    ShlPlus(Shl(Shl(c, 8), 8), Shl(alpha, 8), 8);
    ShlAdd(c, 8, 8);
    ShlAdd(c, 16, 8);
    ShlAdd(alpha, 8, 8);
  }

  // The packed number: a byte for each field, and 1 to 4 for the modes that are
  // not "replace", in the order of the public enumeration.
  lemma PackedNumber(source: int, mode: BlendMode, alpha: int, clamp: bool)
    requires 0 <= source <= 3 && 0 <= alpha <= 255
    ensures var m := match mode case Replace => 0 case Add => 1 case Blend => 2 case MulAdd => 3 case Mul => 4;
            PackSourceRef(source, mode, alpha, clamp)
            == Ok(source + 0x100 * m + 0x1_0000 * alpha + if clamp then 0x100_0000 else 0)
  {
    hide Or, Shl, Pow2;
    PackedIsWord(source, mode, alpha, clamp);
    Pow2Known();
    var f3: nat := if clamp then 1 else 0;
    ShlIsProduct(f3, 8);
    ShlIsProduct(Shl(f3, 8) + alpha, 8);
    ShlIsProduct(Shl(Shl(f3, 8) + alpha, 8) + Native(mode), 8);
  }

  lemma Pow2At24()
    ensures Pow2(24) == 0x100_0000
  {
    Pow2Known();
    assert Pow2(18) == 0x4_0000 && Pow2(20) == 0x10_0000 && Pow2(22) == 0x40_0000;
  }

  lemma ShlOfPow2(a: nat, b: nat)
    ensures Shl(Pow2(a), b) == Pow2(a + b)
  {
    RangeIs(a + b, a);
  }

  lemma WordFields(f0: nat, f1: nat, f2: nat, f3: nat)
    requires f0 < 0x100 && f1 < 0x100 && f2 < 0x100
    ensures var w := Word(f0, f1, f2, f3);
      LowBits(w, 8) == f0 && LowBits(Shr(w, 8), 8) == f1 && LowBits(Shr(w, 16), 8) == f2 && Shr(w, 24) == f3
  {
    hide Shl, Shr, LowBits, Pow2;
    Pow2Known();
    var w := Word(f0, f1, f2, f3);
    var high := Shl(Shl(f3, 8) + f2, 8) + f1;
    ShiftMaskUnique(high, f0, 8);
    ShiftMaskUnique(Shl(f3, 8) + f2, f1, 8);
    ShiftMaskUnique(f3, f2, 8);
    ShrTwice(w, 8, 8);
    ShrTwice(w, 16, 8);
  }

  lemma LowBitsOfWord(f0: nat, f1: nat, f2: nat, f3: nat)
    requires f0 < 4
    ensures LowBits(Word(f0, f1, f2, f3), 2) == f0
  {
    hide LowBits, Shl;
    var high := Shl(Shl(f3, 8) + f2, 8) + f1;
    ShlAdd(high, 6, 2);
    assert Pow2(2) == 4;
    ShiftMaskUnique(Shl(high, 6), f0, 2);
  }

  // ---------------------------------------------------------------------
  // Layer headers.

  // What the encoder hands to the native code for one frame; the position is
  // meaningful only with a crop.
  datatype NativeFrame = NativeFrame(
    pixels: seq<seq<Pixel>>, xsize: nat, ysize: nat, haveCrop: bool, cropX0: nat, cropY0: nat, duration: nat,
    sourceRef: nat, saveAsRef: nat)

  datatype LayerHeader = LayerHeader(
    duration: nat, haveCrop: bool, x0: nat, y0: nat, xsize: nat, ysize: nat, mode: BlendMode, source: nat, alpha: nat,
    clamp: bool, saveAsReference: nat)

  // The fields of a packed source.
  ghost predicate Unpacks(packed: nat, source: nat, mode: BlendMode, alpha: nat, clamp: bool) {
    && LowBits(packed, 2) == source && BlendModeOf(LowBits(Shr(packed, 8), 8)) == mode
    && LowBits(Shr(packed, 16), 8) == alpha && (LowBits(Shr(packed, 24), 1) != 0) == clamp
  }

  // Without a frame, the header is that of a still image or of an animation's only layer.
  method MakeFrameHeader(canvasX: nat, canvasY: nat, frame: W.Option<NativeFrame>, animation: bool)
    returns (header: LayerHeader)
    ensures header.duration == (if frame.Some? then frame.value.duration else 0)
    ensures header.haveCrop == (frame.Some? && frame.value.haveCrop)
    ensures if header.haveCrop
            then header.x0 == frame.value.cropX0 && header.y0 == frame.value.cropY0
              && header.xsize == frame.value.xsize && header.ysize == frame.value.ysize
            else header.x0 == 0 && header.y0 == 0 && header.xsize == canvasX && header.ysize == canvasY
    ensures Unpacks(if frame.Some? then frame.value.sourceRef else 0, header.source, header.mode, header.alpha,
                    header.clamp)
    ensures header.saveAsReference == if frame.Some? then frame.value.saveAsRef else if animation then 1 else 0
  {
    header := LayerHeader(0, false, 0, 0, 0, 0, Replace, 0, 0, false, 0);
    header := header.(duration := if frame.Some? then frame.value.duration else 0);
    if frame.Some? && frame.value.haveCrop {
      header := header.(haveCrop := true);
      header := header.(x0 := frame.value.cropX0, y0 := frame.value.cropY0);
      header := header.(xsize := frame.value.xsize, ysize := frame.value.ysize);
    } else {
      header := header.(haveCrop := false);
      header := header.(x0 := 0, y0 := 0);
      header := header.(xsize := canvasX, ysize := canvasY);
    }
    var sourceRef := if frame.Some? then frame.value.sourceRef else 0;
    var blendMode := LowBits(Shr(sourceRef, 8), 8);
    var blendAlpha := LowBits(Shr(sourceRef, 16), 8);
    var blendClamp := LowBits(Shr(sourceRef, 24), 1);
    sourceRef := LowBits(sourceRef, 2);
    if blendMode > Native(Mul) {
      blendMode := Native(Replace);
    }
    header := header.(mode := BlendModeOf(blendMode), source := sourceRef, alpha := blendAlpha,
                      clamp := blendClamp != 0);
    header := header.(saveAsReference := if frame.Some? then frame.value.saveAsRef else if animation then 1 else 0);
  }

  // What was packed comes back, and a bare slot number is a replacing source.
  lemma PackRoundTrip(source: int, mode: BlendMode, alpha: int, clamp: bool)
    requires 0 <= source <= 3 && 0 <= alpha <= 255
    ensures Unpacks(PackSourceRef(source, mode, alpha, clamp).value, source, mode, alpha, clamp)
    ensures Unpacks(source, source, Replace, 0, false)
  {
    hide Shl, Shr, LowBits, Word, PackSourceRef;
    PackedIsWord(source, mode, alpha, clamp);
    FieldsOfWord(source, Native(mode), alpha, clamp);
    PackedIsWord(source, Replace, 0, false);
    FieldsOfWord(source, 0, 0, false);
    BareSource(source);
  }

  lemma FieldsOfWord(source: nat, mode: nat, alpha: nat, clamp: bool)
    requires source <= 3 && mode <= 255 && alpha <= 255
    ensures var w, c := Word(source, mode, alpha, if clamp then 1 else 0), if clamp then 1 else 0;
      && LowBits(w, 2) == source && LowBits(Shr(w, 8), 8) == mode && LowBits(Shr(w, 16), 8) == alpha
      && LowBits(Shr(w, 24), 1) == c
  {
    hide Shl, Shr, Pow2, LowBits, Word;
    var c := if clamp then 1 else 0;
    WordFields(source, mode, alpha, c);
    LowBitsOfWord(source, mode, alpha, c);
    LowBitOf(clamp);
  }

  lemma LowBitOf(b: bool)
    ensures LowBits(if b then 1 else 0, 1) == if b then 1 else 0
  {
  }

  lemma BareSource(source: nat)
    ensures Word(source, 0, 0, 0) == source
  {
    ShlOfZero(8);
  }

  lemma {:induction false} ShlOfZero(k: nat)
    ensures Shl(0, k) == 0
  {
    if k > 0 {
      ShlOfZero(k - 1);
    }
  }

  // ---------------------------------------------------------------------
  // The plan, from the frames alone.

  datatype Source = NoSource | PreviousFrame | FirstFrame

  datatype Choice = Choice(slot: nat, diff: DiffStats, source: Source)

  ghost predicate Uniform(frames: seq<Frame>) {
    && (forall i: nat | i < |frames| :: frames[i].Valid())
    && forall i: nat | i < |frames| :: frames[i].shape == frames[0].shape
  }

  // Smaller encoded area first, then fewer changed pixels.
  predicate Better(a: DiffStats, b: DiffStats) {
    a.bboxArea < b.bboxArea || (a.bboxArea == b.bboxArea && a.changedPixels < b.changedPixels)
  }

  // The better of the previous and the first frame, as far as the mode allows.
  ghost function BestReference(frames: seq<Frame>, mode: Mode, i: nat): Choice
    requires Uniform(frames) && 1 <= i < |frames|
  {
    var previous, first := Stats(frames[i], frames[i - 1]), Stats(frames[i], frames[0]);
    if mode == First || (mode == Auto && (i == 1 || Better(first, previous))) then Choice(2, first, FirstFrame)
    else Choice(1, previous, PreviousFrame)
  }

  // With both references at hand, the smaller box wins, then the smaller number
  // of changed pixels, and then the previous frame.
  lemma BestOfBoth(frames: seq<Frame>, i: nat)
    requires Uniform(frames) && 2 <= i < |frames|
    ensures var p, f := Stats(frames[i], frames[i - 1]), Stats(frames[i], frames[0]);
            var best := BestReference(frames, Auto, i);
            if f.bboxArea < p.bboxArea || (f.bboxArea == p.bboxArea && f.changedPixels < p.changedPixels)
            then best == Choice(2, f, FirstFrame) else best == Choice(1, p, PreviousFrame)
  {
    hide Stats;
  }

  predicate Crops(area: nat, fullArea: nat, ratio: real) {
    area as real < fullArea as real * ratio
  }

  // A box is cropped to if it is below the ratio, as a share of the canvas: at
  // ratio 1 every smaller box, at ratio 0 none.
  lemma CropsByShare(area: nat, fullArea: nat, ratio: real)
    ensures fullArea > 0 ==> (Crops(area, fullArea, ratio) <==> Percent(area, fullArea) < 100.0 * ratio)
    ensures fullArea == 0 ==> !Crops(area, fullArea, ratio)
    ensures (Crops(area, fullArea, 1.0) <==> area < fullArea) && !Crops(area, fullArea, 0.0)
  {
    if fullArea > 0 {
      var share := area as real / fullArea as real;
      assert share * fullArea as real == area as real;
      if share < ratio {
        ShareGrows(share, ratio, fullArea as real);
      } else {
        ShareGrows(ratio, share, fullArea as real);
      }
    }
  }

  lemma ShareGrows(a: real, b: real, full: real)
    requires a <= b && full > 0.0
    ensures a * full <= b * full && (a < b ==> a * full < full * b)
  {
  }

  function WholeCanvas(shape: Shape): Box {
    Box(0, 0, shape.width, shape.height)
  }

  function FullArea(shape: Shape): nat {
    Product(shape.width, shape.height)
  }

  datatype Plan = Plan(slot: nat, crop: bool, box: Box, blend: BlendMode, save: nat)

  function FirstSave(mode: Mode, count: nat): nat {
    if count <= 1 then 0
    else match mode
      case Auto => 2
      case First => 2
      case Previous => 1
      case Additive => 1
      case BlendMask => 1
      case _ => 0
  }

  ghost function PlanOf(frames: seq<Frame>, mode: Mode, ratio: real, i: nat): Plan
    requires Uniform(frames) && i < |frames|
  {
    var shape, later := frames[i].shape, if i + 1 < |frames| then 1 else 0;
    var whole := WholeCanvas(shape);
    if i == 0 then Plan(0, false, whole, Replace, FirstSave(mode, |frames|))
    else match mode
      case None => Plan(0, false, whole, Replace, 0)
      case Full => Plan(0, false, whole, Replace, 0)
      case Additive => Plan(1, false, whole, Add, later)
      case BlendMask =>
        var diff := Stats(frames[i], frames[i - 1]);
        var crop := Crops(diff.bboxArea, FullArea(shape), ratio);
        Plan(1, crop, if crop then diff.bbox else whole, Blend, later)
      case _ =>
        var best := BestReference(frames, mode, i);
        var save := if mode == First then 0 else 1;
        if Crops(best.diff.bboxArea, FullArea(shape), ratio) then Plan(best.slot, true, best.diff.bbox, Replace, save)
        else Plan(0, false, whole, Replace, save)
  }

  // ---------------------------------------------------------------------
  // Choosing a reference.

  function MinCandidate(candidates: seq<Choice>): Choice
    requires candidates != []
  {
    var last := |candidates| - 1;
    if last == 0 then candidates[0]
    else
      var rest := MinCandidate(candidates[..last]);
      if Better(candidates[last].diff, rest.diff) then candidates[last] else rest
  }

  lemma MinOfOne(a: Choice)
    ensures MinCandidate([a]) == a
  {
  }

  // A tie goes to the earlier candidate.
  lemma MinOfTwo(a: Choice, b: Choice)
    ensures MinCandidate([a, b]) == if Better(b.diff, a.diff) then b else a
  {
    assert [a, b][..1] == [a];
    MinOfOne(a);
  }

  method MeasureDiff(current: Frame, reference: Frame) returns (r: Result<DiffStats>)
    requires current.Valid() && reference.Valid()
    ensures r.Ok? <==> current.shape == reference.shape
    ensures r.Ok? ==> r.value == Stats(current, reference)
  {
    var mask := FrameMask(current, reference);
    if mask.ValueError? {
      return ValueError;
    }
    return Ok(DiffStatsFromMask(mask.value, current.shape.width));
  }

  predicate MayUse(mode: Mode, slot: nat) {
    mode == Auto || (slot == 1 && mode == Previous) || (slot == 2 && mode == First)
  }

  ghost predicate RefsFit(refs: map<nat, Frame>, frames: seq<Frame>) {
    frames != [] && forall slot :: slot in refs ==> refs[slot].Valid() && refs[slot].shape == frames[0].shape
  }

  // The least of the slots that are set; the previous frame when none is.
  ghost function Selected(refs: map<nat, Frame>, mode: Mode, current: Frame, previous: Frame): Choice
    requires current.Valid() && previous.Valid() && previous.shape == current.shape
    requires forall slot :: slot in refs ==> refs[slot].Valid() && refs[slot].shape == current.shape
  {
    var use1, use2 := MayUse(mode, 1) && 1 in refs, MayUse(mode, 2) && 2 in refs;
    if use2 && (!use1 || Better(Stats(current, refs[2]), Stats(current, refs[1]))) then
      Choice(2, Stats(current, refs[2]), FirstFrame)
    else if use1 then Choice(1, Stats(current, refs[1]), PreviousFrame)
    else Choice(1, Stats(current, previous), PreviousFrame)
  }

  method SelectReferenceBbox(index: nat, current: Frame, arrays: seq<Frame>, refs: map<nat, Frame>, mode: Mode)
    returns (r: Result<Choice>)
    requires Uniform(arrays) && 1 <= index < |arrays| && current == arrays[index] && RefsFit(refs, arrays)
    ensures r == Ok(Selected(refs, mode, current, arrays[index - 1]))
  {
    hide Better, Stats, Changed, DiffStatsFromMask;
    var candidates: seq<Choice> := [];
    if (mode == Previous || mode == Auto) && 1 in refs {
      var diff := MeasureDiff(current, refs[1]);
      candidates := candidates + [Choice(1, diff.value, PreviousFrame)];
    }
    if (mode == First || mode == Auto) && 2 in refs {
      var diff := MeasureDiff(current, refs[2]);
      candidates := candidates + [Choice(2, diff.value, FirstFrame)];
    }
    if candidates == [] {
      var diff := MeasureDiff(current, arrays[index - 1]);
      candidates := candidates + [Choice(1, diff.value, PreviousFrame)];
    }
    if |candidates| == 1 {
      MinOfOne(candidates[0]);
      assert candidates == [candidates[0]];
    } else {
      MinOfTwo(candidates[0], candidates[1]);
      assert candidates == [candidates[0], candidates[1]];
    }
    return Ok(MinCandidate(candidates));
  }

  // What the dictionary holds when frame i is about to be planned.
  ghost predicate RefsMirror(refs: map<nat, Frame>, frames: seq<Frame>, mode: Mode, i: nat)
    requires 1 <= i <= |frames|
  {
    && (2 in refs <==> (mode == Auto || mode == First) && |frames| > 1)
    && (2 in refs ==> refs[2] == frames[0])
    && (mode == Previous || mode == Auto || mode == BlendMask ==> i < |frames| ==>
          (1 in refs <==> mode != Auto || i >= 2) && (1 in refs ==> refs[1] == frames[i - 1]))
  }

  // With such a dictionary a slot is always set: the fallback is never taken,
  // and the choice is the one the plan makes.
  lemma SelectionFollowsPlan(refs: map<nat, Frame>, frames: seq<Frame>, mode: Mode, i: nat)
    requires Uniform(frames) && 1 <= i < |frames| && RefsMirror(refs, frames, mode, i) && RefsFit(refs, frames)
    requires mode == Auto || mode == First || mode == Previous
    ensures (MayUse(mode, 1) && 1 in refs) || (MayUse(mode, 2) && 2 in refs)
    ensures Selected(refs, mode, frames[i], frames[i - 1]) == BestReference(frames, mode, i)
  {
    hide Better, Stats;
  }

  // ---------------------------------------------------------------------
  // Payloads.

  predicate Fits(box: Box, shape: Shape) {
    box.x0 <= box.x1 <= shape.width && box.y0 <= box.y1 <= shape.height
  }

  // A crop is never wider or higher than the canvas.
  lemma CropFits(current: Frame, reference: Frame, ratio: real)
    requires current.Valid() && reference.Valid() && current.shape == reference.shape
    requires Crops(Stats(current, reference).bboxArea, FullArea(current.shape), ratio)
    ensures Fits(Stats(current, reference).bbox, current.shape)
  {
    hide BoxOf, Area, Product, Crops, FullArea, CountNonzero;
    var mask, shape := Changed(current, reference), current.shape;
    var diff := Stats(current, reference);
    BoxIsTight(mask, shape.width, diff.bbox);
    AreaPositive(diff.bbox);
    CanvasHasPixels(shape, diff.bboxArea, ratio);
  }

  lemma CanvasHasPixels(shape: Shape, area: nat, ratio: real)
    requires Crops(area, FullArea(shape), ratio) && area >= 1
    ensures shape.width > 0 && shape.height > 0
  {
    ProductOfZero(shape.width, shape.height);
    ZeroTimes(ratio);
  }

  lemma ProductOfZero(a: nat, b: nat)
    ensures a == 0 || b == 0 ==> Product(a, b) == 0
  {
  }

  lemma ZeroTimes(x: real)
    ensures 0.0 * x == 0.0
  {
  }

  lemma AreaPositive(box: Box)
    requires box.x0 < box.x1 && box.y0 < box.y1
    ensures Area(box) >= 1
  {
    MulAtLeast(box.x1 - box.x0, box.y1 - box.y0);
  }

  function CropFrame(frame: Frame, box: Box): (r: Frame)
    requires frame.Valid() && Fits(box, frame.shape)
    ensures r.Valid() && r.shape == frame.shape.(height := box.y1 - box.y0, width := box.x1 - box.x0)
  {
    Frame(frame.shape.(height := box.y1 - box.y0, width := box.x1 - box.x0),
          seq(box.y1 - box.y0, y requires 0 <= y < box.y1 - box.y0 => frame.rows[box.y0 + y][box.x0..box.x1]))
  }

  function CropMask(mask: Mask, box: Box): (r: Mask)
    requires box.x0 <= box.x1 && box.y0 <= box.y1 <= |mask| && forall y: nat | y < |mask| :: box.x1 <= |mask[y]|
    ensures |r| == box.y1 - box.y0 && forall y: nat | y < |r| :: |r[y]| == box.x1 - box.x0
  {
    seq(box.y1 - box.y0, y requires 0 <= y < box.y1 - box.y0 => mask[box.y0 + y][box.x0..box.x1])
  }

  function Zeroed(p: Pixel): Pixel {
    Pixel(seq(|p.main|, _ => 0.0), seq(|p.extras|, _ => 0.0))
  }

  function Minus(p: Pixel, q: Pixel): Pixel
    requires |p.main| == |q.main| && |p.extras| == |q.extras|
  {
    Pixel(seq(|p.main|, k requires 0 <= k < |p.main| => p.main[k] - q.main[k]),
          seq(|p.extras|, k requires 0 <= k < |p.extras| => p.extras[k] - q.extras[k]))
  }

  // The mask is one more extra channel, after the others; full scale is 1.
  function WithMask(p: Pixel, changed: bool): Pixel {
    p.(extras := p.extras + [if changed then 1.0 else 0.0])
  }

  predicate IsMaskOf(mask: Mask, shape: Shape) {
    |mask| == shape.height && IsMask(mask, shape.width)
  }

  // Zero where nothing changed.
  function MaskedPayload(frame: Frame, changed: Mask): (r: Frame)
    requires frame.Valid() && IsMaskOf(changed, frame.shape)
    ensures r.Valid() && r.shape == frame.shape
  {
    frame.(rows := seq(frame.shape.height, y requires 0 <= y < frame.shape.height =>
      seq(frame.shape.width, x requires 0 <= x < frame.shape.width =>
        if changed[y][x] then frame.rows[y][x] else Zeroed(frame.rows[y][x]))))
  }

  function AppendMask(frame: Frame, changed: Mask): (r: Frame)
    requires frame.Valid() && IsMaskOf(changed, frame.shape)
    ensures r.Valid() && r.shape == frame.shape.(extras := frame.shape.extras + 1)
  {
    Frame(frame.shape.(extras := frame.shape.extras + 1),
          seq(frame.shape.height, y requires 0 <= y < frame.shape.height =>
            seq(frame.shape.width, x requires 0 <= x < frame.shape.width => WithMask(frame.rows[y][x], changed[y][x]))))
  }

  function FullMask(shape: Shape): (r: Mask)
    ensures IsMaskOf(r, shape)
  {
    seq(shape.height, _ => seq(shape.width, _ => true))
  }

  function MinusFrame(f: Frame, g: Frame): (r: Frame)
    requires f.Valid() && g.Valid() && f.shape == g.shape
    ensures r.Valid() && r.shape == f.shape
  {
    f.(rows := seq(f.shape.height, y requires 0 <= y < f.shape.height =>
      seq(f.shape.width, x requires 0 <= x < f.shape.width => Minus(f.rows[y][x], g.rows[y][x]))))
  }

  method AdditivePayloads(arrays: seq<Frame>) returns (payloads: seq<Frame>)
    requires Uniform(arrays) && arrays != []
    ensures |payloads| == |arrays| && payloads[0] == arrays[0]
    ensures forall i: nat | 1 <= i < |arrays| :: payloads[i] == MinusFrame(arrays[i], arrays[i - 1])
  {
    hide Minus;
    payloads := [arrays[0]];
    for i := 1 to |arrays|
      invariant |payloads| == i && payloads[0] == arrays[0]
      invariant forall j: nat | 1 <= j < i :: payloads[j] == MinusFrame(arrays[j], arrays[j - 1])
    {
      payloads := payloads + [MinusFrame(arrays[i], arrays[i - 1])];
    }
  }

  // What the plan sends for one pixel of frame i.
  ghost function PayloadPixel(frames: seq<Frame>, mode: Mode, i: nat, y: nat, x: nat): Pixel
    requires Uniform(frames) && i < |frames| && y < frames[i].shape.height && x < frames[i].shape.width
  {
    var p := frames[i].rows[y][x];
    if mode == Additive && i > 0 then Minus(p, frames[i - 1].rows[y][x])
    else if mode == BlendMask then
      if i == 0 || p != frames[i - 1].rows[y][x] then WithMask(p, true) else WithMask(Zeroed(p), false)
    else p
  }

  // In mode blend_mask an unchanged pixel is sent as zeros, its mask too, and a
  // changed one as it is, with mask 1.
  lemma MaskedPixelIs(frames: seq<Frame>, i: nat, y: nat, x: nat)
    requires Uniform(frames) && 0 < i < |frames| && y < frames[i].shape.height && x < frames[i].shape.width
    ensures var sent, p := PayloadPixel(frames, BlendMask, i, y, x), frames[i].rows[y][x];
            if p == frames[i - 1].rows[y][x] then
              && |sent.main| == |p.main| && |sent.extras| == |p.extras| + 1
              && (forall k: nat | k < |sent.main| :: sent.main[k] == 0.0)
              && forall k: nat | k < |sent.extras| :: sent.extras[k] == 0.0
            else sent == Pixel(p.main, p.extras + [1.0])
  {
  }

  ghost predicate IsPayload(rows: seq<seq<Pixel>>, frames: seq<Frame>, mode: Mode, i: nat, box: Box)
    requires Uniform(frames) && i < |frames| && Fits(box, frames[i].shape)
  {
    && |rows| == box.y1 - box.y0
    && (forall y: nat | y < |rows| :: |rows[y]| == box.x1 - box.x0)
    && forall y: nat, x: nat | y < |rows| && x < box.x1 - box.x0 ::
         rows[y][x] == PayloadPixel(frames, mode, i, box.y0 + y, box.x0 + x)
  }

  lemma PlanFits(frames: seq<Frame>, mode: Mode, ratio: real, i: nat)
    requires Uniform(frames) && i < |frames|
    ensures Fits(PlanOf(frames, mode, ratio, i).box, frames[i].shape)
  {
    hide Stats, Better;
    if i > 0 {
      if Crops(Stats(frames[i], frames[i - 1]).bboxArea, FullArea(frames[i].shape), ratio) {
        CropFits(frames[i], frames[i - 1], ratio);
      }
      if Crops(Stats(frames[i], frames[0]).bboxArea, FullArea(frames[i].shape), ratio) {
        CropFits(frames[i], frames[0], ratio);
      }
    }
  }

  // ---------------------------------------------------------------------
  // The frame loop.

  // The locals of one turn of the loop; x0 and y0 keep the box of the last
  // difference, also when there is no crop.
  datatype Draft = Draft(crop: Frame, haveCrop: bool, x0: nat, y0: nat, sourceRef: nat, saveRef: nat)

  function PlanAlpha(plan: Plan, alpha: nat): nat {
    if plan.blend == Blend then alpha else 0
  }

  ghost predicate Follows(d: Draft, frames: seq<Frame>, mode: Mode, ratio: real, i: nat, alpha: nat)
    requires Uniform(frames) && i < |frames|
  {
    var plan := PlanOf(frames, mode, ratio, i);
    && d.haveCrop == plan.crop && (plan.crop ==> d.x0 == plan.box.x0 && d.y0 == plan.box.y0)
    && d.saveRef == plan.save && Unpacks(d.sourceRef, plan.slot, plan.blend, PlanAlpha(plan, alpha), false)
    && Fits(plan.box, frames[i].shape)
    && d.crop.shape.width == plan.box.x1 - plan.box.x0 && d.crop.shape.height == plan.box.y1 - plan.box.y0
    && IsPayload(d.crop.rows, frames, mode, i, plan.box)
  }

  // A crop of the frame itself.
  lemma CropIsPayload(frames: seq<Frame>, mode: Mode, i: nat, box: Box)
    requires Uniform(frames) && i < |frames| && Fits(box, frames[i].shape) && mode != Additive && mode != BlendMask
    ensures IsPayload(CropFrame(frames[i], box).rows, frames, mode, i, box)
  {
  }

  lemma FrameIsPayload(frames: seq<Frame>, mode: Mode, i: nat)
    requires Uniform(frames) && i < |frames| && mode != BlendMask && (mode == Additive ==> i == 0)
    ensures IsPayload(frames[i].rows, frames, mode, i, WholeCanvas(frames[i].shape))
  {
    hide Minus, WithMask, Zeroed, PixelFits, IsPayload;
    forall y: nat, x: nat | y < frames[i].shape.height && x < frames[i].shape.width
      ensures frames[i].rows[y][x] == PayloadPixel(frames, mode, i, y, x)
    {
    }
    hide PayloadPixel;
    RowsArePayload(frames, mode, i);
  }

  lemma RowsArePayload(frames: seq<Frame>, mode: Mode, i: nat)
    requires Uniform(frames) && i < |frames|
    requires forall y: nat, x: nat | y < frames[i].shape.height && x < frames[i].shape.width ::
               frames[i].rows[y][x] == PayloadPixel(frames, mode, i, y, x)
    ensures IsPayload(frames[i].rows, frames, mode, i, WholeCanvas(frames[i].shape))
  {
    hide PayloadPixel, PixelFits;
  }

  lemma DifferenceIsPayload(frames: seq<Frame>, i: nat)
    requires Uniform(frames) && 1 <= i < |frames|
    ensures IsPayload(MinusFrame(frames[i], frames[i - 1]).rows, frames, Additive, i, WholeCanvas(frames[i].shape))
  {
    hide Minus;
  }

  lemma FirstMaskedIsPayload(frames: seq<Frame>)
    requires Uniform(frames) && frames != []
    ensures IsPayload(AppendMask(frames[0], FullMask(frames[0].shape)).rows, frames, BlendMask, 0,
                      WholeCanvas(frames[0].shape))
  {
    hide WithMask;
  }

  lemma MaskedIsPayload(frames: seq<Frame>, i: nat)
    requires Uniform(frames) && 1 <= i < |frames|
    ensures var changed := Changed(frames[i], frames[i - 1]);
      IsPayload(AppendMask(MaskedPayload(frames[i], changed), changed).rows, frames, BlendMask, i,
                WholeCanvas(frames[i].shape))
  {
    hide WithMask, Zeroed;
  }

  lemma MaskedCropIsPayload(frames: seq<Frame>, i: nat, box: Box)
    requires Uniform(frames) && 1 <= i < |frames| && Fits(box, frames[i].shape)
    ensures var changed := CropMask(Changed(frames[i], frames[i - 1]), box);
      IsPayload(AppendMask(MaskedPayload(CropFrame(frames[i], box), changed), changed).rows, frames, BlendMask, i, box)
  {
    hide WithMask, Zeroed, PayloadPixel, CropFrame, CropMask, MaskedPayload, AppendMask, Changed;
    var changed := CropMask(Changed(frames[i], frames[i - 1]), box);
    var rows := AppendMask(MaskedPayload(CropFrame(frames[i], box), changed), changed).rows;
    forall y: nat, x: nat | y < |rows| && x < box.x1 - box.x0
      ensures rows[y][x] == PayloadPixel(frames, BlendMask, i, box.y0 + y, box.x0 + x)
    {
      MaskedCropAt(frames, i, box, y, x);
    }
  }

  lemma MaskedCropAt(frames: seq<Frame>, i: nat, box: Box, y: nat, x: nat)
    requires Uniform(frames) && 1 <= i < |frames| && Fits(box, frames[i].shape)
    requires y < box.y1 - box.y0 && x < box.x1 - box.x0
    ensures var changed := CropMask(Changed(frames[i], frames[i - 1]), box);
      AppendMask(MaskedPayload(CropFrame(frames[i], box), changed), changed).rows[y][x]
      == PayloadPixel(frames, BlendMask, i, box.y0 + y, box.x0 + x)
  {
    hide WithMask, Zeroed, CropFrame, CropMask, MaskedPayload, AppendMask, Changed;
    var crop, changed := CropFrame(frames[i], box), CropMask(Changed(frames[i], frames[i - 1]), box);
    CropFrameAt(frames[i], box, y, x);
    CropChangedAt(frames[i], frames[i - 1], box, y, x);
    MaskedAt(crop, changed, y, x);
    AppendAt(MaskedPayload(crop, changed), changed, y, x);
  }

  lemma CropFrameAt(frame: Frame, box: Box, y: nat, x: nat)
    requires frame.Valid() && Fits(box, frame.shape) && y < box.y1 - box.y0 && x < box.x1 - box.x0
    ensures CropFrame(frame, box).rows[y][x] == frame.rows[box.y0 + y][box.x0 + x]
  {
  }

  lemma CropChangedAt(current: Frame, reference: Frame, box: Box, y: nat, x: nat)
    requires current.Valid() && reference.Valid() && current.shape == reference.shape
    requires Fits(box, current.shape) && y < box.y1 - box.y0 && x < box.x1 - box.x0
    ensures CropMask(Changed(current, reference), box)[y][x]
         == (current.rows[box.y0 + y][box.x0 + x] != reference.rows[box.y0 + y][box.x0 + x])
  {
    var mask := Changed(current, reference);
    assert CropMask(mask, box)[y] == mask[box.y0 + y][box.x0..box.x1];
  }

  lemma MaskedAt(frame: Frame, changed: Mask, y: nat, x: nat)
    requires frame.Valid() && IsMaskOf(changed, frame.shape) && y < frame.shape.height && x < frame.shape.width
    ensures MaskedPayload(frame, changed).rows[y][x]
         == if changed[y][x] then frame.rows[y][x] else Zeroed(frame.rows[y][x])
  {
  }

  lemma AppendAt(frame: Frame, changed: Mask, y: nat, x: nat)
    requires frame.Valid() && IsMaskOf(changed, frame.shape) && y < frame.shape.height && x < frame.shape.width
    ensures AppendMask(frame, changed).rows[y][x] == WithMask(frame.rows[y][x], changed[y][x])
  {
  }

  // Modes auto, first and previous, after frame 0.
  method DraftSelected(i: nat, arrays: seq<Frame>, refs: map<nat, Frame>, mode: Mode, ratio: real, ghost alpha: nat)
    returns (d: Draft)
    requires Uniform(arrays) && 1 <= i < |arrays| && (mode == Auto || mode == First || mode == Previous)
    requires RefsFit(refs, arrays) && RefsMirror(refs, arrays, mode, i)
    ensures Follows(d, arrays, mode, ratio, i, alpha)
  {
    hide Selected, BestReference, RefsFit, RefsMirror, Crops, IsPayload, Stats, CropFrame, PackSourceRef, Unpacks;
    var choice := SelectReferenceBbox(i, arrays[i], arrays, refs, mode);
    SelectionFollowsPlan(refs, arrays, mode, i);
    PlanFits(arrays, mode, ratio, i);
    var sourceRef, diff := choice.value.slot, choice.value.diff;
    var x0, y0 := diff.bbox.x0, diff.bbox.y0;
    var haveCrop, crop := false, arrays[i];
    PackRoundTrip(0, Replace, 0, false);
    PackRoundTrip(1, Replace, 0, false);
    PackRoundTrip(2, Replace, 0, false);
    BestSlot(arrays, mode, i);
    if Crops(diff.bboxArea, FullArea(arrays[i].shape), ratio) {
      haveCrop := true;
      crop := CropFrame(arrays[i], diff.bbox);
      CropIsPayload(arrays, mode, i, diff.bbox);
    } else {
      sourceRef := 0;
      FrameIsPayload(arrays, mode, i);
    }
    var saveRef := 0;
    if mode == Previous || mode == Auto {
      saveRef := 1;
    }
    return Draft(crop, haveCrop, x0, y0, sourceRef, saveRef);
  }

  lemma BestSlot(frames: seq<Frame>, mode: Mode, i: nat)
    requires Uniform(frames) && 1 <= i < |frames|
    ensures BestReference(frames, mode, i).slot == 1 || BestReference(frames, mode, i).slot == 2
  {
    hide Stats, Better;
  }

  // Mode blend_mask, after frame 0.
  method DraftMasked(i: nat, arrays: seq<Frame>, refs: map<nat, Frame>, ratio: real, maskAlpha: nat)
    returns (r: Result<Draft>)
    requires Uniform(arrays) && 1 <= i < |arrays| && RefsFit(refs, arrays) && RefsMirror(refs, arrays, BlendMask, i)
    ensures r.Ok? <==> maskAlpha <= 255
    ensures r.Ok? ==> Follows(r.value, arrays, BlendMask, ratio, i, maskAlpha)
  {
    hide RefsFit, Crops, IsPayload, CropFrame, MaskedPayload, AppendMask, PackSourceRef, Unpacks, Changed, CropMask,
      DiffStatsFromMask;
    assert RefsFit(refs, arrays);
    var arr := arrays[i];
    var mask := FrameMask(arr, refs[1]);
    var changed := mask.value;
    var diff := DiffStatsFromMask(changed, arr.shape.width);
    var packed := PackSourceRef(1, Blend, maskAlpha, false);
    PackedOnlyInRange(1, Blend, maskAlpha, false);
    if packed.ValueError? {
      return ValueError;
    }
    PackRoundTrip(1, Blend, maskAlpha, false);
    PlanFits(arrays, BlendMask, ratio, i);
    var saveRef := if i + 1 < |arrays| then 1 else 0;
    if Crops(diff.bboxArea, FullArea(arr.shape), ratio) {
      var changedCrop := CropMask(changed, diff.bbox);
      var crop := MaskedPayload(CropFrame(arr, diff.bbox), changedCrop);
      MaskedCropIsPayload(arrays, i, diff.bbox);
      return Ok(Draft(AppendMask(crop, changedCrop), true, diff.bbox.x0, diff.bbox.y0, packed.value, saveRef));
    } else {
      var crop := MaskedPayload(arr, changed);
      MaskedIsPayload(arrays, i);
      return Ok(Draft(AppendMask(crop, changed), false, diff.bbox.x0, diff.bbox.y0, packed.value, saveRef));
    }
  }

  lemma PackedOnlyInRange(source: int, mode: BlendMode, alpha: int, clamp: bool)
    ensures PackSourceRef(source, mode, alpha, clamp).Ok? <==> 0 <= source <= 3 && 0 <= alpha <= 255
  {
  }

  // In mode add, the loop runs over the differences instead of the frames.
  ghost predicate ArraysFor(arrays: seq<Frame>, frames: seq<Frame>, mode: Mode)
    requires Uniform(frames) && frames != []
  {
    |arrays| == |frames| && if mode != Additive then arrays == frames
    else arrays[0] == frames[0] && forall i: nat | 1 <= i < |frames| ::
      arrays[i] == MinusFrame(frames[i], frames[i - 1])
  }

  method DraftFrame(i: nat, ghost frames: seq<Frame>, arrays: seq<Frame>, refs: map<nat, Frame>, mode: Mode,
                    ratio: real, maskAlpha: nat) returns (r: Result<Draft>)
    requires Uniform(frames) && i < |frames| && ArraysFor(arrays, frames, mode)
    requires i > 0 ==> RefsFit(refs, frames) && RefsMirror(refs, frames, mode, i)
    ensures r.Ok? <==> (mode == BlendMask && i > 0 ==> maskAlpha <= 255)
    ensures r.Ok? ==> Follows(r.value, frames, mode, ratio, i, maskAlpha)
  {
    hide RefsFit, RefsMirror, IsPayload, PackSourceRef, Unpacks, Stats, BestReference, Crops, MinusFrame, AppendMask;
    PackRoundTrip(0, Replace, 0, false);
    PlanFits(frames, mode, ratio, i);
    if i == 0 {
      var saveRef := 0;
      if (mode == Additive || mode == BlendMask) && |arrays| > 1 {
        saveRef := 1;
      } else if (mode == Auto || mode == First) && |arrays| > 1 {
        saveRef := 2;
      } else if mode == Previous && |arrays| > 1 {
        saveRef := 1;
      }
      if mode == BlendMask {
        FirstMaskedIsPayload(frames);
        return Ok(Draft(AppendMask(arrays[0], FullMask(arrays[0].shape)), false, 0, 0, 0, saveRef));
      }
      FrameIsPayload(frames, mode, 0);
      return Ok(Draft(arrays[0], false, 0, 0, 0, saveRef));
    } else if mode == None || mode == Full {
      FrameIsPayload(frames, mode, i);
      return Ok(Draft(arrays[i], false, 0, 0, 0, 0));
    } else if mode == Additive {
      var packed := PackSourceRef(1, Add, 0, false);
      PackedOnlyInRange(1, Add, 0, false);
      PackRoundTrip(1, Add, 0, false);
      DifferenceIsPayload(frames, i);
      return Ok(Draft(arrays[i], false, 0, 0, packed.value, if i + 1 < |arrays| then 1 else 0));
    } else if mode == BlendMask {
      r := DraftMasked(i, arrays, refs, ratio, maskAlpha);
    } else {
      var d := DraftSelected(i, arrays, refs, mode, ratio, maskAlpha);
      return Ok(d);
    }
  }

  lemma SavesAsPlanned(d: Draft, frames: seq<Frame>, mode: Mode, ratio: real, i: nat, alpha: nat)
    requires Uniform(frames) && i < |frames| && Follows(d, frames, mode, ratio, i, alpha)
    ensures d.saveRef == PlanOf(frames, mode, ratio, i).save
  {
  }

  // Where a frame after the first is kept.
  lemma LaterSave(frames: seq<Frame>, mode: Mode, ratio: real, i: nat)
    requires Uniform(frames) && 1 <= i < |frames|
    ensures var save := PlanOf(frames, mode, ratio, i).save;
      match mode
      case Auto => save == 1
      case Previous => save == 1
      case First => save == 0
      case None => save == 0
      case Full => save == 0
      case _ => save == if i + 1 < |frames| then 1 else 0
  {
    hide Stats, BestReference, Crops, FullArea;
  }

  // Storing frame i where the draft says keeps the dictionary in step.
  lemma RefsStep(refs: map<nat, Frame>, frames: seq<Frame>, arrays: seq<Frame>, mode: Mode, ratio: real, i: nat)
    requires Uniform(frames) && i < |frames| && ArraysFor(arrays, frames, mode)
    requires if i == 0 then refs == map[] else RefsFit(refs, frames) && RefsMirror(refs, frames, mode, i)
    ensures var save := PlanOf(frames, mode, ratio, i).save;
      var next := if save != 0 then refs[save := arrays[i]] else refs;
      RefsFit(next, frames) && RefsMirror(next, frames, mode, i + 1)
  {
    if i == 0 {
      assert arrays[0] == frames[0];
    } else {
      LaterSave(frames, mode, ratio, i);
      LaterRefs(refs, frames, arrays, mode, i, PlanOf(frames, mode, ratio, i).save);
    }
  }

  lemma LaterRefs(refs: map<nat, Frame>, frames: seq<Frame>, arrays: seq<Frame>, mode: Mode, i: nat, save: nat)
    requires Uniform(frames) && 1 <= i < |frames| && ArraysFor(arrays, frames, mode)
    requires RefsFit(refs, frames) && RefsMirror(refs, frames, mode, i)
    requires match mode
      case Auto => save == 1
      case Previous => save == 1
      case First => save == 0
      case None => save == 0
      case Full => save == 0
      case _ => save == if i + 1 < |frames| then 1 else 0
    ensures var next := if save != 0 then refs[save := arrays[i]] else refs;
      RefsFit(next, frames) && RefsMirror(next, frames, mode, i + 1)
  {
    var next := if save != 0 then refs[save := arrays[i]] else refs;
    assert mode == Additive ==> arrays[i] == MinusFrame(frames[i], frames[i - 1]);
  }

  // The index of the mask among the decoder's extra channels: an alpha channel
  // that is part of the main image comes first, then the given extra channels.
  function MaskAlphaIndex(shape: Shape): nat {
    (if shape.channels == 2 || shape.channels == 4 then 1 else 0) + shape.extras
  }

  // The types of samples that arrays may have.
  datatype Dtype = UInt8 | UInt16 | Float16 | Float32

  predicate OneDtype(dtypes: seq<Dtype>) {
    forall i: nat | i < |dtypes| :: dtypes[i] == dtypes[0]
  }

  method CheckFrames(frames: seq<Frame>, dtypes: seq<Dtype>) returns (ok: bool)
    requires |dtypes| == |frames| && forall i: nat | i < |frames| :: frames[i].Valid()
    ensures ok <==> frames != [] && Uniform(frames) && OneDtype(dtypes)
  {
    if frames == [] {
      return false;
    }
    for i := 0 to |frames|
      invariant forall j: nat | j < i :: frames[j].shape == frames[0].shape && dtypes[j] == dtypes[0]
    {
      if frames[i].shape != frames[0].shape {
        return false;
      }
      if dtypes[i] != dtypes[0] {
        return false;
      }
    }
    return true;
  }

  // Durations: none, one for all frames, or a list.
  datatype Durations = NoDurations | OneDuration(ticks: int) | EachDuration(list: seq<int>)

  function TicksFor(durations: Durations, count: nat): seq<int> {
    match durations
    case NoDurations => seq(count, _ => 0)
    case OneDuration(ticks) => seq(count, _ => ticks)
    case EachDuration(list) => list
  }

  // A 32-bit number of ticks for each frame.
  predicate ValidDurations(durations: Durations, count: nat) {
    |TicksFor(durations, count)| == count && forall t :: t in TicksFor(durations, count) ==> 0 <= t <= 0xFFFF_FFFF
  }

  function Ticks(durations: Durations, count: nat): (r: seq<nat>)
    requires ValidDurations(durations, count)
    ensures r == TicksFor(durations, count) && |r| == count
  {
    var ticks := TicksFor(durations, count);
    assert forall i: nat | i < |ticks| :: ticks[i] in ticks && ticks[i] >= 0;
    ticks
  }

  lemma TicksOfFrame(durations: Durations, count: nat, i: nat)
    requires ValidDurations(durations, count) && i < count
    ensures Ticks(durations, count)[i]
         == match durations case NoDurations => 0 case OneDuration(ticks) => ticks case EachDuration(list) => list[i]
  {
  }

  lemma TicksFit(durations: Durations, count: nat)
    requires |TicksFor(durations, count)| == count
    ensures ValidDurations(durations, count) <==> forall t :: t in TicksFor(durations, count) ==> 0 <= t < Pow2(32)
  {
    Pow2Of32();
  }

  // The largest sample of an integer type, by the bits that are used; 0 bits
  // stand for all of them.
  function IntegerMaskValue(dtype: Dtype, bitsPerSample: int): Result<nat> {
    if dtype != UInt8 && dtype != UInt16 then ValueError
    else
      var itemBits := if dtype == UInt8 then 8 else 16;
      var bits := if bitsPerSample != 0 then bitsPerSample else itemBits;
      if bits <= 0 || bits > itemBits then ValueError else Ok(Pow2(bits) - 1)
  }

  // The mask value has as many bits as the samples use, all set.
  lemma MaskIsFullScale(dtype: Dtype, bitsPerSample: int, k: nat)
    ensures var r, width := IntegerMaskValue(dtype, bitsPerSample), if dtype == UInt8 then 8 else 16;
            && (r.Ok? <==> (dtype == UInt8 || dtype == UInt16) && 0 <= bitsPerSample <= width)
            && (r.Ok? ==> (Bit(r.value, k) <==> k < if bitsPerSample == 0 then width else bitsPerSample))
  {
    hide Pow2, Bit;
    if 0 <= bitsPerSample {
      AllOnes(bitsPerSample, k);
    }
    AllOnes(8, k);
    AllOnes(16, k);
  }

  lemma {:induction false} AllOnes(bits: nat, k: nat)
    ensures Bit(Pow2(bits) - 1, k) <==> k < bits
  {
    if bits == 0 {
      BitZero(k);
    } else if k > 0 {
      AllOnes(bits - 1, k - 1);
      assert (Pow2(bits) - 1) / 2 == Pow2(bits - 1) - 1;
    }
  }

  ghost predicate Emits(f: NativeFrame, frames: seq<Frame>, mode: Mode, ratio: real, i: nat, duration: nat)
    requires Uniform(frames) && i < |frames|
  {
    && f.duration == duration
    && exists d: Draft ::
         Follows(d, frames, mode, ratio, i, MaskAlphaIndex(frames[0].shape)) && f == NativeOf(d, duration)
  }

  lemma DraftIsEmitted(d: Draft, frames: seq<Frame>, mode: Mode, ratio: real, i: nat, duration: nat)
    requires Uniform(frames) && i < |frames| && Follows(d, frames, mode, ratio, i, MaskAlphaIndex(frames[0].shape))
    ensures Emits(NativeOf(d, duration), frames, mode, ratio, i, duration)
  {
    hide Follows;
  }

  function NativeOf(d: Draft, duration: nat): NativeFrame {
    NativeFrame(d.crop.rows, d.crop.shape.width, d.crop.shape.height, d.haveCrop, d.x0, d.y0, duration, d.sourceRef,
                d.saveRef)
  }

  // What the encoder accepts: frames of one shape and type, valid durations, and
  // in mode blend_mask integer samples and a mask index of a byte.
  ghost predicate Encodable(frames: seq<Frame>, dtypes: seq<Dtype>, bits: int, mode: Mode, durations: Durations)
    requires |dtypes| == |frames|
  {
    && frames != [] && Uniform(frames) && OneDtype(dtypes) && ValidDurations(durations, |frames|)
    && (mode == BlendMask ==> IntegerMaskValue(dtypes[0], bits).Ok?)
    && (mode == BlendMask && |frames| > 1 ==> MaskAlphaIndex(frames[0].shape) <= 255)
  }

  method EncodeMultiframe(frames: seq<Frame>, dtypes: seq<Dtype>, bits: int, mode: Mode, ratio: real,
                          durations: Durations) returns (r: Result<seq<NativeFrame>>)
    requires |dtypes| == |frames| && forall i: nat | i < |frames| :: frames[i].Valid()
    ensures r.Ok? <==> Encodable(frames, dtypes, bits, mode, durations)
    ensures r.Ok? ==> |r.value| == |frames|
    ensures r.Ok? ==> forall i: nat | i < |frames| ::
              Emits(r.value[i], frames, mode, ratio, i, Ticks(durations, |frames|)[i])
  {
    hide Follows, RefsFit, RefsMirror, PlanOf, MinusFrame, Emits, IntegerMaskValue, ValidDurations, OneDtype, Ticks;
    var ok := CheckFrames(frames, dtypes);
    if !ok || !ValidDurations(durations, |frames|) {
      return ValueError;
    }
    var durs := Ticks(durations, |frames|);
    var arrays := frames;
    if mode == Additive {
      arrays := AdditivePayloads(frames);
    }
    if mode == BlendMask && IntegerMaskValue(dtypes[0], bits).ValueError? {
      return ValueError;
    }
    var maskAlpha := MaskAlphaIndex(frames[0].shape);
    var refs: map<nat, Frame> := map[];
    var cFrames: seq<NativeFrame> := [];
    for i := 0 to |frames|
      invariant |cFrames| == i && ArraysFor(arrays, frames, mode)
      invariant if i == 0 then refs == map[] else RefsFit(refs, frames) && RefsMirror(refs, frames, mode, i)
      invariant mode == BlendMask && i > 1 ==> maskAlpha <= 255
      invariant forall j: nat | j < i :: Emits(cFrames[j], frames, mode, ratio, j, durs[j])
    {
      var draft := DraftFrame(i, frames, arrays, refs, mode, ratio, maskAlpha);
      if draft.ValueError? {
        return ValueError;
      }
      var d := draft.value;
      cFrames := cFrames + [NativeOf(d, durs[i])];
      DraftIsEmitted(d, frames, mode, ratio, i, durs[i]);
      RefsStep(refs, frames, arrays, mode, ratio, i);
      SavesAsPlanned(d, frames, mode, ratio, i, maskAlpha);
      if d.saveRef != 0 {
        refs := refs[d.saveRef := arrays[i]];
      }
    }
    return Ok(cFrames);
  }

  // ---------------------------------------------------------------------
  // From the native frames to layers.

  datatype Layer = Layer(header: LayerHeader, pixels: seq<seq<Pixel>>)

  function PlannedHeader(plan: Plan, duration: nat, alpha: nat): LayerHeader
    requires plan.box.x0 <= plan.box.x1 && plan.box.y0 <= plan.box.y1
  {
    LayerHeader(duration, plan.crop, plan.box.x0, plan.box.y0, plan.box.x1 - plan.box.x0, plan.box.y1 - plan.box.y0,
                plan.blend, plan.slot, PlanAlpha(plan, alpha), false, plan.save)
  }

  // The layer of frame i is the planned one: no trace of the stale position is left.
  ghost predicate IsPlanned(layer: Layer, frames: seq<Frame>, mode: Mode, ratio: real, i: nat, duration: nat)
    requires Uniform(frames) && i < |frames|
  {
    var plan := PlanOf(frames, mode, ratio, i);
    && Fits(plan.box, frames[i].shape)
    && layer.header == PlannedHeader(plan, duration, MaskAlphaIndex(frames[0].shape))
    && IsPayload(layer.pixels, frames, mode, i, plan.box)
  }

  lemma EmitsPlanned(f: NativeFrame, header: LayerHeader, frames: seq<Frame>, mode: Mode, ratio: real, i: nat,
                     duration: nat)
    requires Uniform(frames) && i < |frames| && Emits(f, frames, mode, ratio, i, duration)
    requires header.duration == f.duration && header.haveCrop == f.haveCrop && header.saveAsReference == f.saveAsRef
    requires header.haveCrop ==> header.x0 == f.cropX0 && header.y0 == f.cropY0
    requires header.haveCrop ==> header.xsize == f.xsize && header.ysize == f.ysize
    requires !header.haveCrop ==> header.x0 == 0 && header.y0 == 0
    requires !header.haveCrop ==> header.xsize == frames[i].shape.width && header.ysize == frames[i].shape.height
    requires Unpacks(f.sourceRef, header.source, header.mode, header.alpha, header.clamp)
    ensures IsPlanned(Layer(header, f.pixels), frames, mode, ratio, i, duration)
  {
    hide IsPayload, Stats, BestReference, Crops;
    UncroppedIsWhole(frames, mode, ratio, i);
    hide PlanOf;
  }

  lemma UncroppedIsWhole(frames: seq<Frame>, mode: Mode, ratio: real, i: nat)
    requires Uniform(frames) && i < |frames|
    ensures var plan := PlanOf(frames, mode, ratio, i); !plan.crop ==> plan.box == WholeCanvas(frames[i].shape)
  {
    hide Stats, BestReference, Crops;
  }

  method PackFrames(cFrames: seq<NativeFrame>, canvasX: nat, canvasY: nat, ghost frames: seq<Frame>, ghost mode: Mode,
                    ghost ratio: real, ghost durations: seq<nat>) returns (layers: seq<Layer>)
    requires Uniform(frames) && |cFrames| == |frames| == |durations|
    requires forall i: nat | i < |frames| :: frames[i].shape.width == canvasX && frames[i].shape.height == canvasY
    requires forall i: nat | i < |frames| :: Emits(cFrames[i], frames, mode, ratio, i, durations[i])
    ensures |layers| == |frames|
    ensures forall i: nat | i < |frames| :: IsPlanned(layers[i], frames, mode, ratio, i, durations[i])
  {
    hide Emits, IsPlanned, Unpacks;
    var haveAnimation := exists i :: 0 <= i < |cFrames| && cFrames[i].duration != 0;
    layers := [];
    for i := 0 to |cFrames|
      invariant |layers| == i
      invariant forall j: nat | j < i :: IsPlanned(layers[j], frames, mode, ratio, j, durations[j])
    {
      var header := MakeFrameHeader(canvasX, canvasY, W.Some(cFrames[i]), haveAnimation);
      EmitsPlanned(cFrames[i], header, frames, mode, ratio, i, durations[i]);
      layers := layers + [Layer(header, cFrames[i].pixels)];
    }
  }

  // The whole encoder: one planned layer for each frame.
  method EncodeLayers(frames: seq<Frame>, dtypes: seq<Dtype>, bits: int, mode: Mode, ratio: real, durations: Durations)
    returns (r: Result<seq<Layer>>)
    requires |dtypes| == |frames| && forall i: nat | i < |frames| :: frames[i].Valid()
    ensures r.Ok? <==> Encodable(frames, dtypes, bits, mode, durations)
    ensures r.Ok? ==> |r.value| == |frames|
    ensures r.Ok? ==> forall i: nat | i < |frames| ::
              IsPlanned(r.value[i], frames, mode, ratio, i, Ticks(durations, |frames|)[i])
  {
    hide Emits, IsPlanned, IntegerMaskValue, ValidDurations, OneDtype, Ticks;
    var cFrames := EncodeMultiframe(frames, dtypes, bits, mode, ratio, durations);
    if cFrames.ValueError? {
      return ValueError;
    }
    var layers := PackFrames(cFrames.value, frames[0].shape.width, frames[0].shape.height, frames, mode, ratio,
                             Ticks(durations, |frames|));
    return Ok(layers);
  }
}
