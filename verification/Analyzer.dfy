// The frame analyzer and the comparison of reference modes: jxlpy/multiframe.py.
module Analyzer {
  import opened FrameDiff
  import opened Multiframe

  datatype FrameRecord = FrameRecord(
    index: nat, sourceRef: nat, source: Source, saveAsRef: nat, useCrop: bool, bbox: Box, crop: Box,
    changedPixels: nat, changedPct: real, bboxArea: nat, bboxPct: real, encodedArea: nat, encodedPct: real)

  datatype Report = Report(frames: seq<FrameRecord>, avgBboxPct: real, avgEncodedPct: real, avgChangedPct: real)

  predicate Analyzable(mode: Mode) {
    mode != Additive && mode != BlendMask
  }

  function SourceName(slot: nat): Source {
    if slot == 1 then PreviousFrame else if slot == 2 then FirstFrame else NoSource
  }

  // What is reported about the differences of a frame.
  ghost function ReportedDiff(frames: seq<Frame>, mode: Mode, i: nat): DiffStats
    requires Uniform(frames) && i < |frames|
  {
    var full, whole := FullArea(frames[0].shape), WholeCanvas(frames[0].shape);
    if i == 0 then DiffStats(whole, full, 100.0, full)
    else if mode == None || mode == Full then
      var diff := Stats(frames[i], frames[i - 1]);
      DiffStats(whole, diff.changedPixels, diff.changedPct, full)
    else BestReference(frames, mode, i).diff
  }

  function BoxPercent(mode: Mode, i: nat, area: nat, full: nat): real {
    if i == 0 || mode == None || mode == Full then 100.0 else Percent(area, full)
  }

  // Every frame's box is reported as its share of the canvas.
  lemma BoxPercentIsShare(frames: seq<Frame>, mode: Mode, i: nat)
    requires Uniform(frames) && i < |frames| && FullArea(frames[0].shape) > 0
    ensures var area, full := ReportedDiff(frames, mode, i).bboxArea, FullArea(frames[0].shape);
            BoxPercent(mode, i, area, full) == Percent(area, full)
  {
    hide Stats, BestReference, FullArea;
    var full := FullArea(frames[0].shape) as real;
    assert full / full == 1.0;
  }

  // The record of frame i says what the plan does.
  ghost predicate RecordFollows(rec: FrameRecord, frames: seq<Frame>, mode: Mode, ratio: real, i: nat)
    requires Uniform(frames) && i < |frames|
  {
    var plan, diff := PlanOf(frames, mode, ratio, i), ReportedDiff(frames, mode, i);
    && rec.index == i && rec.sourceRef == plan.slot && rec.source == SourceName(plan.slot)
    && rec.saveAsRef == plan.save && rec.useCrop == plan.crop && rec.crop == plan.box
    && plan.box.x0 <= plan.box.x1 && plan.box.y0 <= plan.box.y1 && rec.encodedArea == Area(plan.box)
    && rec.bbox == diff.bbox && rec.bboxArea == diff.bboxArea && rec.changedPixels == diff.changedPixels
    && rec.changedPct == diff.changedPct && rec.encodedPct == Percent(rec.encodedArea, FullArea(frames[0].shape))
    && rec.bboxPct == BoxPercent(mode, i, rec.bboxArea, FullArea(frames[0].shape))
  }

  // The box of a record in terms of its area and the full area.
  function Record(index: nat, sourceRef: nat, source: Source, saveRef: nat, useCrop: bool, crop: Box, diff: DiffStats,
                  bboxPct: real, encodedArea: nat, fullArea: nat): FrameRecord
  {
    FrameRecord(index, sourceRef, source, saveRef, useCrop, diff.bbox, crop, diff.changedPixels, diff.changedPct,
                diff.bboxArea, bboxPct, encodedArea, Percent(encodedArea, fullArea))
  }

  method AnalyzeSelected(i: nat, frames: seq<Frame>, refs: map<nat, Frame>, mode: Mode, ratio: real)
    returns (rec: FrameRecord)
    requires Uniform(frames) && 1 <= i < |frames| && (mode == Auto || mode == First || mode == Previous)
    requires RefsFit(refs, frames) && RefsMirror(refs, frames, mode, i)
    ensures RecordFollows(rec, frames, mode, ratio, i)
  {
    hide Selected, BestReference, RefsFit, RefsMirror, Crops, Stats, Product, Percent;
    var shape, fullArea := frames[0].shape, FullArea(frames[0].shape);
    var choice := SelectReferenceBbox(i, frames[i], frames, refs, mode);
    SelectionFollowsPlan(refs, frames, mode, i);
    BestShape(frames, mode, i);
    var sourceRef, diff, source := choice.value.slot, choice.value.diff, choice.value.source;
    var useCrop, crop := false, diff.bbox;
    if Crops(diff.bboxArea, fullArea, ratio) {
      useCrop := true;
    } else {
      sourceRef := 0;
      source := NoSource;
      crop := WholeCanvas(shape);
    }
    var saveRef := 0;
    if mode == Previous || mode == Auto {
      saveRef := 1;
    }
    rec := Record(i, sourceRef, source, saveRef, useCrop, crop, diff, Percent(diff.bboxArea, fullArea),
                  if useCrop then diff.bboxArea else fullArea, fullArea);
  }

  lemma BestShape(frames: seq<Frame>, mode: Mode, i: nat)
    requires Uniform(frames) && 1 <= i < |frames|
    ensures var best := BestReference(frames, mode, i);
      && best.source == SourceName(best.slot) && best.slot != 0
      && best.diff.bbox.x0 < best.diff.bbox.x1 && best.diff.bbox.y0 < best.diff.bbox.y1
      && best.diff.bboxArea == Area(best.diff.bbox)
  {
    hide Better, Product;
  }

  function Sum(s: seq<real>): real {
    if s == [] then 0.0 else Sum(s[..|s| - 1]) + s[|s| - 1]
  }

  // Of a still image, 100 percent.
  function Mean(s: seq<real>): real {
    if s == [] then 100.0 else Sum(s) / |s| as real
  }

  lemma {:induction false} SumJoins(a: seq<real>, b: seq<real>)
    ensures Sum(a + b) == Sum(a) + Sum(b)
    decreases b
  {
    if b == [] {
      assert a + b == a;
    } else {
      SumJoins(a, b[..|b| - 1]);
      assert (a + b)[..|a + b| - 1] == a + b[..|b| - 1];
    }
  }

  lemma {:induction false} SumOfEqual(s: seq<real>, x: real)
    requires forall y :: y in s ==> y == x
    ensures Sum(s) == |s| as real * x
  {
    if s != [] {
      var rest, last := s[..|s| - 1], s[|s| - 1];
      assert last in s && forall y :: y in rest ==> y in s;
      SumOfEqual(rest, x);
      assert |s| as real * x == |rest| as real * x + x;
    }
  }

  // A mean stands for its values: as often as there are values, it has their sum.
  lemma MeanIs(s: seq<real>)
    requires s != []
    ensures Mean(s) * |s| as real == Sum(s)
  {
    hide Sum;
  }

  lemma MeanOfEqual(s: seq<real>, x: real)
    requires s != [] && forall y :: y in s ==> y == x
    ensures Mean(s) == x
  {
    SumOfEqual(s, x);
    hide Sum;
    assert |s| as real * x / |s| as real == x;
  }

  ghost function EncodedArea(frames: seq<Frame>, mode: Mode, ratio: real, i: nat): nat
    requires Uniform(frames) && i < |frames|
  {
    PlanFits(frames, mode, ratio, i);
    Area(PlanOf(frames, mode, ratio, i).box)
  }

  // The averages of a run, from the frames alone.
  ghost function BoxPercents(frames: seq<Frame>, mode: Mode): seq<real>
    requires Uniform(frames) && frames != []
  {
    var full := FullArea(frames[0].shape);
    seq(|frames| - 1, k requires 0 <= k < |frames| - 1 =>
      BoxPercent(mode, k + 1, ReportedDiff(frames, mode, k + 1).bboxArea, full))
  }

  ghost function EncodedPercents(frames: seq<Frame>, mode: Mode, ratio: real): seq<real>
    requires Uniform(frames) && frames != []
  {
    var full := FullArea(frames[0].shape);
    seq(|frames| - 1, k requires 0 <= k < |frames| - 1 => Percent(EncodedArea(frames, mode, ratio, k + 1), full))
  }

  ghost function ChangedPercents(frames: seq<Frame>, mode: Mode): seq<real>
    requires Uniform(frames) && frames != []
  {
    seq(|frames| - 1, k requires 0 <= k < |frames| - 1 => ReportedDiff(frames, mode, k + 1).changedPct)
  }

  // The averages leave out frame 0.
  function ReportOf(stats: seq<FrameRecord>): Report
    requires stats != []
  {
    var tail := stats[1..];
    Report(stats, Mean(seq(|tail|, k requires 0 <= k < |tail| => tail[k].bboxPct)),
           Mean(seq(|tail|, k requires 0 <= k < |tail| => tail[k].encodedPct)),
           Mean(seq(|tail|, k requires 0 <= k < |tail| => tail[k].changedPct)))
  }

  // Records of all frames; accepted exactly for a non-empty list of frames of
  // one shape, in the five replacing modes.
  method AnalyzeFrameArrays(frames: seq<Frame>, dtypes: seq<Dtype>, mode: Mode, ratio: real) returns (r: Result<Report>)
    requires |dtypes| == |frames| && forall i: nat | i < |frames| :: frames[i].Valid()
    ensures r.Ok? <==> Analyzable(mode) && frames != [] && Uniform(frames) && OneDtype(dtypes)
    ensures r.Ok? ==> |r.value.frames| == |frames| && r.value == ReportOf(r.value.frames)
    ensures r.Ok? ==> forall i: nat | i < |frames| :: RecordFollows(r.value.frames[i], frames, mode, ratio, i)
    ensures r.Ok? ==> Averages(r.value, frames, mode, ratio)
  {
    hide RecordFollows, RefsFit, RefsMirror, PlanOf, Product, Percent, OneDtype;
    if mode == Additive || mode == BlendMask {
      return ValueError;
    }
    var ok := CheckFrames(frames, dtypes);
    if !ok {
      return ValueError;
    }
    var fullArea, whole := FullArea(frames[0].shape), WholeCanvas(frames[0].shape);
    var refs: map<nat, Frame> := map[];
    var stats: seq<FrameRecord> := [];
    for i := 0 to |frames|
      invariant |stats| == i
      invariant if i == 0 then refs == map[] else RefsFit(refs, frames) && RefsMirror(refs, frames, mode, i)
      invariant forall j: nat | j < i :: RecordFollows(stats[j], frames, mode, ratio, j)
    {
      var rec: FrameRecord;
      if i == 0 {
        rec := AnalyzeFirst(frames, mode, ratio);
      } else if mode == None || mode == Full {
        rec := AnalyzeFull(i, frames, mode, ratio);
      } else {
        rec := AnalyzeSelected(i, frames, refs, mode, ratio);
      }
      stats := stats + [rec];
      RefsStep(refs, frames, frames, mode, ratio, i);
      RecordSave(rec, frames, mode, ratio, i);
      if rec.saveAsRef != 0 {
        refs := refs[rec.saveAsRef := frames[i]];
      }
    }
    AveragesFollow(stats, frames, mode, ratio);
    return Ok(ReportOf(stats));
  }

  ghost predicate Averages(report: Report, frames: seq<Frame>, mode: Mode, ratio: real)
    requires Uniform(frames) && frames != []
  {
    && report.avgBboxPct == Mean(BoxPercents(frames, mode))
    && report.avgEncodedPct == Mean(EncodedPercents(frames, mode, ratio))
    && report.avgChangedPct == Mean(ChangedPercents(frames, mode))
  }

  lemma AveragesFollow(stats: seq<FrameRecord>, frames: seq<Frame>, mode: Mode, ratio: real)
    requires Uniform(frames) && |stats| == |frames| > 0
    requires forall i: nat | i < |frames| :: RecordFollows(stats[i], frames, mode, ratio, i)
    ensures Averages(ReportOf(stats), frames, mode, ratio)
  {
    hide PlanOf, ReportedDiff, Percent, BoxPercent, Product;
    var tail := stats[1..];
    forall k: nat | k < |tail|
      ensures RecordFollows(tail[k], frames, mode, ratio, k + 1)
    {
      assert tail[k] == stats[k + 1];
    }
    assert seq(|tail|, k requires 0 <= k < |tail| => tail[k].bboxPct) == BoxPercents(frames, mode);
    assert seq(|tail|, k requires 0 <= k < |tail| => tail[k].encodedPct) == EncodedPercents(frames, mode, ratio);
    assert seq(|tail|, k requires 0 <= k < |tail| => tail[k].changedPct) == ChangedPercents(frames, mode);
  }

  lemma RecordSave(rec: FrameRecord, frames: seq<Frame>, mode: Mode, ratio: real, i: nat)
    requires Uniform(frames) && i < |frames| && RecordFollows(rec, frames, mode, ratio, i)
    ensures rec.saveAsRef == PlanOf(frames, mode, ratio, i).save
  {
  }

  method AnalyzeFirst(frames: seq<Frame>, mode: Mode, ratio: real) returns (rec: FrameRecord)
    requires Uniform(frames) && frames != [] && Analyzable(mode)
    ensures RecordFollows(rec, frames, mode, ratio, 0)
  {
    hide Product, Percent;
    var fullArea, whole := FullArea(frames[0].shape), WholeCanvas(frames[0].shape);
    var saveRef := 0;
    if (mode == Auto || mode == First) && |frames| > 1 {
      saveRef := 2;
    } else if mode == Previous && |frames| > 1 {
      saveRef := 1;
    }
    rec := Record(0, 0, NoSource, saveRef, false, whole, DiffStats(whole, fullArea, 100.0, fullArea), 100.0, fullArea,
                  fullArea);
  }

  method AnalyzeFull(i: nat, frames: seq<Frame>, mode: Mode, ratio: real) returns (rec: FrameRecord)
    requires Uniform(frames) && 1 <= i < |frames| && (mode == None || mode == Full)
    ensures RecordFollows(rec, frames, mode, ratio, i)
  {
    hide Product, Percent, Stats;
    var fullArea, whole := FullArea(frames[0].shape), WholeCanvas(frames[0].shape);
    var diff := MeasureDiff(frames[i], frames[i - 1]);
    rec := Record(i, 0, NoSource, 0, false, whole,
                  DiffStats(whole, diff.value.changedPixels, diff.value.changedPct, fullArea), 100.0, fullArea,
                  fullArea);
  }

  // ---------------------------------------------------------------------
  // The analyzer and the encoder agree.

  ghost predicate Matches(rec: FrameRecord, layer: Layer) {
    var h := layer.header;
    && rec.sourceRef == h.source && rec.useCrop == h.haveCrop && rec.saveAsRef == h.saveAsReference && h.mode == Replace
    && rec.crop == Box(h.x0, h.y0, h.x0 + h.xsize, h.y0 + h.ysize)
    && |layer.pixels| == h.ysize && (forall y: nat | y < h.ysize :: |layer.pixels[y]| == h.xsize)
    && rec.encodedArea == Product(h.xsize, h.ysize)
  }

  // On every frame of every run in a replacing mode, the record is that of the
  // layer: source, crop, rectangle, slot to save, and number of pixels.
  lemma RecordsMatchLayers(rec: FrameRecord, layer: Layer, frames: seq<Frame>, mode: Mode, ratio: real, i: nat,
                           duration: nat)
    requires Uniform(frames) && i < |frames| && Analyzable(mode)
    requires RecordFollows(rec, frames, mode, ratio, i) && IsPlanned(layer, frames, mode, ratio, i, duration)
    ensures Matches(rec, layer)
  {
    hide Product, PayloadPixel, ReportedDiff, Stats, BestReference, Crops;
    ReplacingPlan(frames, mode, ratio, i);
    hide PlanOf;
  }

  lemma ReplacingPlan(frames: seq<Frame>, mode: Mode, ratio: real, i: nat)
    requires Uniform(frames) && i < |frames| && Analyzable(mode)
    ensures PlanOf(frames, mode, ratio, i).blend == Replace
  {
    hide Stats, BestReference, Crops;
  }

  // Both at once.
  method AnalyzeAndEncode(frames: seq<Frame>, dtypes: seq<Dtype>, bits: int, mode: Mode, ratio: real,
                          durations: Durations) returns (report: Result<Report>, layers: Result<seq<Layer>>)
    requires |dtypes| == |frames| && forall i: nat | i < |frames| :: frames[i].Valid()
    requires Analyzable(mode)
    ensures layers.Ok? <==> report.Ok? && ValidDurations(durations, |frames|)
    ensures layers.Ok? ==> |report.value.frames| == |layers.value| == |frames|
    ensures layers.Ok? ==> forall i: nat | i < |frames| :: Matches(report.value.frames[i], layers.value[i])
  {
    hide RecordFollows, IsPlanned, Matches, OneDtype, ValidDurations, Ticks;
    report := AnalyzeFrameArrays(frames, dtypes, mode, ratio);
    layers := EncodeLayers(frames, dtypes, bits, mode, ratio, durations);
    if layers.Ok? {
      var ticks := Ticks(durations, |frames|);
      forall i: nat | i < |frames|
        ensures Matches(report.value.frames[i], layers.value[i])
      {
        RecordsMatchLayers(report.value.frames[i], layers.value[i], frames, mode, ratio, i, ticks[i]);
      }
    }
  }

  // ---------------------------------------------------------------------
  // Encoded areas.

  // The area that is sent for a difference.
  function Sent(area: nat, full: nat, ratio: real): nat {
    if Crops(area, full, ratio) then area else full
  }

  lemma SentIsMonotone(a: nat, b: nat, full: nat, ratio: real)
    requires a <= b && (full > 0 ==> b <= full)
    ensures Sent(a, full, ratio) <= Sent(b, full, ratio) <= full
  {
    ZeroTimes(ratio);
  }

  ghost predicate SelectingMode(mode: Mode) {
    mode == Auto || mode == First || mode == Previous
  }

  lemma SelectedArea(frames: seq<Frame>, mode: Mode, ratio: real, i: nat)
    requires Uniform(frames) && 1 <= i < |frames| && SelectingMode(mode)
    ensures EncodedArea(frames, mode, ratio, i)
         == Sent(BestReference(frames, mode, i).diff.bboxArea, FullArea(frames[i].shape), ratio)
  {
    BestShape(frames, mode, i);
    hide BestReference, Crops, Product;
  }

  lemma StatsArea(current: Frame, reference: Frame)
    requires current.Valid() && reference.Valid() && current.shape == reference.shape
    ensures Stats(current, reference).bboxArea >= 1
    ensures FullArea(current.shape) > 0 ==> Stats(current, reference).bboxArea <= FullArea(current.shape)
  {
    AreaPositive(Stats(current, reference).bbox);
    ProductSwap(current.shape.width, current.shape.height);
    if FullArea(current.shape) > 0 {
      AreaFits(Changed(current, reference), current.shape.width);
    }
    hide *;
  }

  lemma ProductSwap(a: nat, b: nat)
    ensures Product(a, b) == Product(b, a)
  {
  }

  // Mode auto never sends more than previous or first, and none of the three
  // more than the whole canvas, which is what the other modes send.
  lemma AutoIsLeast(frames: seq<Frame>, mode: Mode, ratio: real, i: nat)
    requires Uniform(frames) && i < |frames| && Analyzable(mode)
    ensures EncodedArea(frames, Auto, ratio, i) <= EncodedArea(frames, mode, ratio, i) <= FullArea(frames[i].shape)
  {
    hide EncodedArea, Stats, Sent, FullArea, Crops;
    var full := FullArea(frames[i].shape);
    if i > 0 {
      SelectedArea(frames, Auto, ratio, i);
      StatsArea(frames[i], frames[i - 1]);
      StatsArea(frames[i], frames[0]);
      var best := BestReference(frames, Auto, i).diff.bboxArea;
      SentIsMonotone(best, best, full, ratio);
      if SelectingMode(mode) {
        SelectedArea(frames, mode, ratio, i);
        SentIsMonotone(best, BestReference(frames, mode, i).diff.bboxArea, full, ratio);
      } else {
        WholeArea(frames, mode, ratio, i);
      }
    } else {
      WholeArea(frames, Auto, ratio, i);
      WholeArea(frames, mode, ratio, i);
    }
  }

  lemma WholeArea(frames: seq<Frame>, mode: Mode, ratio: real, i: nat)
    requires Uniform(frames) && i < |frames| && (i == 0 || mode == None || mode == Full)
    ensures EncodedArea(frames, mode, ratio, i) == FullArea(frames[i].shape)
  {
    hide Product;
  }

  // ---------------------------------------------------------------------
  // Comparing modes.

  datatype Summary = Summary(total: nat, avgEncodedPct: real, avgBboxPct: real, avgChangedPct: real)

  ghost function TotalTo(frames: seq<Frame>, mode: Mode, ratio: real, n: nat): nat
    requires Uniform(frames) && n <= |frames|
  {
    if n == 0 then 0 else TotalTo(frames, mode, ratio, n - 1) + EncodedArea(frames, mode, ratio, n - 1)
  }

  // What a mode sends, over all frames.
  ghost function TotalArea(frames: seq<Frame>, mode: Mode, ratio: real): nat
    requires Uniform(frames)
  {
    TotalTo(frames, mode, ratio, |frames|)
  }

  // The summary of a mode, from the frames alone.
  ghost function SummaryOf(frames: seq<Frame>, mode: Mode, ratio: real): Summary
    requires Uniform(frames) && frames != []
  {
    Summary(TotalArea(frames, mode, ratio), Mean(EncodedPercents(frames, mode, ratio)),
            Mean(BoxPercents(frames, mode)), Mean(ChangedPercents(frames, mode)))
  }

  // A still image is sent whole, and its averages are 100 percent.
  lemma StillSummary(frames: seq<Frame>, mode: Mode, ratio: real)
    requires Uniform(frames) && |frames| == 1
    ensures SummaryOf(frames, mode, ratio) == Summary(FullArea(frames[0].shape), 100.0, 100.0, 100.0)
  {
    hide Stats, BestReference, Crops;
    assert BoxPercents(frames, mode) == [] && EncodedPercents(frames, mode, ratio) == [];
    assert ChangedPercents(frames, mode) == [];
    assert TotalTo(frames, mode, ratio, 0) == 0;
    assert TotalArea(frames, mode, ratio) == EncodedArea(frames, mode, ratio, 0);
  }

  predicate Less(a: Summary, b: Summary) {
    a.total < b.total || (a.total == b.total && a.avgChangedPct < b.avgChangedPct)
  }

  method Summarize(report: Report, ghost frames: seq<Frame>, ghost mode: Mode, ghost ratio: real) returns (s: Summary)
    requires Uniform(frames) && |report.frames| == |frames| > 0 && Averages(report, frames, mode, ratio)
    requires forall i: nat | i < |frames| :: RecordFollows(report.frames[i], frames, mode, ratio, i)
    ensures s == SummaryOf(frames, mode, ratio)
  {
    hide PlanOf, ReportedDiff, Product, Mean, BoxPercents, EncodedPercents, ChangedPercents;
    var total := 0;
    for i := 0 to |report.frames|
      invariant total == TotalTo(frames, mode, ratio, i)
    {
      assert RecordFollows(report.frames[i], frames, mode, ratio, i);
      total := total + report.frames[i].encodedArea;
    }
    return Summary(total, report.avgEncodedPct, report.avgBboxPct, report.avgChangedPct);
  }

  ghost predicate Comparable(frames: seq<Frame>, dtypes: seq<Dtype>, modes: seq<Mode>) {
    && frames != [] && Uniform(frames) && OneDtype(dtypes)
    && modes != [] && forall m :: m in modes ==> Analyzable(m)
  }

  // The keys of `reports`, in the order of insertion: order[k] was first named
  // at position at[k].
  ghost predicate Ordered(order: seq<Mode>, at: seq<nat>, reports: map<Mode, Summary>, modes: seq<Mode>, n: nat)
    requires n <= |modes|
  {
    && (forall m :: m in reports <==> m in modes[..n]) && (forall m :: m in reports <==> m in order)
    && |at| == |order| && forall k: nat | k < |order| :: FirstNamed(order, at, modes, n, k)
  }

  ghost predicate FirstNamed(order: seq<Mode>, at: seq<nat>, modes: seq<Mode>, n: nat, k: nat)
    requires n <= |modes| && k < |order| == |at|
  {
    at[k] < n && modes[at[k]] == order[k] && forall j: nat | j < at[k] :: modes[j] in order[..k]
  }

  lemma OrderedStep(order: seq<Mode>, at: seq<nat>, reports: map<Mode, Summary>, modes: seq<Mode>, n: nat, s: Summary)
    requires n < |modes| && Ordered(order, at, reports, modes, n)
    ensures var new' := modes[n] !in reports;
            Ordered(if new' then order + [modes[n]] else order, if new' then at + [n] else at,
                    reports[modes[n] := s], modes, n + 1)
  {
    var m, next := modes[n], n + 1;
    assert modes[..next] == modes[..n] + [m];
    var order', at' := if m !in reports then order + [m] else order, if m !in reports then at + [n] else at;
    forall k: nat | k < |order'|
      ensures FirstNamed(order', at', modes, next, k)
    {
      if k < |order| {
        assert FirstNamed(order, at, modes, n, k);
        assert order'[..k] == order[..k];
      } else {
        assert order'[..k] == order;
        forall j: nat | j < n
          ensures modes[j] in order
        {
          assert modes[..n][j] in reports;
        }
      }
    }
  }

  // The winner: no key is less, and all modes named before it have greater keys.
  ghost predicate Wins(best: Mode, reports: map<Mode, Summary>, modes: seq<Mode>)
    requires forall m | m in modes :: m in reports
  {
    && best in modes && (forall m | m in modes :: !Less(reports[m], reports[best]))
    && exists k: nat :: k < |modes| && modes[k] == best
                     && forall j: nat | j < k :: Less(reports[best], reports[modes[j]])
  }

  // Summaries for each mode, and the least one: least total first, then least
  // change, then the mode named first.
  method CompareReferenceModes(frames: seq<Frame>, dtypes: seq<Dtype>, ratio: real, modes: seq<Mode>)
    returns (r: Result<Mode>, reports: map<Mode, Summary>)
    requires |dtypes| == |frames| && forall i: nat | i < |frames| :: frames[i].Valid()
    ensures r.Ok? <==> Comparable(frames, dtypes, modes)
    ensures r.Ok? ==> (forall m :: m in reports <==> m in modes)
    ensures r.Ok? ==> forall m | m in modes :: reports[m] == SummaryOf(frames, m, ratio)
    ensures r.Ok? ==> Wins(r.value, reports, modes)
  {
    hide RecordFollows, SummaryOf, FirstNamed, Less, Averages, OneDtype;
    reports := map[];
    var order: seq<Mode> := [];
    ghost var at: seq<nat> := [];
    for i := 0 to |modes|
      invariant i > 0 ==> frames != [] && Uniform(frames) && OneDtype(dtypes)
      invariant forall m :: m in modes[..i] ==> Analyzable(m)
      invariant Ordered(order, at, reports, modes, i) && (order == [] <==> i == 0)
      invariant forall m | m in reports :: i > 0 && reports[m] == SummaryOf(frames, m, ratio)
    {
      var report := AnalyzeFrameArrays(frames, dtypes, modes[i], ratio);
      if report.ValueError? {
        return ValueError, reports;
      }
      var summary := Summarize(report.value, frames, modes[i], ratio);
      assert modes[..i + 1] == modes[..i] + [modes[i]];
      OrderedStep(order, at, reports, modes, i, summary);
      if modes[i] !in reports {
        order, at := order + [modes[i]], at + [i];
      }
      reports := reports[modes[i] := summary];
    }
    assert modes[..|modes|] == modes;
    if order == [] {
      return ValueError, reports;
    }
    var best, k := FirstLeast(order, reports);
    FirstWins(best, k, order, at, reports, modes);
    return Ok(best), reports;
  }

  lemma FirstWins(best: Mode, k: nat, order: seq<Mode>, at: seq<nat>, reports: map<Mode, Summary>, modes: seq<Mode>)
    requires Ordered(order, at, reports, modes, |modes|) && k < |order| && order[k] == best
    requires forall m | m in order :: !Less(reports[m], reports[best])
    requires forall j: nat | j < k :: Less(reports[best], reports[order[j]])
    ensures forall m | m in modes :: m in reports
    ensures Wins(best, reports, modes)
  {
    hide Less;
    assert modes[..|modes|] == modes && FirstNamed(order, at, modes, |modes|, k);
    forall j: nat | j < at[k]
      ensures Less(reports[best], reports[modes[j]])
    {
      var i :| 0 <= i < k && order[..k][i] == modes[j];
    }
  }

  // The first of the least.
  method FirstLeast(order: seq<Mode>, reports: map<Mode, Summary>) returns (best: Mode, ghost k: nat)
    requires order != [] && forall m :: m in order ==> m in reports
    ensures best in order && forall m | m in order :: !Less(reports[m], reports[best])
    ensures k < |order| && order[k] == best && forall j: nat | j < k :: Less(reports[best], reports[order[j]])
  {
    best, k := order[0], 0;
    for i := 1 to |order|
      invariant k < i && order[k] == best && forall j: nat | j < k :: Less(reports[best], reports[order[j]])
      invariant forall j: nat | j < i :: !Less(reports[order[j]], reports[best])
    {
      if Less(reports[order[i]], reports[best]) {
        best := order[i];
        k := i;
      }
    }
  }

  lemma {:induction false} AutoTotal(frames: seq<Frame>, mode: Mode, ratio: real, n: nat)
    requires Uniform(frames) && n <= |frames| && Analyzable(mode)
    ensures TotalTo(frames, Auto, ratio, n) <= TotalTo(frames, mode, ratio, n)
  {
    hide EncodedArea;
    if n > 0 {
      AutoTotal(frames, mode, ratio, n - 1);
      AutoIsLeast(frames, mode, ratio, n - 1);
    }
  }

  // Whenever auto is compared, the winner sends as much as auto.
  lemma WinnerSendsAsAuto(frames: seq<Frame>, dtypes: seq<Dtype>, ratio: real, modes: seq<Mode>, best: Mode,
                          reports: map<Mode, Summary>)
    requires Comparable(frames, dtypes, modes) && Auto in modes
    requires forall m | m in modes :: m in reports && reports[m] == SummaryOf(frames, m, ratio)
    requires Wins(best, reports, modes)
    ensures TotalArea(frames, best, ratio) == TotalArea(frames, Auto, ratio)
  {
    AutoTotal(frames, best, ratio, |frames|);
    assert !Less(reports[Auto], reports[best]);
    hide TotalTo;
  }
}
