/**
  The per-event plotting of `plotZSAnalysis` (Plotting/plotZSAnalysis.C): the
  checks and data selections of `plot`, the loop over the events to plot, and the
  whole run from the two trees to the list of drawings. Canvases, colours,
  legends and the saved PNG files are not modelled; a drawing is the data that
  would be handed to the graphs.
*/
module ZSPlot {
  import opened Base
  import opened Seqs
  import opened ZSIngest
  import opened ZSEvents
  import opened ZSWindow
  import opened ZSSegments

  /** The two `type` values `plot` is called with, in this order. */
  datatype PlotKind = FitPlot | ResultsPlot

  /** The window limits in ns (`tMinns`, `tMaxns`) and the data both plot kinds draw from. */
  datatype Frame = Frame(lowNs: real, highNs: real, input: InputSlice, output: Trace)

  /**
    A "fit" plot draws the gradients, the averaged gradients and the threshold
    line; a "results" plot draws the input ADCs and one graph per output segment.
  */
  datatype Drawing =
    | FitDrawing(frame: Frame, threshold: real)
    | ResultsDrawing(frame: Frame, splits: seq<int>, segments: seq<Trace>)

  /** `tMinFull`: the earliest input or output time, less the start of the first event. */
  function FullRangeStart(inp: EventInput, out: EventOutput): real
    requires |inp.times| > 0 && |out.times| > 0
  {
    Min(MinOf(inp.times), MinOf(out.times)) - Event0Ns
  }

  /** `tMaxFull`: the latest input or output time, less the start of the first event. */
  function FullRangeEnd(inp: EventInput, out: EventOutput): real
    requires |inp.times| > 0 && |out.times| > 0
  {
    Max(MaxOf(inp.times), MaxOf(out.times)) - Event0Ns
  }

  /** The tick range of `plot`: the requested window cut to the data range. */
  function CutOf(inp: EventInput, out: EventOutput, tMin: real, tMax: real): Result<Cut, PlotError>
    requires |inp.times| > 0 && |out.times| > 0
  {
    CutIndexes(tMin, tMax, FullRangeStart(inp, out), FullRangeEnd(inp, out))
  }

  /** The input samples of ticks `[lo, hi)` and the output samples strictly inside them. */
  function FrameAt(inp: EventInput, out: EventOutput, lo: int, hi: int): Result<Frame, PlotError>
    requires inp.Aligned() && out.Aligned() && 0 <= lo <= hi <= |inp.adcs|
  {
    var lowNs := lo as real * TickNs;
    var highNs := hi as real * TickNs;
    var trace := WindowOutputOf(out, lowNs, highNs);
    if |trace.times| == 0 then Err(NoOutputPoints)
    else Ok(Frame(lowNs, highNs, InputSliceOf(inp, lo, hi), trace))
  }

  /**
    The fatal checks and selections of `plot`, common to both kinds. The source
    indexes the input buffers from `tMinCutIndex` to `tMaxCutIndex` unchecked; an
    index outside them is reported here as `InputIndexOutOfRange`.
  */
  function FrameOf(inp: EventInput, out: EventOutput, tMin: real, tMax: real): Result<Frame, PlotError>
    requires inp.Aligned() && out.Aligned() && |inp.times| > 0 && |out.times| > 0
  {
    match CutOf(inp, out, tMin, tMax)
    case Err(e) => Err(e)
    case Ok(cut) =>
      if cut.lo < 0 || cut.hi > |inp.adcs| || cut.hi < cut.lo then Err(InputIndexOutOfRange)
      else FrameAt(inp, out, cut.lo, cut.hi)
  }

  /** What one call of `plot` draws. */
  function PlotOf(inp: EventInput, out: EventOutput, threshold: real, tMin: real, tMax: real, kind: PlotKind)
    : Result<Drawing, PlotError>
    requires inp.Aligned() && out.Aligned() && |inp.times| > 0 && |out.times| > 0
  {
    match FrameOf(inp, out, tMin, tMax)
    case Err(e) => Err(e)
    case Ok(f) =>
      if kind == FitPlot then Ok(FitDrawing(f, threshold))
      else
        var splits := SplitIndexesOf(f.output.times);
        Ok(ResultsDrawing(f, splits, SegmentsOf(f.output, splits)))
  }

  /** The selection loops of `plot` for the ticks `[lo, hi)`, and the check that some output remains. */
  method SelectFrame(inp: EventInput, out: EventOutput, lo: int, hi: int) returns (r: Result<Frame, PlotError>)
    requires inp.Aligned() && out.Aligned() && 0 <= lo <= hi <= |inp.adcs|
    ensures r == FrameAt(inp, out, lo, hi)
  {
    var lowNs, highNs := lo as real * TickNs, hi as real * TickNs;
    var slice := SliceInput(inp, lo, hi);
    var trace := WindowOutput(out, lowNs, highNs);
    if |trace.times| == 0 {
      return Err(NoOutputPoints);
    }
    r := Ok(Frame(lowNs, highNs, slice, trace));
  }

  /** The checks and selection loops of `plot`. */
  method ComputeFrame(inp: EventInput, out: EventOutput, tMin: real, tMax: real) returns (r: Result<Frame, PlotError>)
    requires inp.Aligned() && out.Aligned() && |inp.times| > 0 && |out.times| > 0
    ensures r == FrameOf(inp, out, tMin, tMax)
  {
    var tMinFull := Min(MinOf(inp.times), MinOf(out.times)) - Event0Ns;
    var tMaxFull := Max(MaxOf(inp.times), MaxOf(out.times)) - Event0Ns;
    var c := CutIndexes(tMin, tMax, tMinFull, tMaxFull);
    assert c == CutOf(inp, out, tMin, tMax);
    if c.Err? {
      return Err(c.error);
    }
    var lo, hi := c.value.lo, c.value.hi;
    if lo < 0 || hi > |inp.adcs| || hi < lo {
      return Err(InputIndexOutOfRange);
    }
    r := SelectFrame(inp, out, lo, hi);
  }

  /** `plot`, up to the drawing calls. */
  method Plot(inp: EventInput, out: EventOutput, threshold: real, tMin: real, tMax: real, kind: PlotKind)
    returns (r: Result<Drawing, PlotError>)
    requires inp.Aligned() && out.Aligned() && |inp.times| > 0 && |out.times| > 0
    ensures r == PlotOf(inp, out, threshold, tMin, tMax, kind)
  {
    var frame := ComputeFrame(inp, out, tMin, tMax);
    if frame.Err? {
      return Err(frame.error);
    }
    if kind == FitPlot {
      r := Ok(FitDrawing(frame.value, threshold));
    } else {
      var splits, plots := OutputPlots(frame.value.output);
      r := Ok(ResultsDrawing(frame.value, splits, plots));
    }
  }

  /** `static_cast<int>(x / tADC) * tADC` lies within one tick below `x`, and not above it when it is positive. */
  lemma TickFloor(x: real, n: int)
    requires n == TruncToInt(x / TickNs)
    ensures x - TickNs < n as real * TickNs
    ensures n > 0 ==> n as real * TickNs <= x
  {
    var q := x / TickNs;
    assert q * TickNs == x;
    if q >= 0.0 {
      assert n as real <= q < n as real + 1.0;
      assert n as real * TickNs <= q * TickNs;
      assert q * TickNs < (n as real + 1.0) * TickNs;
    } else {
      assert q <= n as real;
      assert q * TickNs <= n as real * TickNs;
    }
  }

  /**
    A frame fails exactly where `plot` stops: the requested start lies beyond the
    data, fewer than ten ticks remain, or the tick range leaves the event's input
    buffer; otherwise it fails only when no output sample falls inside the window.
  */
  lemma FrameErrors(inp: EventInput, out: EventOutput, tMin: real, tMax: real)
    requires inp.Aligned() && out.Aligned() && |inp.times| > 0 && |out.times| > 0
    ensures var r := FrameOf(inp, out, tMin, tMax);
      var lo := TruncToInt(WindowStart(tMin, FullRangeStart(inp, out)) / TickNs);
      var hi := TruncToInt(WindowEnd(tMax, FullRangeEnd(inp, out)) / TickNs);
      && (r == Err(MinAboveRange) <==> tMin > FullRangeEnd(inp, out))
      && (r == Err(TooFewEntries) <==> tMin <= FullRangeEnd(inp, out) && hi - lo < MinWindowTicks)
      && (r == Err(InputIndexOutOfRange) <==>
            tMin <= FullRangeEnd(inp, out) && hi - lo >= MinWindowTicks && (lo < 0 || hi > |inp.adcs|))
      && (r.Err? ==> r.error.MinAboveRange? || r.error.TooFewEntries? || r.error.InputIndexOutOfRange? ||
                     r.error.NoOutputPoints?)
  {
    CutIsIntersection(tMin, tMax, FullRangeStart(inp, out), FullRangeEnd(inp, out));
  }

  /**
    A frame that succeeds spans at least ten ticks, holds one input sample per
    tick and at least one output sample; its limits lie at most one tick below
    the effective start and not above the effective end of the window.
  */
  lemma FrameWindow(inp: EventInput, out: EventOutput, tMin: real, tMax: real)
    requires inp.Aligned() && out.Aligned() && |inp.times| > 0 && |out.times| > 0
    ensures var r := FrameOf(inp, out, tMin, tMax);
      var startNs := WindowStart(tMin, FullRangeStart(inp, out));
      var endNs := WindowEnd(tMax, FullRangeEnd(inp, out));
      var lo := TruncToInt(startNs / TickNs);
      var hi := TruncToInt(endNs / TickNs);
      r.Ok? ==>
        var f := r.value;
        && f.lowNs == lo as real * TickNs && f.highNs == hi as real * TickNs
        && f.highNs - f.lowNs >= MinWindowTicks as real * TickNs
        && startNs - TickNs < f.lowNs && f.highNs <= endNs
        && |f.input.times| == |f.input.adcs| == hi - lo
        && (forall k :: 0 <= k < hi - lo ==> f.input.times[k] == inp.times[lo + k])
        && |f.output.times| > 0
  {
    var tMinFull, tMaxFull := FullRangeStart(inp, out), FullRangeEnd(inp, out);
    var r := FrameOf(inp, out, tMin, tMax);
    if r.Ok? {
      CutIsIntersection(tMin, tMax, tMinFull, tMaxFull);
      var startNs, endNs := WindowStart(tMin, tMinFull), WindowEnd(tMax, tMaxFull);
      var lo, hi := TruncToInt(startNs / TickNs), TruncToInt(endNs / TickNs);
      TickFloor(startNs, lo);
      TickFloor(endNs, hi);
      assert (hi as real - lo as real) * TickNs >= MinWindowTicks as real * TickNs;
    }
  }

  /** The output samples of a frame lie strictly inside its limits. */
  lemma FrameOutputInside(inp: EventInput, out: EventOutput, tMin: real, tMax: real)
    requires inp.Aligned() && out.Aligned() && |inp.times| > 0 && |out.times| > 0
    ensures var r := FrameOf(inp, out, tMin, tMax);
      r.Ok? ==> forall k :: 0 <= k < |r.value.output.times| ==> r.value.lowNs < r.value.output.times[k] < r.value.highNs
  {
    var c := CutOf(inp, out, tMin, tMax);
    if c.Ok? && 0 <= c.value.lo <= c.value.hi <= |inp.adcs| {
      FrameAtInside(inp, out, c.value.lo, c.value.hi);
    }
  }

  /** The output samples of the frame of ticks `[lo, hi)` lie strictly inside it. */
  lemma FrameAtInside(inp: EventInput, out: EventOutput, lo: int, hi: int)
    requires inp.Aligned() && out.Aligned() && 0 <= lo <= hi <= |inp.adcs|
    ensures var r := FrameAt(inp, out, lo, hi);
      r.Ok? ==> forall k :: 0 <= k < |r.value.output.times| ==> r.value.lowNs < r.value.output.times[k] < r.value.highNs
  {
    WindowOutputKeepsInside(out, lo as real * TickNs, hi as real * TickNs);
  }

  /** Both kinds of plot succeed or fail together and draw from the same frame. */
  lemma KindsShareFrame(inp: EventInput, out: EventOutput, threshold: real, tMin: real, tMax: real)
    requires inp.Aligned() && out.Aligned() && |inp.times| > 0 && |out.times| > 0
    ensures var fit := PlotOf(inp, out, threshold, tMin, tMax, FitPlot);
      var res := PlotOf(inp, out, threshold, tMin, tMax, ResultsPlot);
      && (fit.Ok? <==> res.Ok?)
      && (fit.Err? ==> fit == res)
      && (fit.Ok? ==> fit.value.frame == res.value.frame && fit.value.FitDrawing? && res.value.ResultsDrawing?)
  {
  }

  /**
    The output graphs of a "results" plot are the gap segmentation of the
    windowed output stream: non-empty, joining up to the stream, never spanning a
    gap of more than one tick, separated from each other by such a gap, and a
    single graph exactly when there is no gap.
  */
  lemma ResultsSegments(inp: EventInput, out: EventOutput, threshold: real, tMin: real, tMax: real)
    requires inp.Aligned() && out.Aligned() && |inp.times| > 0 && |out.times| > 0
    ensures var r := PlotOf(inp, out, threshold, tMin, tMax, ResultsPlot);
      r.Ok? ==> |r.value.frame.output.times| > 0 && IsGapSegmentation(r.value.frame.output, r.value.segments)
  {
    var fr := FrameOf(inp, out, tMin, tMax);
    if fr.Ok? {
      var t := fr.value.output;
      assert |t.adcs| == |t.times| > 0;
      SegmentsOfIsGapSegmentation(t);
    }
  }

  /** The fatal conditions of the whole run. */
  datatype RunError =
    | InvalidBounds(bounds: BoundsError)
    | IngestFailed(ingest: IngestError)
    | SelectionFailed(selection: SelectionError)
    | EmptyEventInput(eventId: int)
    | EmptyEventOutput(eventId: int)
    | PlotFailed(eventId: int, plot: PlotError)

  /** The two plots of one event. */
  datatype EventPlots = EventPlots(eventId: int, fit: Drawing, results: Drawing)

  /**
    One pass of the event loop: select the event's rows, reject an empty
    selection, then plot "fit" and "results" from the same rows. Nothing carries
    over from the previous event, since the buffers are cleared after each.
  */
  function EventPlotsOf(a: AnalysisColumns, r: ResultColumns, id: int, threshold: real, tMin: real, tMax: real)
    : (e: Result<EventPlots, RunError>)
    requires a.Aligned() && r.Aligned()
    ensures e.Ok? ==> e.value.eventId == id
    ensures e.Err? ==> (e.error.EmptyEventInput? || e.error.EmptyEventOutput? || e.error.PlotFailed?) && e.error.eventId == id
    ensures e == Err(EmptyEventInput(id)) <==> id !in a.eventIds
    ensures e == Err(EmptyEventOutput(id)) <==> id in a.eventIds && id !in r.eventIds
  {
    SelectionEmptyIffAbsent(a, r, id);
    var inp := InputOf(a, id);
    var out := OutputOf(r, id);
    if |inp.adcs| == 0 then Err(EmptyEventInput(id))
    else if |out.adcs| == 0 then Err(EmptyEventOutput(id))
    else
      match PlotOf(inp, out, threshold, tMin, tMax, FitPlot)
      case Err(e) => Err(PlotFailed(id, e))
      case Ok(fit) =>
        match PlotOf(inp, out, threshold, tMin, tMax, ResultsPlot)
        case Err(e) => Err(PlotFailed(id, e))
        case Ok(res) => Ok(EventPlots(id, fit, res))
  }

  /** The outcome of the loop body for each of `ids`, in order. */
  function EventResults(a: AnalysisColumns, r: ResultColumns, ids: seq<int>, threshold: real, tMin: real, tMax: real)
    : (rs: seq<Result<EventPlots, RunError>>)
    requires a.Aligned() && r.Aligned()
    ensures |rs| == |ids|
  {
    seq(|ids|, k requires 0 <= k < |ids| => EventPlotsOf(a, r, ids[k], threshold, tMin, tMax))
  }

  /** The event loop over `ids`: the plots of every event in order, or the first failure. */
  function AllEventPlotsOf(a: AnalysisColumns, r: ResultColumns, ids: seq<int>, threshold: real, tMin: real, tMax: real)
    : Result<seq<EventPlots>, RunError>
    requires a.Aligned() && r.Aligned()
  {
    Collect(EventResults(a, r, ids, threshold, tMin, tMax))
  }

  /** A successful loop has one entry per event, in order, each the event's own plots. */
  lemma AllEventPlotsSucceed(a: AnalysisColumns, r: ResultColumns, ids: seq<int>, threshold: real, tMin: real, tMax: real)
    requires a.Aligned() && r.Aligned()
    ensures var res := AllEventPlotsOf(a, r, ids, threshold, tMin, tMax);
      && (res.Ok? <==> forall k :: 0 <= k < |ids| ==> EventPlotsOf(a, r, ids[k], threshold, tMin, tMax).Ok?)
      && (res.Ok? ==>
            && |res.value| == |ids|
            && forall k :: 0 <= k < |ids| ==>
                 res.value[k].eventId == ids[k] && EventPlotsOf(a, r, ids[k], threshold, tMin, tMax) == Ok(res.value[k]))
  {
    var rs := EventResults(a, r, ids, threshold, tMin, tMax);
    CollectShape(rs);
    var res := Collect(rs);
    forall k | 0 <= k < |ids| ensures rs[k] == EventPlotsOf(a, r, ids[k], threshold, tMin, tMax) {
    }
    if res.Ok? {
      forall k | 0 <= k < |ids| ensures res.value[k].eventId == ids[k] {
        assert EventPlotsOf(a, r, ids[k], threshold, tMin, tMax) == Ok(res.value[k]);
      }
    }
  }

  /** A failed loop stops at the first event that fails, with its error; every earlier event succeeded. */
  lemma AllEventPlotsFailFirst(a: AnalysisColumns, r: ResultColumns, ids: seq<int>, threshold: real, tMin: real, tMax: real)
    requires a.Aligned() && r.Aligned()
    ensures var res := AllEventPlotsOf(a, r, ids, threshold, tMin, tMax);
      res.Err? ==>
        exists k :: 0 <= k < |ids| &&
          EventPlotsOf(a, r, ids[k], threshold, tMin, tMax) == Err(res.error) &&
          forall j :: 0 <= j < k ==> EventPlotsOf(a, r, ids[j], threshold, tMin, tMax).Ok?
  {
    var rs := EventResults(a, r, ids, threshold, tMin, tMax);
    CollectShape(rs);
    var res := Collect(rs);
    if res.Err? {
      var k :| 0 <= k < |rs| && rs[k] == Err(res.error) && forall j :: 0 <= j < k ==> rs[j].Ok?;
      forall j | 0 <= j < k ensures EventPlotsOf(a, r, ids[j], threshold, tMin, tMax).Ok? {
        assert rs[j] == EventPlotsOf(a, r, ids[j], threshold, tMin, tMax);
      }
      assert EventPlotsOf(a, r, ids[k], threshold, tMin, tMax) == Err(res.error);
    }
  }

  /** The `for (unsigned int plotEventId : plotEventIds)` loop of `plotZSAnalysis`. */
  method PlotEvents(a: AnalysisColumns, r: ResultColumns, ids: seq<int>, threshold: real, tMin: real, tMax: real)
    returns (res: Result<seq<EventPlots>, RunError>)
    requires a.Aligned() && r.Aligned()
    ensures res == AllEventPlotsOf(a, r, ids, threshold, tMin, tMax)
  {
    ghost var rs := EventResults(a, r, ids, threshold, tMin, tMax);
    var done: seq<EventPlots> := [];
    for i := 0 to |ids|
      invariant Collect(rs[..i]) == Ok(done)
    {
      assert rs[..i + 1][..i] == rs[..i];
      var e := EventPlot(a, r, ids[i], threshold, tMin, tMax);
      assert e == rs[i];
      if e.Err? {
        CollectStops(rs, i + 1);
        return Err(e.error);
      }
      done := done + [e.value];
    }
    assert rs[..|ids|] == rs;
    res := Ok(done);
  }

  /** The body of the event loop for one event. */
  method EventPlot(a: AnalysisColumns, r: ResultColumns, id: int, threshold: real, tMin: real, tMax: real)
    returns (e: Result<EventPlots, RunError>)
    requires a.Aligned() && r.Aligned()
    ensures e == EventPlotsOf(a, r, id, threshold, tMin, tMax)
  {
    var inp := SelectInputRows(a, id);
    var out := SelectOutputRows(r, id);
    if |inp.adcs| == 0 {
      return Err(EmptyEventInput(id));
    }
    if |out.adcs| == 0 {
      return Err(EmptyEventOutput(id));
    }
    var fit := Plot(inp, out, threshold, tMin, tMax, FitPlot);
    if fit.Err? {
      return Err(PlotFailed(id, fit.error));
    }
    var res := Plot(inp, out, threshold, tMin, tMax, ResultsPlot);
    if res.Err? {
      return Err(PlotFailed(id, res.error));
    }
    e := Ok(EventPlots(id, fit.value, res.value));
  }

  /**
    The whole of `plotZSAnalysis`: check the bounds, read both trees, intersect
    their event IDs, pick the events to plot and run the event loop.
  */
  function RunOf(analysisBranches: seq<string>, analysisEntries: seq<AnalysisEntry>,
                 resultBranches: seq<string>, resultEntries: seq<ResultEntry>,
                 eventID: int, threshold: real, tMin: real, tMax: real): Result<seq<EventPlots>, RunError>
  {
    match ValidateBounds(tMin, tMax)
    case Some(e) => Err(InvalidBounds(e))
    case None =>
      match AnalysisDataOf(analysisBranches, analysisEntries)
      case Err(e) => Err(IngestFailed(e))
      case Ok(a) =>
        match ResultDataOf(resultBranches, resultEntries)
        case Err(e) => Err(IngestFailed(e))
        case Ok(r) =>
          match SelectEvents(MakeUniqueEventIds(a.eventIds, r.eventIds), eventID)
          case Err(e) => Err(SelectionFailed(e))
          case Ok(ids) => AllEventPlotsOf(a, r, ids, threshold, tMin, tMax)
  }

  /** `plotZSAnalysis`. */
  method PlotZSAnalysis(analysisBranches: seq<string>, analysisEntries: seq<AnalysisEntry>,
                        resultBranches: seq<string>, resultEntries: seq<ResultEntry>,
                        eventID: int, threshold: real, tMin: real, tMax: real)
    returns (res: Result<seq<EventPlots>, RunError>)
    ensures res == RunOf(analysisBranches, analysisEntries, resultBranches, resultEntries, eventID, threshold, tMin, tMax)
  {
    var bad := ValidateBounds(tMin, tMax);
    if bad.Some? {
      return Err(InvalidBounds(bad.value));
    }
    var ca := CollectAnalysisData(analysisBranches, analysisEntries);
    if ca.Err? {
      return Err(IngestFailed(ca.error));
    }
    var cr := CollectResultData(resultBranches, resultEntries);
    if cr.Err? {
      return Err(IngestFailed(cr.error));
    }
    var a, r := ca.value, cr.value;
    var selected := SelectEvents(MakeUniqueEventIds(a.eventIds, r.eventIds), eventID);
    if selected.Err? {
      return Err(SelectionFailed(selected.error));
    }
    res := PlotEvents(a, r, selected.value, threshold, tMin, tMax);
  }

  /** Events that occur in both datasets never hit the empty-selection checks of the event loop. */
  lemma SharedEventsAreNeverEmpty(a: AnalysisColumns, r: ResultColumns, ids: seq<int>,
                                  threshold: real, tMin: real, tMax: real)
    requires a.Aligned() && r.Aligned()
    requires forall id :: id in ids ==> id in a.eventIds && id in r.eventIds
    ensures var res := AllEventPlotsOf(a, r, ids, threshold, tMin, tMax);
      res.Err? ==> res.error.PlotFailed? && res.error.eventId in ids
  {
    AllEventPlotsFailFirst(a, r, ids, threshold, tMin, tMax);
    var res := AllEventPlotsOf(a, r, ids, threshold, tMin, tMax);
    if res.Err? {
      var k :| 0 <= k < |ids| && EventPlotsOf(a, r, ids[k], threshold, tMin, tMax) == Err(res.error) &&
        forall j :: 0 <= j < k ==> EventPlotsOf(a, r, ids[j], threshold, tMin, tMax).Ok?;
      assert ids[k] in ids;
    }
  }

  /**
    A successful run plots, in increasing order, every event found in both trees
    when the requested ID is 0, and otherwise only the requested event, each with
    the plots of its own rows; a run that gets past the event selection fails, if
    at all, only inside `plot`.
  */
  lemma RunPlotsSelectedEvents(analysisBranches: seq<string>, analysisEntries: seq<AnalysisEntry>,
                               resultBranches: seq<string>, resultEntries: seq<ResultEntry>,
                               eventID: int, threshold: real, tMin: real, tMax: real)
    requires ValidateBounds(tMin, tMax).None?
    requires AnalysisDataOf(analysisBranches, analysisEntries).Ok?
    requires ResultDataOf(resultBranches, resultEntries).Ok?
    ensures var a := AnalysisDataOf(analysisBranches, analysisEntries).value;
      var r := ResultDataOf(resultBranches, resultEntries).value;
      var overlap := MakeUniqueEventIds(a.eventIds, r.eventIds);
      var res := RunOf(analysisBranches, analysisEntries, resultBranches, resultEntries, eventID, threshold, tMin, tMax);
      var ids := if eventID == 0 then overlap else [eventID];
      && (res == Err(SelectionFailed(EventNotFound(eventID))) <==> eventID != 0 && eventID !in overlap)
      && (res.Ok? ==>
            |res.value| == |ids| &&
            forall k :: 0 <= k < |ids| ==>
              res.value[k].eventId == ids[k] &&
              EventPlotsOf(a, r, ids[k], threshold, tMin, tMax) == Ok(res.value[k]))
      && (res.Err? && !res.error.SelectionFailed? ==> res.error.PlotFailed? && res.error.eventId in ids)
  {
    var a := AnalysisDataOf(analysisBranches, analysisEntries).value;
    var r := ResultDataOf(resultBranches, resultEntries).value;
    SelectEventsSound(a.eventIds, r.eventIds, eventID);
    var sel := SelectEvents(MakeUniqueEventIds(a.eventIds, r.eventIds), eventID);
    if sel.Ok? {
      AllEventPlotsSucceed(a, r, sel.value, threshold, tMin, tMax);
      SharedEventsAreNeverEmpty(a, r, sel.value, threshold, tMin, tMax);
    }
  }
}
