/**
  The time window of the zero-suppression plots (Plotting/plotZSAnalysis.C):
  validation of the requested bounds, the choice of the cut between the
  requested bounds and the data range, the slice of the input samples and the
  strict window filter on the output samples.
*/
module ZSWindow {
  import opened Base
  import opened Seqs
  import opened ZSIngest
  import opened ZSEvents

  /** Start time of the first event in nanoseconds, subtracted from the data range. */
  const Event0Ns: real := 1696.88
  /** `std::numeric_limits<double>::epsilon()`, 2^-52: a bound below it counts as "no cut". */
  const DoubleEpsilon: real := 1.0 / 4503599627370496.0
  /** A window of fewer ticks than this is fatal. */
  const MinWindowTicks: int := 10

  /** The fatal sanity checks on the requested bounds. */
  datatype BoundsError = NegativeMin | NegativeMax | MaxBelowMin

  /** The fatal conditions of `plot`; an out-of-range input read is undefined in the source. */
  datatype PlotError = MinAboveRange | TooFewEntries | InputIndexOutOfRange | NoOutputPoints

  /**
    The checks at the start of `plotZSAnalysis`. Zero is documented as "no cut";
    still, a zero `tMax` with a positive `tMin` is rejected as `tMax < tMin`.
  */
  function ValidateBounds(tMin: real, tMax: real): (r: Option<BoundsError>)
    ensures r.None? <==> 0.0 <= tMin <= tMax
    ensures tMin < 0.0 ==> r == Some(NegativeMin)
    ensures 0.0 <= tMin && tMax < 0.0 ==> r == Some(NegativeMax)
    ensures tMax == 0.0 && tMin > 0.0 ==> r == Some(MaxBelowMin)
  {
    if tMin < 0.0 then Some(NegativeMin)
    else if tMax < 0.0 then Some(NegativeMax)
    else if tMax < tMin then Some(MaxBelowMin)
    else None
  }

  /** `static_cast<int>` of a double: truncation toward zero. */
  function TruncToInt(x: real): (n: int)
    ensures 0.0 <= x ==> 0 <= n && n as real <= x < n as real + 1.0
    ensures x < 0.0 ==> n <= 0 && n as real - 1.0 < x <= n as real
  {
    if x >= 0.0 then x.Floor else -((-x).Floor)
  }

  /** `*std::min_element` of a non-empty vector. */
  function MinOf(s: seq<real>): (m: real)
    requires |s| > 0
    ensures m in s && forall x :: x in s ==> m <= x
    decreases |s|
  {
    if |s| == 1 then s[0]
    else
      var front := s[..|s| - 1];
      assert s == front + [s[|s| - 1]];
      var m := MinOf(front);
      if s[|s| - 1] < m then s[|s| - 1] else m
  }

  /** `*std::max_element` of a non-empty vector. */
  function MaxOf(s: seq<real>): (m: real)
    requires |s| > 0
    ensures m in s && forall x :: x in s ==> x <= m
    decreases |s|
  {
    if |s| == 1 then s[0]
    else
      var front := s[..|s| - 1];
      assert s == front + [s[|s| - 1]];
      var m := MaxOf(front);
      if s[|s| - 1] > m then s[|s| - 1] else m
  }

  function Min(a: real, b: real): real { if a <= b then a else b }
  function Max(a: real, b: real): real { if a >= b then a else b }

  /** The cut, in ticks: `tMinCutIndex` and `tMaxCutIndex`. */
  datatype Cut = Cut(lo: int, hi: int)

  /** The choice of the cut in `plot`, from the requested bounds and the data range (all in ns). */
  function CutIndexes(tMin: real, tMax: real, tMinFull: real, tMaxFull: real): Result<Cut, PlotError> {
    if tMin > tMaxFull then Err(MinAboveRange)
    else
      var lo := if tMinFull > tMin || tMin < DoubleEpsilon then TruncToInt(tMinFull / TickNs) else TruncToInt(tMin / TickNs);
      var hi := if tMaxFull < tMax || tMax < DoubleEpsilon then TruncToInt(tMaxFull / TickNs) else TruncToInt(tMax / TickNs);
      if hi - lo < MinWindowTicks then Err(TooFewEntries) else Ok(Cut(lo, hi))
  }

  /** The lower edge of the window: the data start, or the requested start when it is set and later. */
  function WindowStart(tMin: real, tMinFull: real): real {
    if tMin < DoubleEpsilon then tMinFull else Max(tMin, tMinFull)
  }

  /** The upper edge of the window: the data end, or the requested end when it is set and earlier. */
  function WindowEnd(tMax: real, tMaxFull: real): real {
    if tMax < DoubleEpsilon then tMaxFull else Min(tMax, tMaxFull)
  }

  /**
    The cut is the intersection of the requested window with the data range, a
    bound (near) zero meaning "no cut on that side", truncated to whole ticks; it
    fails exactly when the requested start lies beyond the data or the
    intersection is shorter than ten ticks.
  */
  lemma CutIsIntersection(tMin: real, tMax: real, tMinFull: real, tMaxFull: real)
    ensures var r := CutIndexes(tMin, tMax, tMinFull, tMaxFull);
      var lo := TruncToInt(WindowStart(tMin, tMinFull) / TickNs);
      var hi := TruncToInt(WindowEnd(tMax, tMaxFull) / TickNs);
      && (r.Ok? ==> r.value == Cut(lo, hi) && r.value.hi - r.value.lo >= MinWindowTicks)
      && (r == Err(MinAboveRange) <==> tMin > tMaxFull)
      && (r == Err(TooFewEntries) <==> tMin <= tMaxFull && hi - lo < MinWindowTicks)
  {
  }

  /** A bound of zero on both sides plots the whole data range. */
  lemma NoCutMeansFullRange(tMinFull: real, tMaxFull: real)
    requires 0.0 <= tMaxFull
    ensures var r := CutIndexes(0.0, 0.0, tMinFull, tMaxFull);
      r.Ok? ==> r.value == Cut(TruncToInt(tMinFull / TickNs), TruncToInt(tMaxFull / TickNs))
  {
  }

  /** `static_cast<double>` of every ADC value. */
  function AsReals(xs: seq<Int16>): (r: seq<real>)
    ensures |r| == |xs| && forall i :: 0 <= i < |xs| ==> r[i] == xs[i] as real
  {
    seq(|xs|, i requires 0 <= i < |xs| => xs[i] as real)
  }

  /** The input samples plotted: positions `lo` (inclusive) to `hi` (exclusive) of the event's buffers. */
  datatype InputSlice = InputSlice(adcs: seq<real>, times: seq<real>, gradients: seq<real>, averagedGradients: seq<real>)

  function InputSliceOf(inp: EventInput, lo: int, hi: int): InputSlice
    requires inp.Aligned() && 0 <= lo <= hi <= |inp.adcs|
  {
    InputSlice(AsReals(inp.adcs[lo..hi]), inp.times[lo..hi], AsReals(inp.gradients[lo..hi]), inp.averagedGradients[lo..hi])
  }

  /**
    The input-slice loop of `plot`: one sample per tick index from `lo` up to
    `hi`. The source reads past its buffers when the indices are out of range; the
    method is stated only for indices in range.
  */
  method SliceInput(inp: EventInput, lo: int, hi: int) returns (s: InputSlice)
    requires inp.Aligned() && 0 <= lo <= hi <= |inp.adcs|
    ensures |s.adcs| == |s.times| == |s.gradients| == |s.averagedGradients| == hi - lo
    ensures forall k :: 0 <= k < hi - lo ==>
              && s.adcs[k] == inp.adcs[lo + k] as real && s.times[k] == inp.times[lo + k]
              && s.gradients[k] == inp.gradients[lo + k] as real && s.averagedGradients[k] == inp.averagedGradients[lo + k]
    ensures s == InputSliceOf(inp, lo, hi)
  {
    var adcs: seq<real>, times: seq<real>, gradients: seq<real>, averaged: seq<real> := [], [], [], [];
    for i := lo to hi
      invariant |adcs| == |times| == |gradients| == |averaged| == i - lo
      invariant forall k :: 0 <= k < i - lo ==>
                  && adcs[k] == inp.adcs[lo + k] as real && times[k] == inp.times[lo + k]
                  && gradients[k] == inp.gradients[lo + k] as real && averaged[k] == inp.averagedGradients[lo + k]
    {
      adcs := adcs + [inp.adcs[i] as real];
      times := times + [inp.times[i]];
      gradients := gradients + [inp.gradients[i] as real];
      averaged := averaged + [inp.averagedGradients[i]];
    }
    s := InputSlice(adcs, times, gradients, averaged);
  }

  /** Marks the samples strictly inside the open interval `(lo, hi)`. */
  function WindowMask(times: seq<real>, lo: real, hi: real): (m: seq<bool>)
    ensures |m| == |times|
    ensures forall i :: 0 <= i < |times| ==> m[i] == (lo < times[i] && times[i] < hi)
  {
    seq(|times|, i requires 0 <= i < |times| => lo < times[i] && times[i] < hi)
  }

  /** The output samples plotted, converted to doubles. */
  datatype Trace = Trace(adcs: seq<real>, times: seq<real>)

  function WindowOutputOf(out: EventOutput, tMinNs: real, tMaxNs: real): (t: Trace)
    requires out.Aligned()
    ensures |t.adcs| == |t.times|
  {
    var m := WindowMask(out.times, tMinNs, tMaxNs);
    KeepAligned(AsReals(out.adcs), out.times, m);
    Trace(Keep(AsReals(out.adcs), m), Keep(out.times, m))
  }

  /** The output filter loop of `plot`: keep the samples strictly inside `(tMinNs, tMaxNs)`. */
  method WindowOutput(out: EventOutput, tMinNs: real, tMaxNs: real) returns (t: Trace)
    requires out.Aligned()
    ensures t == WindowOutputOf(out, tMinNs, tMaxNs)
  {
    var m := WindowMask(out.times, tMinNs, tMaxNs);
    var reals := AsReals(out.adcs);
    var adcs: seq<real>, times: seq<real> := [], [];
    for i := 0 to |out.adcs|
      invariant adcs == Keep(reals[..i], m[..i]) && times == Keep(out.times[..i], m[..i])
    {
      KeepPrefixStep(reals, m, i);
      KeepPrefixStep(out.times, m, i);
      var time := out.times[i];
      if tMinNs < time && time < tMaxNs {
        adcs := adcs + [out.adcs[i] as real];
        times := times + [time];
      }
    }
    assert reals[..|out.adcs|] == reals && m[..|out.adcs|] == m && out.times[..|out.adcs|] == out.times;
    t := Trace(adcs, times);
  }

  /**
    The window filter keeps exactly the output samples strictly inside the window,
    in their original order, with ADC and time still paired.
  */
  lemma WindowOutputKeepsInside(out: EventOutput, tMinNs: real, tMaxNs: real)
    requires out.Aligned()
    ensures var t := WindowOutputOf(out, tMinNs, tMaxNs);
      var idx := TrueIndexes(WindowMask(out.times, tMinNs, tMaxNs));
      && |t.adcs| == |t.times| == |idx|
      && StrictlyIncreasing(idx)
      && (forall i :: i in idx <==> 0 <= i < |out.times| && tMinNs < out.times[i] < tMaxNs)
      && (forall k :: 0 <= k < |idx| ==>
            && 0 <= idx[k] < |out.times|
            && t.times[k] == out.times[idx[k]] && t.adcs[k] == out.adcs[idx[k]] as real)
      && (forall k :: 0 <= k < |t.times| ==> tMinNs < t.times[k] < tMaxNs)
  {
    var m := WindowMask(out.times, tMinNs, tMaxNs);
    KeepIsStableSelection(AsReals(out.adcs), m);
    KeepIsStableSelection(out.times, m);
    var idx := TrueIndexes(m);
    forall k | 0 <= k < |idx| ensures tMinNs < out.times[idx[k]] < tMaxNs {
      assert idx[k] in idx;
    }
  }
}
