/**
  `energyGain` (Calibration/energyGain.C): for every peak found in the energy
  spectrum, seed a fit around it from a half-maximum scan of the
  background-subtracted spectrum, fit the peaks above 500 and log one row per
  fitted parameter. Peak finding, background estimation and the fit are ROOT
  calls; their results are parameters here.
*/
module EnergyGain {
  import opened Base
  import opened Seqs
  import opened Fwhm
  import opened FitSetup

  /** Only peaks at a position above this are fitted and logged. */
  const FitGate: real := 500.0
  /** The mean of the fit is kept within this distance of the peak. */
  const MeanLimitHalfWidth: real := 10.0

  /** The detector argument: "H" for the HPGe detector, "L" for the LaBr detector. */
  datatype Detector = HPGe | LaBr

  /** Any other detector name leaves the fit function unset, which the loop then dereferences. */
  datatype GainError = UnknownDetector(name: string)

  function DetectorOf(name: string): (d: Option<Detector>)
    ensures d == Some(HPGe) <==> name == "H"
    ensures d == Some(LaBr) <==> name == "L"
    ensures d.None? <==> name != "H" && name != "L"
  {
    if name == "H" then Some(HPGe) else if name == "L" then Some(LaBr) else None
  }

  /** The HPGe peaks get a double Gaussian; the LaBr peaks a single one. */
  function ModelOf(d: Detector): FitModel {
    match d
    case HPGe => DoubleGaussianLinear
    case LaBr => GaussianLinear
  }

  /** Half the width of the fit range around the peak. */
  function FitHalfWindow(d: Detector): real {
    match d
    case HPGe => 50.0
    case LaBr => 250.0
  }

  /**
    The rebinned energy spectrum as the macro reads it: bin contents, the
    background estimated from it, its axis and `FindBin`.
  */
  datatype Spectrum = Spectrum(content: int -> real, background: int -> real, axis: Axis, findBin: real -> int)

  /** The background-subtracted content of bin `k`. */
  function Net(s: Spectrum): int -> real {
    k => s.content(k) - s.background(k)
  }

  /** `halfMax`: half of the background-subtracted content of the peak bin. */
  function HalfMaxOf(s: Spectrum, bin: int): real {
    (s.content(bin) - s.background(bin)) / 2.0
  }

  /** The scan around the peak bin at half maximum. */
  function PeakScan(s: Spectrum, peak: real): Scan {
    var bin := s.findBin(peak);
    WindowScan(Net(s), bin, HalfMaxOf(s, bin))
  }

  /** The fit request for one peak. */
  function PeakConfig(d: Detector, s: Spectrum, peak: real): FitConfig {
    var bin := s.findBin(peak);
    FitConfig(ModelOf(d), peak - FitHalfWindow(d), peak + FitHalfWindow(d), ParNames,
              Seed(s.content(bin), peak, SigmaSeed(s.axis, PeakScan(s, peak)), SeedSlope, SeedConstant),
              [Limit(1, peak - MeanLimitHalfWidth, peak + MeanLimitHalfWidth)])
  }

  /** The fit request the loop body builds for one peak. */
  method BuildPeakConfig(d: Detector, s: Spectrum, peak: real) returns (c: FitConfig)
    ensures c == PeakConfig(d, s, peak)
  {
    var bin := s.findBin(peak);
    var guessHeight := s.content(bin);
    var halfMax := (guessHeight - s.background(bin)) / 2.0;
    assert halfMax == HalfMaxOf(s, bin);
    var scan := ScanHalfMax(Net(s), bin, halfMax);
    assert scan == PeakScan(s, peak);
    var sigma: Option<real> := None;
    if scan.Bracket? {
      var fwhm := s.axis.Center(scan.fall) - s.axis.Center(scan.rise);
      sigma := Some(fwhm / FwhmPerSigma);
    }
    assert sigma == SigmaSeed(s.axis, scan);
    c := FitConfig(ModelOf(d), peak - FitHalfWindow(d), peak + FitHalfWindow(d), ParNames,
                   Seed(guessHeight, peak, sigma, SeedSlope, SeedConstant),
                   [Limit(1, peak - MeanLimitHalfWidth, peak + MeanLimitHalfWidth)]);
  }

  /**
    The seed of a peak: the height is the content of its bin, the mean is the peak
    itself, and the sigma is present exactly when the background-subtracted scan
    finds a bracket, in which case it is positive. The mean may move at most ten
    units, and the fit range is the detector's window around the peak.
  */
  lemma PeakSeed(d: Detector, s: Spectrum, peak: real)
    requires s.axis.Valid()
    ensures var c := PeakConfig(d, s, peak);
      var bin := s.findBin(peak);
      && c.seed.height == s.content(bin) && c.seed.mean == peak
      && (c.seed.sigma.Some? <==> PeakScan(s, peak).Bracket?)
      && (c.seed.sigma.Some? ==> c.seed.sigma.value > 0.0)
      && c.seed.slope == SeedSlope && c.seed.constant == SeedConstant
      && c.rangeLo == peak - FitHalfWindow(d) && c.rangeHi == peak + FitHalfWindow(d)
      && c.rangeLo < peak < c.rangeHi
      && c.limits == [Limit(1, peak - MeanLimitHalfWidth, peak + MeanLimitHalfWidth)]
      && c.names == ParNames
      && c.model == (if d == HPGe then DoubleGaussianLinear else GaussianLinear)
      && NParams(c.model) == (if d == HPGe then 8 else 5)
  {
    var bin := s.findBin(peak);
    if PeakScan(s, peak).Bracket? {
      BracketWidth(s.axis, Net(s), bin - SearchHalfWidth, bin + SearchHalfWidth, HalfMaxOf(s, bin));
    }
  }

  /** One line of `energyPeaks.log` after the header: peak index, parameter name, value and error. */
  datatype LogRow = LogRow(peak: int, name: string, value: real, error: real)

  /** The rows of one fitted peak, one per fit parameter, in parameter order. */
  function RowsOf(j: int, params: seq<FitParameter>): (rows: seq<LogRow>)
    ensures |rows| == |params|
    ensures forall i :: 0 <= i < |params| ==>
              rows[i] == LogRow(j, params[i].name, params[i].value, params[i].error)
  {
    seq(|params|, i requires 0 <= i < |params| => LogRow(j, params[i].name, params[i].value, params[i].error))
  }

  /** What the fitter reports for each peak, in peak order. */
  function FitResults(d: Detector, s: Spectrum, peaks: seq<real>, fit: FitConfig -> seq<FitParameter>)
    : (r: seq<seq<FitParameter>>)
    ensures |r| == |peaks|
    ensures forall j :: 0 <= j < |peaks| ==> r[j] == fit(PeakConfig(d, s, peaks[j]))
  {
    seq(|peaks|, j requires 0 <= j < |peaks| => fit(PeakConfig(d, s, peaks[j])))
  }

  /** The rows peak `j` contributes: none unless it lies above the gate. */
  function PeakRows(peaks: seq<real>, results: seq<seq<FitParameter>>, j: int): seq<LogRow>
    requires 0 <= j < |peaks| == |results|
  {
    if peaks[j] > FitGate then RowsOf(j, results[j]) else []
  }

  /** The rows of every peak in order, peak by peak. */
  function PeakBlocks(peaks: seq<real>, results: seq<seq<FitParameter>>): (blocks: seq<seq<LogRow>>)
    requires |peaks| == |results|
    ensures |blocks| == |peaks|
    ensures forall j :: 0 <= j < |peaks| ==> blocks[j] == PeakRows(peaks, results, j)
  {
    seq(|peaks|, j requires 0 <= j < |peaks| => PeakRows(peaks, results, j))
  }

  /**
    The rows written after the header. The detector is checked inside the loop, so
    with no peaks an unknown detector goes unnoticed.
  */
  function LogOf(name: string, s: Spectrum, peaks: seq<real>, fit: FitConfig -> seq<FitParameter>)
    : Result<seq<LogRow>, GainError>
  {
    if |peaks| == 0 then Ok([])
    else
      match DetectorOf(name)
      case None => Err(UnknownDetector(name))
      case Some(d) => Ok(Flatten(PeakBlocks(peaks, FitResults(d, s, peaks, fit))))
  }

  /** The inner loop of the fitting loop: one row per fit parameter, added to the rows written so far. */
  method WriteParameterRows(before: seq<LogRow>, j: int, params: seq<FitParameter>) returns (rows: seq<LogRow>)
    ensures rows == before + RowsOf(j, params)
  {
    rows := before;
    for i := 0 to |params|
      invariant rows == before + RowsOf(j, params[..i])
    {
      assert RowsOf(j, params[..i + 1]) == RowsOf(j, params[..i]) + [LogRow(j, params[i].name, params[i].value, params[i].error)];
      rows := rows + [LogRow(j, params[i].name, params[i].value, params[i].error)];
    }
    assert params[..|params|] == params;
  }

  /** The fitting loop of `energyGain`, with the inner loop that writes the parameter rows. */
  method EnergyGainLog(name: string, s: Spectrum, peaks: seq<real>, fit: FitConfig -> seq<FitParameter>)
    returns (r: Result<seq<LogRow>, GainError>)
    ensures r == LogOf(name, s, peaks, fit)
  {
    var rows: seq<LogRow> := [];
    if |peaks| == 0 {
      return Ok(rows);
    }
    var detector := DetectorOf(name);
    if detector.None? {
      return Err(UnknownDetector(name));
    }
    var d := detector.value;
    ghost var blocks := PeakBlocks(peaks, FitResults(d, s, peaks, fit));
    for j := 0 to |peaks|
      invariant rows == Flatten(blocks[..j])
    {
      assert blocks[..j + 1][..j] == blocks[..j];
      var config := BuildPeakConfig(d, s, peaks[j]);
      if peaks[j] > FitGate {
        var params := fit(config);
        rows := WriteParameterRows(rows, j, params);
      }
    }
    assert blocks[..|peaks|] == blocks;
    r := Ok(rows);
  }

  /** An unknown detector name fails the run exactly when there is a peak to fit. */
  lemma LogFailsIff(name: string, s: Spectrum, peaks: seq<real>, fit: FitConfig -> seq<FitParameter>)
    ensures LogOf(name, s, peaks, fit).Err? <==> |peaks| > 0 && name != "H" && name != "L"
  {
  }

  /** Block `j` of `blocks` holds only rows tagged `j`, and only when peak `j` is above the gate. */
  ghost predicate Tagged(blocks: seq<seq<LogRow>>, peaks: seq<real>) {
    && |blocks| <= |peaks|
    && forall j, i :: 0 <= j < |blocks| && 0 <= i < |blocks[j]| ==> blocks[j][i].peak == j && peaks[j] > FitGate
  }

  lemma PeakBlocksTagged(peaks: seq<real>, results: seq<seq<FitParameter>>)
    requires |peaks| == |results|
    ensures Tagged(PeakBlocks(peaks, results), peaks)
  {
    var blocks: seq<seq<LogRow>> := PeakBlocks(peaks, results);
    forall j, i | 0 <= j < |blocks| && 0 <= i < |blocks[j]|
      ensures blocks[j][i].peak == j && peaks[j] > FitGate
    {
      assert blocks[j] == PeakRows(peaks, results, j);
    }
  }

  /** Flattening tagged blocks keeps every row's tag in range and the tags in increasing order. */
  lemma {:induction false} TaggedFlatten(blocks: seq<seq<LogRow>>, peaks: seq<real>)
    requires Tagged(blocks, peaks)
    ensures forall i :: 0 <= i < |Flatten(blocks)| ==>
              0 <= Flatten(blocks)[i].peak < |blocks| && peaks[Flatten(blocks)[i].peak] > FitGate
    ensures forall i, k :: 0 <= i < k < |Flatten(blocks)| ==> Flatten(blocks)[i].peak <= Flatten(blocks)[k].peak
    decreases |blocks|
  {
    var n := |blocks|;
    if n > 0 {
      var init: seq<seq<LogRow>> := blocks[..n - 1];
      assert |init| <= |peaks|;
      forall j, i | 0 <= j < |init| && 0 <= i < |init[j]|
        ensures init[j][i].peak == j && peaks[j] > FitGate
      {
        assert init[j] == blocks[j];
        assert init[j][i] == blocks[j][i];
        assert 0 <= j < |blocks| && 0 <= i < |blocks[j]|;
        assert blocks[j][i].peak == j && peaks[j] > FitGate;
      }
      assert Tagged(init, peaks);
      TaggedFlatten(init, peaks);
      var front := Flatten(init);
      var last: seq<LogRow> := blocks[n - 1];
      assert blocks == init + [last];
      var rows := Flatten(blocks);
      assert rows == front + last;
      forall i | 0 <= i < |rows|
        ensures 0 <= rows[i].peak < n && peaks[rows[i].peak] > FitGate
        ensures i >= |front| ==> rows[i].peak == n - 1
      {
        if i >= |front| {
          assert rows[i] == last[i - |front|];
        } else {
          assert rows[i] == front[i];
        }
      }
      forall i, k | 0 <= i < k < |rows|
        ensures rows[i].peak <= rows[k].peak
      {
        if k < |front| {
          assert rows[i] == front[i] && rows[k] == front[k];
        } else if i < |front| {
          assert rows[i] == front[i];
        }
      }
    }
  }

  /**
    A successful log holds only rows of peaks above 500, in peak order, each
    carrying its peak's index.
  */
  lemma LogRowsGated(name: string, s: Spectrum, peaks: seq<real>, fit: FitConfig -> seq<FitParameter>)
    ensures var r := LogOf(name, s, peaks, fit);
      r.Ok? ==>
        && (forall i :: 0 <= i < |r.value| ==> 0 <= r.value[i].peak < |peaks| && peaks[r.value[i].peak] > FitGate)
        && (forall i, k :: 0 <= i < k < |r.value| ==> r.value[i].peak <= r.value[k].peak)
  {
    if |peaks| > 0 && DetectorOf(name).Some? {
      var results := FitResults(DetectorOf(name).value, s, peaks, fit);
      PeakBlocksTagged(peaks, results);
      TaggedFlatten(PeakBlocks(peaks, results), peaks);
    }
  }

  /** The number of rows written for the peaks before `j`. */
  function Offset(peaks: seq<real>, results: seq<seq<FitParameter>>, j: int): nat
    requires |peaks| == |results| && 0 <= j < |peaks|
  {
    |Flatten(PeakBlocks(peaks, results)[..j])|
  }

  /**
    Each peak above the gate writes one row per fitted parameter, in parameter
    order, as a contiguous run that starts after the rows of the earlier peaks.
  */
  lemma FittedPeakRows(peaks: seq<real>, results: seq<seq<FitParameter>>, j: int)
    requires |peaks| == |results| && 0 <= j < |peaks| && peaks[j] > FitGate
    ensures Offset(peaks, results, j) + |results[j]| <= |Flatten(PeakBlocks(peaks, results))|
    ensures forall i :: 0 <= i < |results[j]| ==>
              Flatten(PeakBlocks(peaks, results))[Offset(peaks, results, j) + i]
              == LogRow(j, results[j][i].name, results[j][i].value, results[j][i].error)
  {
    var blocks := PeakBlocks(peaks, results);
    assert blocks[j] == RowsOf(j, results[j]);
    FlattenBlockAt(blocks, j);
  }
}
