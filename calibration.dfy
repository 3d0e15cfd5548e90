/**
  The energy calibration of `calibrationSTM.py`: take the fitted peak means from
  the peak log, sort them, pair them with the known line energies, fit a straight
  line `adc = p0 + p1 * energy` and invert it into a gain and an offset,
  reporting chi squared per degree of freedom. The CSV reading, the least-squares
  fit and the file writes are library calls; their results are parameters here.
*/
module Calibration {
  import opened Base

  /** The line energies in MeV without the beam flash: Zn113, Cs137, Y88 and the two Co60 lines. */
  const EnergyPeaksNoBeam: seq<real> := [0.392, 0.662, 0.898, 1.173, 1.333]

  /** The `par_name` field of a mean row as it appears in the log, with the space after the comma kept. */
  const MeanField: string := " Mean"

  /** One data row of the peak log after its header line. */
  datatype CsvRow = CsvRow(peakNumber: int, parName: string, parValue: real, parError: real)

  /** The `par_name` field the log writer produces for a parameter name: `", "` then the name. */
  function NameField(name: string): string {
    " " + name
  }

  /** A row written for parameter `name` is taken as a mean row exactly when the name is `Mean`. */
  lemma MeanFieldOfName(name: string)
    ensures NameField(name) == MeanField <==> name == "Mean"
  {
    if NameField(name) == MeanField {
      assert name == NameField(name)[1..];
    }
  }

  /** `data[data[' par_name'] == ' Mean']`: the mean rows, in log order. */
  function SelectMeans(rows: seq<CsvRow>): (r: seq<CsvRow>)
    ensures forall x :: multiset(r)[x] == if x.parName == MeanField then multiset(rows)[x] else 0
    decreases |rows|
  {
    if |rows| == 0 then []
    else
      var init := rows[..|rows| - 1];
      var last := rows[|rows| - 1];
      assert rows == init + [last];
      SelectMeans(init) + (if last.parName == MeanField then [last] else [])
  }

  /** Ascending in `par_value`. */
  predicate SortedByValue(s: seq<CsvRow>) {
    forall i, j :: 0 <= i < j < |s| ==> s[i].parValue <= s[j].parValue
  }

  /** A lower bound of every row of `s` and of `x` bounds every row of a rearrangement of both. */
  lemma LowerBound(b: real, s: seq<CsvRow>, x: CsvRow, r: seq<CsvRow>)
    requires forall k :: 0 <= k < |s| ==> b <= s[k].parValue
    requires b <= x.parValue && multiset(r) == multiset(s) + multiset{x}
    ensures forall k :: 0 <= k < |r| ==> b <= r[k].parValue
  {
    forall k | 0 <= k < |r|
      ensures b <= r[k].parValue
    {
      assert r[k] in multiset(r);
      if r[k] != x {
        assert r[k] in multiset(s);
        var m :| 0 <= m < |s| && s[m] == r[k];
      }
    }
  }

  /** `x` placed before the first element of `s` whose value is larger. */
  function Insert(x: CsvRow, s: seq<CsvRow>): (r: seq<CsvRow>)
    ensures |r| == |s| + 1
    decreases |s|
  {
    if |s| == 0 then [x]
    else if x.parValue <= s[0].parValue then [x] + s
    else [s[0]] + Insert(x, s[1..])
  }

  /** A row at or below every row of sorted rows can go in front of them. */
  lemma ConsSorted(b: CsvRow, s: seq<CsvRow>)
    requires SortedByValue(s) && forall k :: 0 <= k < |s| ==> b.parValue <= s[k].parValue
    ensures SortedByValue([b] + s)
  {
    var r := [b] + s;
    forall i, j | 0 <= i < j < |r|
      ensures r[i].parValue <= r[j].parValue
    {
      assert r[j] == s[j - 1];
      if i > 0 {
        assert r[i] == s[i - 1];
      }
    }
  }

  /** Inserting into sorted rows keeps them sorted and adds exactly `x`. */
  lemma {:induction false} InsertSorted(x: CsvRow, s: seq<CsvRow>)
    requires SortedByValue(s)
    ensures SortedByValue(Insert(x, s))
    ensures multiset(Insert(x, s)) == multiset(s) + multiset{x}
    decreases |s|
  {
    if |s| == 0 {
    } else if x.parValue <= s[0].parValue {
      ConsSorted(x, s);
    } else {
      var tail := s[1..];
      var rest := Insert(x, tail);
      assert s == [s[0]] + tail;
      assert SortedByValue(tail);
      InsertSorted(x, tail);
      LowerBound(s[0].parValue, tail, x, rest);
      ConsSorted(s[0], rest);
      assert Insert(x, s) == [s[0]] + rest;
      assert multiset([s[0]] + rest) == multiset{s[0]} + multiset(rest);
    }
  }

  /**
    `sort_values(' par_value')`: the rows rearranged into ascending value. The
    library sort is not stable, so only the order of values and the multiset of
    rows are promised; this insertion sort is one such arrangement.
  */
  function SortByValue(s: seq<CsvRow>): (r: seq<CsvRow>)
    ensures SortedByValue(r)
    ensures multiset(r) == multiset(s)
    decreases |s|
  {
    if |s| == 0 then []
    else
      assert s == s[..|s| - 1] + [s[|s| - 1]];
      InsertSorted(s[|s| - 1], SortByValue(s[..|s| - 1]));
      Insert(s[|s| - 1], SortByValue(s[..|s| - 1]))
  }

  /** The least-squares line `adc = p0 + p1 * energy`: `model.params[0]` and `model.params[1]`. */
  datatype Line = Line(p0: real, p1: real)

  /** The number of parameters the line fit reports. */
  const LineParams: nat := 2

  /** One point handed to the fit: energy, fitted peak mean and its error, paired by position. */
  datatype Point = Point(energy: real, adc: real, error: real)

  datatype CalError =
    /** The fit cannot pair the mean rows with the five energies. */
    | LengthMismatch(means: nat)

  /** The energies are listed in increasing order. */
  lemma EnergiesIncreasing()
    ensures forall i, j :: 0 <= i < j < |EnergyPeaksNoBeam| ==> EnergyPeaksNoBeam[i] < EnergyPeaksNoBeam[j]
  {
    var e := EnergyPeaksNoBeam;
    assert e[0] < e[1] < e[2] < e[3] < e[4];
  }

  /** The mean rows, sorted and paired with the energies in order. */
  function PointsOf(rows: seq<CsvRow>): (r: Result<seq<Point>, CalError>)
    ensures r.Err? <==> |SelectMeans(rows)| != |EnergyPeaksNoBeam|
  {
    var means := SortByValue(SelectMeans(rows));
    if |means| != |EnergyPeaksNoBeam| then Err(LengthMismatch(|means|))
    else Ok(PairWithEnergies(means))
  }

  /** `{'adc': adc_peaks, 'energy': energy_peaks_nobeam, 'error': peak_error}`, row by row. */
  function PairWithEnergies(means: seq<CsvRow>): (pts: seq<Point>)
    requires |means| == |EnergyPeaksNoBeam|
    ensures |pts| == |means|
    ensures forall i :: 0 <= i < |means| ==> pts[i] == Point(EnergyPeaksNoBeam[i], means[i].parValue, means[i].parError)
  {
    seq(|means|, i requires 0 <= i < |means| => Point(EnergyPeaksNoBeam[i], means[i].parValue, means[i].parError))
  }

  /**
    `pts` pairs the i-th of `means` with the i-th energy, and both coordinates
    rise together.
  */
  ghost predicate PairedInOrder(pts: seq<Point>, means: seq<CsvRow>) {
    && |pts| == |means| == |EnergyPeaksNoBeam|
    && (forall i :: 0 <= i < |pts| ==> pts[i] == Point(EnergyPeaksNoBeam[i], means[i].parValue, means[i].parError))
    && (forall i, j :: 0 <= i < j < |pts| ==> pts[i].energy < pts[j].energy && pts[i].adc <= pts[j].adc)
  }

  /** Sorted means paired with the increasing energies rise in both coordinates. */
  lemma SortedPairsInOrder(means: seq<CsvRow>)
    requires |means| == |EnergyPeaksNoBeam| && SortedByValue(means)
    ensures PairedInOrder(PairWithEnergies(means), means)
  {
    var pts := PairWithEnergies(means);
    EnergiesIncreasing();
    forall i, j | 0 <= i < j < |pts|
      ensures pts[i].energy < pts[j].energy && pts[i].adc <= pts[j].adc
    {
      assert pts[i].adc == means[i].parValue && pts[j].adc == means[j].parValue;
    }
  }

  /**
    The points pair the i-th smallest mean row of the log with the i-th energy,
    so both coordinates rise together.
  */
  lemma PointsPairInOrder(rows: seq<CsvRow>)
    requires PointsOf(rows).Ok?
    ensures PairedInOrder(PointsOf(rows).value, SortByValue(SelectMeans(rows)))
  {
    var means := SortByValue(SelectMeans(rows));
    assert PointsOf(rows) == Ok(PairWithEnergies(means));
    SortedPairsInOrder(means);
  }

  /** The `adc` column of the points. */
  function AdcsOf(pts: seq<Point>): (r: seq<real>)
    ensures |r| == |pts| && forall i :: 0 <= i < |pts| ==> r[i] == pts[i].adc
  {
    seq(|pts|, i requires 0 <= i < |pts| => pts[i].adc)
  }

  /** The `error` column of the points. */
  function ErrorsOf(pts: seq<Point>): (r: seq<real>)
    ensures |r| == |pts| && forall i :: 0 <= i < |pts| ==> r[i] == pts[i].error
  {
    seq(|pts|, i requires 0 <= i < |pts| => pts[i].error)
  }

  /** `adc_pred(x, model)`: the ADC value the line predicts for energy `x`. */
  function AdcPred(x: real, line: Line): real {
    x * line.p1 + line.p0
  }

  /** The prediction at every energy, in order. */
  function Predicted(energies: seq<real>, line: Line): (r: seq<real>)
    ensures |r| == |energies|
    ensures forall i :: 0 <= i < |energies| ==> r[i] == AdcPred(energies[i], line)
  {
    seq(|energies|, i requires 0 <= i < |energies| => AdcPred(energies[i], line))
  }

  /** `deg_freedom`: predictions minus fitted parameters. */
  function DegFreedom(predicted: seq<real>): int {
    |predicted| - LineParams
  }

  /**
    One term of chi squared, `(f_obs - f_exp)**2 / sigma**2`, written as the square
    of the residual in units of its error (the same real number).
  */
  function Term(residual: real, sigma: real): real
    requires sigma != 0.0
  {
    (residual / sigma) * (residual / sigma)
  }

  lemma MulPos(a: real, b: real)
    requires a > 0.0 && b > 0.0
    ensures a * b > 0.0
  {
  }

  lemma SquarePos(d: real)
    requires d != 0.0
    ensures d * d > 0.0
  {
    if d > 0.0 {
      MulPos(d, d);
    } else {
      MulPos(-d, -d);
      assert d * d == (-d) * (-d);
    }
  }

  /** A non-zero residual gives a positive term. */
  lemma TermPos(residual: real, sigma: real)
    requires sigma != 0.0 && residual != 0.0
    ensures Term(residual, sigma) > 0.0
  {
    var u := residual / sigma;
    assert u * sigma == residual;
    SquarePos(u);
  }

  /** A zero residual gives a zero term. */
  lemma TermZero(residual: real, sigma: real)
    requires sigma != 0.0 && residual == 0.0
    ensures Term(residual, sigma) == 0.0
  {
    var u := residual / sigma;
    assert u == 0.0;
    assert u * u == 0.0 * 0.0;
  }

  /** `np.sum(numerator / denominator)`. */
  function ChiSum(obs: seq<real>, exp: seq<real>, sigma: seq<real>): real
    requires |obs| == |exp| == |sigma|
    requires forall i :: 0 <= i < |sigma| ==> sigma[i] != 0.0
    decreases |obs|
  {
    if |obs| == 0 then 0.0
    else
      var n := |obs| - 1;
      ChiSum(obs[..n], exp[..n], sigma[..n]) + Term(obs[n] - exp[n], sigma[n])
  }

  /**
    `chisquared`: the sum divided by the degrees of freedom. A zero error or zero
    degrees of freedom gives a non-finite float in the source; here no value.
  */
  function ChiSquared(obs: seq<real>, exp: seq<real>, ndof: int, sigma: seq<real>): Option<real>
    requires |obs| == |exp| == |sigma|
  {
    if ndof == 0 || exists i :: 0 <= i < |sigma| && sigma[i] == 0.0 then None
    else Some(ChiSum(obs, exp, sigma) / ndof as real)
  }

  /** The sum of squared residuals is never negative, and it is zero exactly on a perfect fit. */
  lemma {:induction false} ChiSumFacts(obs: seq<real>, exp: seq<real>, sigma: seq<real>)
    requires |obs| == |exp| == |sigma|
    requires forall i :: 0 <= i < |sigma| ==> sigma[i] != 0.0
    ensures ChiSum(obs, exp, sigma) >= 0.0
    ensures ChiSum(obs, exp, sigma) == 0.0 <==> obs == exp
    decreases |obs|
  {
    if |obs| > 0 {
      var n := |obs| - 1;
      ChiSumFacts(obs[..n], exp[..n], sigma[..n]);
      if obs[n] == exp[n] {
        TermZero(obs[n] - exp[n], sigma[n]);
      } else {
        TermPos(obs[n] - exp[n], sigma[n]);
      }
      assert obs == obs[..n] + [obs[n]] && exp == exp[..n] + [exp[n]];
      if obs == exp {
        assert obs[..n] == exp[..n];
      }
    }
  }

  /** With positive degrees of freedom chi squared per degree is at least 0, and 0 when observed equals expected. */
  lemma ChiSquaredFacts(obs: seq<real>, exp: seq<real>, ndof: int, sigma: seq<real>)
    requires |obs| == |exp| == |sigma|
    ensures ChiSquared(obs, exp, ndof, sigma).Some? <==> ndof != 0 && forall i :: 0 <= i < |sigma| ==> sigma[i] != 0.0
    ensures ndof > 0 && ChiSquared(obs, exp, ndof, sigma).Some? ==>
              && ChiSquared(obs, exp, ndof, sigma).value >= 0.0
              && (ChiSquared(obs, exp, ndof, sigma).value == 0.0 <==> obs == exp)
  {
    if ndof > 0 && ChiSquared(obs, exp, ndof, sigma).Some? {
      ChiSumFacts(obs, exp, sigma);
    }
  }

  /** `gain = 1/p1` and `cal = -p0/p1`; both are non-finite in the source when the slope is zero. */
  datatype Calib = Calib(gain: real, cal: real)

  function CalibOf(line: Line): (c: Option<Calib>)
    ensures c.None? <==> line.p1 == 0.0
  {
    if line.p1 == 0.0 then None else Some(Calib(1.0 / line.p1, -line.p0 / line.p1))
  }

  /**
    The gain and offset invert the fitted line: `cal + gain * adc_pred(E) = E` for
    every energy, and predicting from `cal + gain * adc` gives back `adc`.
  */
  lemma CalibInvertsLine(line: Line, e: real, adc: real)
    requires line.p1 != 0.0
    ensures var c := CalibOf(line).value;
      && c.cal + c.gain * AdcPred(e, line) == e
      && AdcPred(c.cal + c.gain * adc, line) == adc
  {
    var c := CalibOf(line).value;
    calc {
      c.cal + c.gain * AdcPred(e, line);
      -line.p0 / line.p1 + (1.0 / line.p1) * (e * line.p1 + line.p0);
      -line.p0 / line.p1 + e * line.p1 / line.p1 + line.p0 / line.p1;
      e;
    }
    calc {
      AdcPred(c.cal + c.gain * adc, line);
      (-line.p0 / line.p1 + adc / line.p1) * line.p1 + line.p0;
      -line.p0 + adc + line.p0;
      adc;
    }
  }

  /** What `fit_result` computes: gain and offset, and chi squared per degree of freedom. */
  datatype FitSummary = FitSummary(calib: Option<Calib>, chi2PerDof: Option<real>)

  /** `fit_result(model, adc_peaks, adc_predicted, peak_error)`. */
  function FitResultOf(line: Line, adcPeaks: seq<real>, predicted: seq<real>, errors: seq<real>): FitSummary
    requires |adcPeaks| == |predicted| == |errors|
  {
    FitSummary(CalibOf(line), ChiSquared(adcPeaks, predicted, DegFreedom(predicted), errors))
  }

  /**
    The whole run: select and sort the mean rows, pair them with the energies,
    fit the line with `ols`, predict at the energies and summarise the fit.
  */
  function CalibrationOf(rows: seq<CsvRow>, ols: seq<Point> -> Line): (r: Result<FitSummary, CalError>)
    ensures r.Err? <==> |SelectMeans(rows)| != |EnergyPeaksNoBeam|
  {
    match PointsOf(rows)
    case Err(e) => Err(e)
    case Ok(pts) =>
      var line := ols(pts);
      Ok(FitResultOf(line, AdcsOf(pts), Predicted(EnergyPeaksNoBeam, line), ErrorsOf(pts)))
  }

  /**
    Five points at the calibration energies fitted by `line`: chi squared is
    divided by 3, defined exactly when no error is zero, and then at least zero,
    and zero exactly when the line passes through every point.
  */
  lemma PointsChiSquared(pts: seq<Point>, line: Line)
    requires |pts| == |EnergyPeaksNoBeam|
    requires forall i :: 0 <= i < |pts| ==> pts[i].energy == EnergyPeaksNoBeam[i]
    ensures DegFreedom(Predicted(EnergyPeaksNoBeam, line)) == 3
    ensures var chi := FitResultOf(line, AdcsOf(pts), Predicted(EnergyPeaksNoBeam, line), ErrorsOf(pts)).chi2PerDof;
      && (chi.Some? <==> forall i :: 0 <= i < |pts| ==> pts[i].error != 0.0)
      && (chi.Some? ==> chi.value >= 0.0)
      && (chi.Some? ==> (chi.value == 0.0 <==> forall i :: 0 <= i < |pts| ==> pts[i].adc == AdcPred(pts[i].energy, line)))
  {
    var adcPeaks := AdcsOf(pts);
    var errors := ErrorsOf(pts);
    var predicted := Predicted(EnergyPeaksNoBeam, line);
    ChiSquaredFacts(adcPeaks, predicted, 3, errors);
    if adcPeaks == predicted {
      forall i | 0 <= i < |pts|
        ensures pts[i].adc == AdcPred(pts[i].energy, line)
      {
        assert adcPeaks[i] == predicted[i];
      }
    }
    if forall i :: 0 <= i < |pts| ==> pts[i].adc == AdcPred(pts[i].energy, line) {
      assert adcPeaks == predicted;
    }
  }

  /**
    A successful run fits five points with two parameters, so chi squared is
    divided by 3; it is defined exactly when no peak error is zero and is then at
    least zero, and it is zero exactly when the line passes through every mean.
  */
  lemma CalibrationChiSquared(rows: seq<CsvRow>, ols: seq<Point> -> Line)
    requires CalibrationOf(rows, ols).Ok?
    ensures var pts := PointsOf(rows).value;
      var line := ols(pts);
      var chi := CalibrationOf(rows, ols).value.chi2PerDof;
      && DegFreedom(Predicted(EnergyPeaksNoBeam, line)) == 3
      && (chi.Some? <==> forall i :: 0 <= i < |pts| ==> pts[i].error != 0.0)
      && (chi.Some? ==> chi.value >= 0.0)
      && (chi.Some? ==> (chi.value == 0.0 <==> forall i :: 0 <= i < |pts| ==> pts[i].adc == AdcPred(pts[i].energy, line)))
  {
    var pts := PointsOf(rows).value;
    var line := ols(pts);
    PointsPairInOrder(rows);
    assert CalibrationOf(rows, ols).value
        == FitResultOf(line, AdcsOf(pts), Predicted(EnergyPeaksNoBeam, line), ErrorsOf(pts));
    PointsChiSquared(pts, line);
  }


  /** One line of the exported `STMEnergyPar` table: `ch,p0,p1,p2` with `E = p0 + p1*adc + p2*adc*adc`. */
  datatype TableRow = TableRow(channel: string, p0: real, p1: real, p2: real)

  /** `export_params`: both channels get the same offset and gain and no quadratic term. */
  datatype EnergyTable = EnergyTable(runNumber: string, rows: seq<TableRow>)

  function ExportTable(c: Calib, runNumber: string): EnergyTable {
    EnergyTable(runNumber, [TableRow("HPGe", c.cal, c.gain, 0.0), TableRow("LaBr", c.cal, c.gain, 0.0)])
  }

  /** The energy the table assigns to an ADC value. */
  function TableEnergy(row: TableRow, adc: real): real {
    row.p0 + row.p1 * adc + row.p2 * adc * adc
  }

  /**
    Every channel of the exported table maps the ADC value the fitted line
    predicts for energy `E` back to `E`.
  */
  lemma TableInvertsFit(line: Line, runNumber: string, e: real)
    requires line.p1 != 0.0
    ensures var t := ExportTable(CalibOf(line).value, runNumber);
      && |t.rows| == 2 && t.rows[0].channel == "HPGe" && t.rows[1].channel == "LaBr"
      && forall k :: 0 <= k < |t.rows| ==> TableEnergy(t.rows[k], AdcPred(e, line)) == e
  {
    CalibInvertsLine(line, e, 0.0);
  }
}
