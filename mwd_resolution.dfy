/**
  `MWDResolution` (MWDResolution.C): fit the 1.836 MeV peak of an energy
  spectrum with a Gaussian on a linear background, seeded by the same
  half-maximum scan as `energyGain` but on the raw bin contents, and append the
  fitted width to `mwdResolution.log`. Reading the histogram, rebinning and the
  fit are ROOT calls; their results are parameters here.
*/
module MWDResolution {
  import opened Base
  import opened Fwhm
  import opened FitSetup
  import EnergyGain

  /** The energy of the peak whose width is measured, in MeV. */
  const PeakMeanGuess: real := 1.836
  /** Half the width of the fit range around the peak, in MeV. */
  const FitHalfWindow: real := 0.15
  /** The index of the Gaussian width among the fit parameters. */
  const SigmaIndex: nat := 2

  /** The rebinned energy spectrum: bin contents, axis and `FindBin`; no background is estimated. */
  datatype Histogram = Histogram(content: int -> real, axis: Axis, findBin: real -> int)

  /** The scan around the peak bin at half of that bin's raw content. */
  function ResolutionScan(h: Histogram): Scan {
    var bin := h.findBin(PeakMeanGuess);
    WindowScan(h.content, bin, h.content(bin) / 2.0)
  }

  /** Box limits on the amplitude, the mean and the width. */
  const ResolutionLimits: seq<Limit> := [Limit(0, 0.0, 300.0), Limit(1, 0.0, 2.5), Limit(2, 0.0, 50.0)]

  /** The fit request; no parameter names are set. */
  function ResolutionConfig(h: Histogram): FitConfig {
    var bin := h.findBin(PeakMeanGuess);
    var scan := ResolutionScan(h);
    FitConfig(GaussianLinear, PeakMeanGuess - FitHalfWindow, PeakMeanGuess + FitHalfWindow, [],
              Seed(h.content(bin), PeakMeanGuess, SigmaSeed(h.axis, scan), SeedSlope, SeedConstant),
              ResolutionLimits)
  }

  /** The line appended to `mwdResolution.log`: the input file name and the fitted width. */
  datatype ResolutionLine = ResolutionLine(filename: string, resolution: real)

  /**
    The body of `MWDResolution`: seed from the scan, fit, take parameter 2. The
    fitter reports one value per parameter of the formula.
  */
  method MeasureResolution(filename: string, h: Histogram, fit: FitConfig -> seq<FitParameter>)
    returns (line: ResolutionLine)
    requires |fit(ResolutionConfig(h))| == NParams(GaussianLinear)
    ensures line == ResolutionLine(filename, fit(ResolutionConfig(h))[SigmaIndex].value)
  {
    var bin := h.findBin(PeakMeanGuess);
    var guessHeight := h.content(bin);
    var halfMax := guessHeight / 2.0;
    var scan := ScanHalfMax(h.content, bin, halfMax);
    assert scan == ResolutionScan(h);
    var sigma: Option<real> := None;
    if scan.Bracket? {
      var fwhm := h.axis.Center(scan.fall) - h.axis.Center(scan.rise);
      sigma := Some(fwhm / FwhmPerSigma);
    }
    assert sigma == SigmaSeed(h.axis, scan);
    var config := FitConfig(GaussianLinear, PeakMeanGuess - FitHalfWindow, PeakMeanGuess + FitHalfWindow, [],
                            Seed(guessHeight, PeakMeanGuess, sigma, SeedSlope, SeedConstant), ResolutionLimits);
    assert config == ResolutionConfig(h);
    var params := fit(config);
    line := ResolutionLine(filename, params[SigmaIndex].value);
  }

  /**
    The seed of the resolution fit: the height is the peak bin's content, the mean
    is 1.836, the sigma is present exactly when the scan brackets the peak and is
    then positive, and the seed mean lies inside the box allowed for the mean.
  */
  lemma ResolutionSeed(h: Histogram)
    requires h.axis.Valid()
    ensures var c := ResolutionConfig(h);
      && c.seed.height == h.content(h.findBin(PeakMeanGuess)) && c.seed.mean == PeakMeanGuess
      && (c.seed.sigma.Some? <==> ResolutionScan(h).Bracket?)
      && (c.seed.sigma.Some? ==> c.seed.sigma.value > 0.0)
      && c.seed.slope == SeedSlope && c.seed.constant == SeedConstant
      && c.model == GaussianLinear && c.names == []
      && c.rangeLo == PeakMeanGuess - FitHalfWindow && c.rangeHi == PeakMeanGuess + FitHalfWindow
      && c.limits == [Limit(0, 0.0, 300.0), Limit(1, 0.0, 2.5), Limit(2, 0.0, 50.0)]
      && c.limits[1].index == 1 && c.limits[1].lo <= c.seed.mean <= c.limits[1].hi
      && c.rangeLo < c.seed.mean < c.rangeHi
  {
    var bin := h.findBin(PeakMeanGuess);
    if ResolutionScan(h).Bracket? {
      BracketWidth(h.axis, h.content, bin - SearchHalfWidth, bin + SearchHalfWidth, h.content(bin) / 2.0);
    }
  }

  /**
    The scan here is the scan of `energyGain` on a spectrum with the same bins and
    a background that is zero everywhere, taken around the same bin.
  */
  lemma ScanIsZeroBackgroundScan(h: Histogram, s: EnergyGain.Spectrum)
    requires s.content == h.content && s.findBin == h.findBin
    requires forall k :: s.background(k) == 0.0
    ensures ResolutionScan(h) == EnergyGain.PeakScan(s, PeakMeanGuess)
  {
    var bin := h.findBin(PeakMeanGuess);
    var half := h.content(bin) / 2.0;
    assert EnergyGain.HalfMaxOf(s, bin) == half;
    forall k | bin - SearchHalfWidth <= k < bin + SearchHalfWidth
      ensures h.content(k) == EnergyGain.Net(s)(k)
    {
    }
    WindowPointwise(h.content, EnergyGain.Net(s), bin, half);
  }
}
