/**
  The full-width-at-half-maximum seed scan shared by `energyGain`
  (Calibration/energyGain.C) and `MWDResolution` (MWDResolution.C): walking the
  bins around a peak, the first bin above half maximum opens the peak and the
  first later bin below half maximum closes it. Bin contents are given as a
  function from bin number to content, as read from the histogram.
*/
module Fwhm {
  import opened Base

  /** The scan covers the bins `[bin - 25, bin + 25)` around the peak bin. */
  const SearchHalfWidth: int := 25
  /** A Gaussian's width at half maximum is about 2.35 standard deviations. */
  const FwhmPerSigma: real := 2.35

  /** A fixed-width histogram axis: `GetBinCenter(k)` is `xmin + (k - 0.5) * width`. */
  datatype Axis = Axis(xmin: real, width: real)
  {
    predicate Valid() {
      width > 0.0
    }

    function Center(k: int): real {
      xmin + (k as real - 0.5) * width
    }
  }

  /** The first bin of `[lo, hi)` whose content is strictly above `h`. */
  function FirstAbove(net: int -> real, lo: int, hi: int, h: real): (r: Option<int>)
    ensures r.Some? ==> lo <= r.value < hi && net(r.value) > h && forall j :: lo <= j < r.value ==> net(j) <= h
    ensures r.None? ==> forall j :: lo <= j < hi ==> net(j) <= h
    decreases hi - lo
  {
    if lo >= hi then None
    else if net(lo) > h then Some(lo)
    else FirstAbove(net, lo + 1, hi, h)
  }

  /** The first bin of `[lo, hi)` whose content is strictly below `h`. */
  function FirstBelow(net: int -> real, lo: int, hi: int, h: real): (r: Option<int>)
    ensures r.Some? ==> lo <= r.value < hi && net(r.value) < h && forall j :: lo <= j < r.value ==> net(j) >= h
    ensures r.None? ==> forall j :: lo <= j < hi ==> net(j) >= h
    decreases hi - lo
  {
    if lo >= hi then None
    else if net(lo) < h then Some(lo)
    else FirstBelow(net, lo + 1, hi, h)
  }

  /**
    The outcome of the scan: no bin rose above half maximum; one did (`x1` is
    set) but none fell below it afterwards (`x2` is never assigned); or both edges
    were found. Only the last gives the source defined values of `x1` and `x2`.
  */
  datatype Scan = NoRise | RiseOnly(rise: int) | Bracket(rise: int, fall: int)

  /** The scan over `[lo, hi)` at level `h`. */
  function ScanOf(net: int -> real, lo: int, hi: int, h: real): Scan {
    match FirstAbove(net, lo, hi, h)
    case None => NoRise
    case Some(r) =>
      match FirstBelow(net, r + 1, hi, h)
      case None => RiseOnly(r)
      case Some(f) => Bracket(r, f)
  }

  /** The scan over the bins `[bin - 25, bin + 25)` around `bin` at level `halfMax`. */
  function WindowScan(net: int -> real, bin: int, halfMax: real): Scan {
    ScanOf(net, bin - SearchHalfWidth, bin + SearchHalfWidth, halfMax)
  }

  /** A bin that is above `h` with none above before it is the first such bin. */
  lemma FirstAboveIs(net: int -> real, lo: int, hi: int, h: real, r: int)
    requires lo <= r < hi && net(r) > h && forall j :: lo <= j < r ==> net(j) <= h
    ensures FirstAbove(net, lo, hi, h) == Some(r)
  {
  }

  /** A bin that is below `h` with none below before it is the first such bin. */
  lemma FirstBelowIs(net: int -> real, lo: int, hi: int, h: real, f: int)
    requires lo <= f < hi && net(f) < h && forall j :: lo <= j < f ==> net(j) >= h
    ensures FirstBelow(net, lo, hi, h) == Some(f)
  {
  }

  /** When no bin of `[lo, hi)` is below `h`, there is no first such bin. */
  lemma NoneBelow(net: int -> real, lo: int, hi: int, h: real)
    requires forall j :: lo <= j < hi ==> net(j) >= h
    ensures FirstBelow(net, lo, hi, h) == None
  {
  }

  /**
    The scan loop of `energyGain` and `MWDResolution` over the bins around `bin`,
    with its `threshold` flag: the first bin above half maximum sets `x1`, and
    the first later bin below it sets `x2` and ends the loop.
  */
  method ScanHalfMax(net: int -> real, bin: int, halfMax: real) returns (s: Scan)
    ensures s == WindowScan(net, bin, halfMax)
  {
    var lo, hi := bin - SearchHalfWidth, bin + SearchHalfWidth;
    var threshold := false;
    var rise := lo;
    s := NoRise;
    var k := lo;
    while k < hi
      invariant lo <= k <= hi
      invariant !threshold ==> s == NoRise && forall j :: lo <= j < k ==> net(j) <= halfMax
      invariant threshold ==> s == RiseOnly(rise) && lo <= rise < k && net(rise) > halfMax
      invariant threshold ==> forall j :: lo <= j < rise ==> net(j) <= halfMax
      invariant threshold ==> forall j :: rise < j < k ==> net(j) >= halfMax
    {
      var content := net(k);
      if content > halfMax && !threshold {
        rise := k;
        threshold := true;
        s := RiseOnly(k);
      }
      if content < halfMax && threshold {
        s := Bracket(rise, k);
        BracketIff(net, lo, hi, halfMax, rise, k);
        return;
      }
      k := k + 1;
    }
    if threshold {
      RiseOnlyIff(net, lo, hi, halfMax, rise);
    } else {
      NoRiseIff(net, lo, hi, halfMax);
    }
  }

  /**
    The scan brackets the peak by `(r, f)` exactly when `r` is the first bin above
    the level, `f` comes after it and is the first bin below the level, and every
    bin in between stays at or above the level.
  */
  lemma BracketIff(net: int -> real, lo: int, hi: int, h: real, r: int, f: int)
    ensures ScanOf(net, lo, hi, h) == Bracket(r, f) <==>
              && lo <= r < f < hi
              && net(r) > h && net(f) < h
              && (forall j :: lo <= j < r ==> net(j) <= h)
              && (forall j :: r < j < f ==> net(j) >= h)
  {
    if lo <= r < f < hi && net(r) > h && net(f) < h
       && (forall j :: lo <= j < r ==> net(j) <= h) && (forall j :: r < j < f ==> net(j) >= h) {
      FirstAboveIs(net, lo, hi, h, r);
      FirstBelowIs(net, r + 1, hi, h, f);
    }
  }

  /** The scan finds no rising edge exactly when no bin of the window is above the level. */
  lemma NoRiseIff(net: int -> real, lo: int, hi: int, h: real)
    ensures ScanOf(net, lo, hi, h) == NoRise <==> forall j :: lo <= j < hi ==> net(j) <= h
  {
    if ScanOf(net, lo, hi, h) != NoRise {
      var r := FirstAbove(net, lo, hi, h).value;
      assert net(r) > h;
    }
  }

  /**
    The scan rises at `r` and never falls exactly when `r` is the first bin above
    the level and no later bin of the window is below it.
  */
  lemma RiseOnlyIff(net: int -> real, lo: int, hi: int, h: real, r: int)
    ensures ScanOf(net, lo, hi, h) == RiseOnly(r) <==>
              && lo <= r < hi && net(r) > h
              && (forall j :: lo <= j < r ==> net(j) <= h)
              && (forall j :: r < j < hi ==> net(j) >= h)
  {
    if lo <= r < hi && net(r) > h && (forall j :: lo <= j < r ==> net(j) <= h) && (forall j :: r < j < hi ==> net(j) >= h) {
      FirstAboveIs(net, lo, hi, h, r);
      NoneBelow(net, r + 1, hi, h);
    }
  }

  /** `FWHM = x2 - x1`, the distance between the centres of the two edge bins. */
  function FwhmOf(axis: Axis, rise: int, fall: int): real {
    axis.Center(fall) - axis.Center(rise)
  }

  /** `sigma = FWHM / 2.35`. */
  function SigmaOf(axis: Axis, rise: int, fall: int): real {
    FwhmOf(axis, rise, fall) / FwhmPerSigma
  }

  /** `sigma`, defined only when the scan brackets the peak. */
  function SigmaSeed(axis: Axis, scan: Scan): Option<real> {
    if scan.Bracket? then Some(SigmaOf(axis, scan.rise, scan.fall)) else None
  }

  /** Bin centres `n` bins apart are `n` widths apart. */
  lemma CenterGap(axis: Axis, rise: int, fall: int)
    ensures FwhmOf(axis, rise, fall) == (fall - rise) as real * axis.width
  {
    var n := (fall - rise) as real;
    assert axis.Center(fall) == axis.xmin + (rise as real - 0.5) * axis.width + n * axis.width;
  }

  /** A whole number `n` of bins with `1 <= n < m` spans at least one bin and fewer than `m`. */
  lemma WidthBounds(n: real, m: real, w: real)
    requires w > 0.0 && 1.0 <= n < m
    ensures n * w >= w && n * w < m * w
  {
    assert n * w - w == (n - 1.0) * w;
    assert m * w - n * w == (m - n) * w;
  }

  /**
    A bracket found by the scan gives a positive width: a whole number of bins of
    at least one bin and fewer than the window, and a sigma that is that width
    over 2.35.
  */
  lemma BracketWidth(axis: Axis, net: int -> real, lo: int, hi: int, h: real)
    requires axis.Valid() && ScanOf(net, lo, hi, h).Bracket?
    ensures FwhmOf(axis, ScanOf(net, lo, hi, h).rise, ScanOf(net, lo, hi, h).fall)
              == (ScanOf(net, lo, hi, h).fall - ScanOf(net, lo, hi, h).rise) as real * axis.width
    ensures FwhmOf(axis, ScanOf(net, lo, hi, h).rise, ScanOf(net, lo, hi, h).fall) >= axis.width
    ensures FwhmOf(axis, ScanOf(net, lo, hi, h).rise, ScanOf(net, lo, hi, h).fall) < (hi - lo) as real * axis.width
    ensures SigmaOf(axis, ScanOf(net, lo, hi, h).rise, ScanOf(net, lo, hi, h).fall) > 0.0
    ensures SigmaOf(axis, ScanOf(net, lo, hi, h).rise, ScanOf(net, lo, hi, h).fall) * FwhmPerSigma
              == FwhmOf(axis, ScanOf(net, lo, hi, h).rise, ScanOf(net, lo, hi, h).fall)
  {
    var s := ScanOf(net, lo, hi, h);
    BracketIff(net, lo, hi, h, s.rise, s.fall);
    EdgeWidth(axis, lo, hi, s.rise, s.fall);
  }

  /** Two edges `lo <= rise < fall < hi` are at least a bin and less than the window apart. */
  lemma EdgeWidth(axis: Axis, lo: int, hi: int, rise: int, fall: int)
    requires axis.Valid() && lo <= rise < fall < hi
    ensures FwhmOf(axis, rise, fall) == (fall - rise) as real * axis.width
    ensures FwhmOf(axis, rise, fall) >= axis.width
    ensures FwhmOf(axis, rise, fall) < (hi - lo) as real * axis.width
    ensures SigmaOf(axis, rise, fall) > 0.0
    ensures SigmaOf(axis, rise, fall) * FwhmPerSigma == FwhmOf(axis, rise, fall)
  {
    CenterGap(axis, rise, fall);
    WidthBounds((fall - rise) as real, (hi - lo) as real, axis.width);
  }

  /** The first bin above a level depends only on the contents of the scanned bins. */
  lemma {:induction false} FirstAbovePointwise(n1: int -> real, n2: int -> real, lo: int, hi: int, h: real)
    requires forall k :: lo <= k < hi ==> n1(k) == n2(k)
    ensures FirstAbove(n1, lo, hi, h) == FirstAbove(n2, lo, hi, h)
    decreases hi - lo
  {
    if lo < hi {
      FirstAbovePointwise(n1, n2, lo + 1, hi, h);
    }
  }

  /** The first bin below a level depends only on the contents of the scanned bins. */
  lemma {:induction false} FirstBelowPointwise(n1: int -> real, n2: int -> real, lo: int, hi: int, h: real)
    requires forall k :: lo <= k < hi ==> n1(k) == n2(k)
    ensures FirstBelow(n1, lo, hi, h) == FirstBelow(n2, lo, hi, h)
    decreases hi - lo
  {
    if lo < hi {
      FirstBelowPointwise(n1, n2, lo + 1, hi, h);
    }
  }

  /** Two contents that agree on the window give the same scan. */
  lemma ScanPointwise(n1: int -> real, n2: int -> real, lo: int, hi: int, h: real)
    requires forall k :: lo <= k < hi ==> n1(k) == n2(k)
    ensures ScanOf(n1, lo, hi, h) == ScanOf(n2, lo, hi, h)
  {
    FirstAbovePointwise(n1, n2, lo, hi, h);
    var a := FirstAbove(n1, lo, hi, h);
    if a.Some? {
      FirstBelowPointwise(n1, n2, a.value + 1, hi, h);
    }
  }

  /** Two contents that agree on the bins around `bin` give the same scan there. */
  lemma WindowPointwise(n1: int -> real, n2: int -> real, bin: int, halfMax: real)
    requires forall k :: bin - SearchHalfWidth <= k < bin + SearchHalfWidth ==> n1(k) == n2(k)
    ensures WindowScan(n1, bin, halfMax) == WindowScan(n2, bin, halfMax)
  {
    ScanPointwise(n1, n2, bin - SearchHalfWidth, bin + SearchHalfWidth, halfMax);
  }
}
