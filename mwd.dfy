/**
  The moving-window deconvolution of `MWDLaBrTest` (MWDAnalysis/MWDLaBrTest.C):
  a sampled waveform on a pedestal is turned, bin by bin, into a signal in which
  an exponential tail with decay time `tau` is integrated back into a step. Bin
  `i + 1` of the ROOT histograms is element `i` of the arrays here.
*/
module MWD {

  /** The decay time of the pulses, in ns. */
  const Tau: real := 35.0
  /** The sampling period, in ns. */
  const T0: real := 3.125
  /** The baseline of the waveform. */
  const Pedestal: real := 3800.0
  /** `(max_t - min_t) / T0` with `max_t = 500` and `min_t = 0`, truncated to an integer. */
  const NBins: nat := 160

  /** `1 - T0/tau`: the part of the previous sample's excursion that is still decaying away. */
  function Retained(t0: real, tau: real): real
    requires tau != 0.0
  {
    1.0 - t0 / tau
  }

  /**
    The deconvolved value at bin `i`, with `a` the retained part `1 - T0/tau`:
    the first bin copies the sample, every later bin adds the new excursion minus
    the retained part of the previous one.
  */
  function Deconvolved(w: seq<real>, pedestal: real, a: real, i: nat): real
    requires i < |w|
    decreases i
  {
    if i == 0 then w[0]
    else (w[i] - pedestal) - a * (w[i - 1] - pedestal) + Deconvolved(w, pedestal, a, i - 1)
  }

  /** One step of the recurrence, taken from the current sample, the previous one and the previous bin. */
  lemma NextBin(ws: seq<real>, pedestal: real, t0: real, tau: real, i: nat, cur: real, prev: real, before: real,
                next: real)
    requires tau != 0.0 && 0 < i < |ws| && cur == ws[i] && prev == ws[i - 1]
    requires before == Deconvolved(ws, pedestal, Retained(t0, tau), i - 1)
    requires next == cur - pedestal - (1.0 - t0 / tau) * (prev - pedestal) + before
    ensures next == Deconvolved(ws, pedestal, Retained(t0, tau), i)
  {
  }

  /** The deconvolution loop: a new histogram with as many bins as the waveform. */
  method Deconvolve(w: array<real>, pedestal: real, t0: real, tau: real) returns (d: array<real>)
    requires tau != 0.0
    ensures fresh(d) && d.Length == w.Length
    ensures forall i :: 0 <= i < d.Length ==> d[i] == Deconvolved(w[..], pedestal, Retained(t0, tau), i)
  {
    d := new real[w.Length];
    if w.Length == 0 {
      return;
    }
    ghost var ws := w[..];
    d[0] := w[0];
    for i := 1 to w.Length
      invariant w[..] == ws
      invariant forall j :: 0 <= j < i ==> d[j] == Deconvolved(ws, pedestal, Retained(t0, tau), j)
    {
      var D := w[i] - pedestal - (1.0 - t0 / tau) * (w[i - 1] - pedestal) + d[i - 1];
      NextBin(ws, pedestal, t0, tau, i, w[i], w[i - 1], d[i - 1], D);
      d[i] := D;
    }
  }

  /** The sum of the excursions `w[j] - pedestal` over the first `n` samples. */
  function Excursion(w: seq<real>, pedestal: real, n: nat): real
    requires n <= |w|
    decreases n
  {
    if n == 0 then 0.0 else Excursion(w, pedestal, n - 1) + (w[n - 1] - pedestal)
  }

  /** The part `1 - a` (that is, `T0/tau`) of the excursions before bin `n`: what has decayed away by then. */
  function Leak(w: seq<real>, pedestal: real, a: real, n: nat): real
    requires n <= |w|
  {
    (1.0 - a) * Excursion(w, pedestal, n)
  }

  /**
    The closed form: bin `n` is the sample at `n` plus the decayed part `T0/tau`
    of every excursion before bin `n`.
  */
  lemma {:induction false} Telescoping(w: seq<real>, pedestal: real, a: real, n: nat)
    requires n < |w|
    ensures Deconvolved(w, pedestal, a, n) == w[n] + Leak(w, pedestal, a, n)
    decreases n
  {
    if n > 0 {
      Telescoping(w, pedestal, a, n - 1);
      StepCloses(Deconvolved(w, pedestal, a, n), Deconvolved(w, pedestal, a, n - 1), w[n], w[n - 1], pedestal, a,
                 Excursion(w, pedestal, n - 1), Excursion(w, pedestal, n));
    }
  }

  /** One step of the closed form: the retained excursion and the new one combine into the next partial sum. */
  lemma StepCloses(d: real, q: real, x: real, y: real, pedestal: real, a: real, e: real, e': real)
    requires d == (x - pedestal) - a * (y - pedestal) + q && q == y + (1.0 - a) * e && e' == e + (y - pedestal)
    ensures d == x + (1.0 - a) * e'
  {
  }

  /** Bin `i` depends only on the samples up to bin `i`: later samples do not change it. */
  lemma {:induction false} Causal(w1: seq<real>, w2: seq<real>, pedestal: real, a: real, i: nat)
    requires i < |w1| && i < |w2| && w1[..i + 1] == w2[..i + 1]
    ensures Deconvolved(w1, pedestal, a, i) == Deconvolved(w2, pedestal, a, i)
    decreases i
  {
    assert w1[i] == w1[..i + 1][i] == w2[..i + 1][i] == w2[i];
    if i > 0 {
      assert w1[i - 1] == w1[..i + 1][i - 1] == w2[..i + 1][i - 1] == w2[i - 1];
      assert w1[..i] == w1[..i + 1][..i] == w2[..i + 1][..i] == w2[..i];
      Causal(w1, w2, pedestal, a, i - 1);
      assert Deconvolved(w1, pedestal, a, i)
             == (w1[i] - pedestal) - a * (w1[i - 1] - pedestal) + Deconvolved(w1, pedestal, a, i - 1);
      assert Deconvolved(w2, pedestal, a, i)
             == (w2[i] - pedestal) - a * (w2[i - 1] - pedestal) + Deconvolved(w2, pedestal, a, i - 1);
    }
  }

  /** While the waveform sits on the pedestal, the deconvolved signal stays at the pedestal. */
  lemma {:induction false} FlatPedestal(w: seq<real>, pedestal: real, a: real, i: nat)
    requires i < |w| && forall j :: 0 <= j <= i ==> w[j] == pedestal
    ensures Deconvolved(w, pedestal, a, i) == pedestal
    decreases i
  {
    if i > 0 {
      FlatPedestal(w, pedestal, a, i - 1);
    }
  }

  /** The decayed part of `w` is the sum of those of `w1` and `w2` when every excursion adds up. */
  lemma LeakAdds(w: seq<real>, w1: seq<real>, w2: seq<real>, pedestal: real, a: real, n: nat)
    requires n <= |w| && |w1| == |w| && |w2| == |w|
    requires forall j :: 0 <= j < |w| ==> w[j] - pedestal == (w1[j] - pedestal) + (w2[j] - pedestal)
    ensures Leak(w, pedestal, a, n) == Leak(w1, pedestal, a, n) + Leak(w2, pedestal, a, n)
  {
    ExcursionAdds(w, w1, w2, pedestal, n);
    Distribute(1.0 - a, Excursion(w, pedestal, n), Excursion(w1, pedestal, n), Excursion(w2, pedestal, n));
  }

  /** The summed excursion of `w` is the sum of those of `w1` and `w2` when every excursion adds up. */
  lemma {:induction false} ExcursionAdds(w: seq<real>, w1: seq<real>, w2: seq<real>, pedestal: real, n: nat)
    requires n <= |w| && |w1| == |w| && |w2| == |w|
    requires forall j :: 0 <= j < |w| ==> w[j] - pedestal == (w1[j] - pedestal) + (w2[j] - pedestal)
    ensures Excursion(w, pedestal, n) == Excursion(w1, pedestal, n) + Excursion(w2, pedestal, n)
    decreases n
  {
    if n > 0 {
      ExcursionAdds(w, w1, w2, pedestal, n - 1);
      assert w[n - 1] - pedestal == (w1[n - 1] - pedestal) + (w2[n - 1] - pedestal);
    }
  }

  /** Scaling distributes over a sum. */
  lemma Distribute(c: real, x: real, x1: real, x2: real)
    requires x == x1 + x2
    ensures c * x == c * x1 + c * x2
  {
  }

  /**
    Superposition: when the excursions of `w` are the sums of those of `w1` and
    `w2`, the deconvolved rise of `w` above its first bin is the sum of theirs.
  */
  lemma Superposition(w: seq<real>, w1: seq<real>, w2: seq<real>, pedestal: real, a: real, i: nat)
    requires i < |w| && |w1| == |w| && |w2| == |w|
    requires forall j :: 0 <= j < |w| ==> w[j] - pedestal == (w1[j] - pedestal) + (w2[j] - pedestal)
    ensures Deconvolved(w, pedestal, a, i) - w[0]
            == (Deconvolved(w1, pedestal, a, i) - w1[0]) + (Deconvolved(w2, pedestal, a, i) - w2[0])
  {
    Telescoping(w, pedestal, a, i);
    Telescoping(w1, pedestal, a, i);
    Telescoping(w2, pedestal, a, i);
    LeakAdds(w, w1, w2, pedestal, a, i);
    assert w[i] - pedestal == (w1[i] - pedestal) + (w2[i] - pedestal);
    assert w[0] - pedestal == (w1[0] - pedestal) + (w2[0] - pedestal);
  }

  /**
    With the settings of the test (tau = 35 ns, T0 = 3.125 ns, 160 bins over
    0-500 ns, pedestal 3800), the bins cover the range exactly, a fraction
    strictly between 0 and 1 of each excursion is retained, and a waveform lying
    on the pedestal deconvolves to the pedestal in every bin.
  */
  lemma TestSettings(w: seq<real>)
    requires |w| == NBins && forall j :: 0 <= j < |w| ==> w[j] == Pedestal
    ensures NBins as real * T0 == 500.0
    ensures 0.0 < Retained(T0, Tau) < 1.0
    ensures forall i :: 0 <= i < NBins ==> Deconvolved(w, Pedestal, Retained(T0, Tau), i) == Pedestal
  {
    forall i | 0 <= i < NBins
      ensures Deconvolved(w, Pedestal, Retained(T0, Tau), i) == Pedestal
    {
      FlatPedestal(w, Pedestal, Retained(T0, Tau), i);
    }
  }
}
