/**
  Reconstruction of the zero-suppressed waveforms in `plot`
  (Plotting/plotZSAnalysis.C): the windowed output stream is cut wherever two
  consecutive samples are more than one tick apart, and each piece becomes its
  own graph.
*/
module ZSSegments {
  import opened Seqs
  import opened ZSIngest
  import opened ZSWindow

  /** The positions in `[1, k)` whose sample follows the previous one by more than one tick. */
  function GapStarts(times: seq<real>, k: int): seq<int>
    requires 0 <= k <= |times|
    decreases k
  {
    if k <= 1 then []
    else
      var front := GapStarts(times, k - 1);
      if times[k - 1] - times[k - 2] > TickNs then front + [k - 1] else front
  }

  /**
    The gap starts are strictly increasing, lie in `[1, k)`, and hold a position
    exactly when its sample follows the previous one by more than one tick.
  */
  lemma {:induction false} GapStartsFacts(times: seq<real>, k: int)
    requires 0 <= k <= |times|
    ensures StrictlyIncreasing(GapStarts(times, k))
    ensures forall j :: 0 <= j < |GapStarts(times, k)| ==> 1 <= GapStarts(times, k)[j] < k
    ensures forall i :: 1 <= i < k ==> (i in GapStarts(times, k) <==> times[i] - times[i - 1] > TickNs)
    decreases k
  {
    if k > 1 {
      var front := GapStarts(times, k - 1);
      GapStartsFacts(times, k - 1);
      assert forall j :: 0 <= j < |front| ==> front[j] != k - 1;
      if times[k - 1] - times[k - 2] > TickNs {
        assert GapStarts(times, k) == front + [k - 1];
      } else {
        assert GapStarts(times, k) == front;
      }
    }
  }

  /** A strictly increasing run of positions in `[1, n)`, with 0 in front and `n` behind, stays strictly increasing. */
  lemma BracketedIncreasing(g: seq<int>, n: int)
    requires StrictlyIncreasing(g)
    requires n >= 1 && forall j :: 0 <= j < |g| ==> 1 <= g[j] < n
    ensures StrictlyIncreasing([0] + g + [n])
  {
    var s := [0] + g + [n];
    forall i, j | 0 <= i < j < |s|
      ensures s[i] < s[j]
    {
      if 1 <= i {
        assert s[i] == g[i - 1];
      }
      if j <= |g| {
        assert s[j] == g[j - 1];
      }
    }
  }

  /**
    `splitIndexes`: 0, every position after a gap of more than one tick, then
    the sample count. They start at 0, end at the number of samples, are strictly
    increasing for a non-empty stream, and an inner position is one of them
    exactly when the gap before it exceeds one tick.
  */
  function SplitIndexesOf(times: seq<real>): (s: seq<int>)
    ensures |s| >= 2 && s[0] == 0 && s[|s| - 1] == |times|
    ensures |times| > 0 ==> StrictlyIncreasing(s)
    ensures CutsWithin(s, |times|)
    ensures forall i :: 0 < i < |times| ==> (i in s <==> times[i] - times[i - 1] > TickNs)
  {
    var g := GapStarts(times, |times|);
    GapStartsFacts(times, |times|);
    if |times| > 0 then
      BracketedIncreasing(g, |times|);
      [0] + g + [|times|]
    else
      [0] + g + [|times|]
  }

  /** The loop that collects the split indexes. */
  method SplitIndexes(times: seq<real>) returns (splits: seq<int>)
    ensures splits == SplitIndexesOf(times)
  {
    splits := [0];
    var n := |times|;
    if n > 0 {
      var i := 1;
      while i < n
        invariant 1 <= i <= n
        invariant splits == [0] + GapStarts(times, i)
      {
        if times[i] - times[i - 1] > TickNs {
          splits := splits + [i];
        }
        i := i + 1;
      }
    }
    assert splits == [0] + GapStarts(times, n);
    splits := splits + [n];
  }

  /** The output graphs: one trace per pair of consecutive split indexes. */
  function SegmentsOf(t: Trace, splits: seq<int>): (r: seq<Trace>)
    requires |t.adcs| == |t.times| && CutsWithin(splits, |t.times|)
    ensures |r| == |splits| - 1
  {
    seq(|splits| - 1, i requires 0 <= i < |splits| - 1 =>
      Trace(t.adcs[splits[i]..splits[i + 1]], t.times[splits[i]..splits[i + 1]]))
  }

  /** The times of every segment, in order. */
  function TimesOf(segs: seq<Trace>): seq<seq<real>> {
    seq(|segs|, i requires 0 <= i < |segs| => segs[i].times)
  }

  /** The ADC values of every segment, in order. */
  function AdcsOf(segs: seq<Trace>): seq<seq<real>> {
    seq(|segs|, i requires 0 <= i < |segs| => segs[i].adcs)
  }

  /** With the cuts 0 and n only, there is a single segment: the whole stream. */
  lemma OneSegmentIsWhole(t: Trace, splits: seq<int>)
    requires |t.adcs| == |t.times| && splits == [0, |t.times|]
    ensures SegmentsOf(t, splits) == [t]
  {
    assert t.adcs[0..|t.times|] == t.adcs && t.times[0..|t.times|] == t.times;
  }

  /**
    Lines 359-384 of `plot`: with more than two split indexes a graph per
    segment, otherwise one graph of the whole stream. Both branches give the
    segments of the split.
  */
  method OutputPlots(t: Trace) returns (splits: seq<int>, plots: seq<Trace>)
    requires |t.adcs| == |t.times|
    ensures splits == SplitIndexesOf(t.times)
    ensures CutsWithin(splits, |t.times|) && plots == SegmentsOf(t, splits)
  {
    splits := SplitIndexes(t.times);
    if |splits| > 2 {
      plots := [];
      for i := 1 to |splits|
        invariant |plots| == i - 1
        invariant forall j :: 0 <= j < i - 1 ==>
                    plots[j] == Trace(t.adcs[splits[j]..splits[j + 1]], t.times[splits[j]..splits[j + 1]])
      {
        plots := plots + [Trace(t.adcs[splits[i - 1]..splits[i]], t.times[splits[i - 1]..splits[i]])];
      }
    } else {
      plots := [t];
      assert splits == [0, |t.times|];
      OneSegmentIsWhole(t, splits);
    }
  }

  /** Concatenating the segments gives back the windowed output stream unchanged. */
  lemma SegmentsConcatenate(t: Trace)
    requires |t.adcs| == |t.times|
    ensures var segs := SegmentsOf(t, SplitIndexesOf(t.times));
      Flatten(TimesOf(segs)) == t.times && Flatten(AdcsOf(segs)) == t.adcs
  {
    var s := SplitIndexesOf(t.times);
    var segs := SegmentsOf(t, s);
    assert TimesOf(segs) == Pieces(t.times, s);
    assert AdcsOf(segs) == Pieces(t.adcs, s);
    FlattenPieces(t.times, s);
    FlattenPieces(t.adcs, s);
    assert t.times[0..|t.times|] == t.times && t.adcs[0..|t.adcs|] == t.adcs;
  }

  /** A value strictly between two consecutive elements of a strictly increasing sequence is not in it. */
  lemma BetweenConsecutive(s: seq<int>, i: int, x: int)
    requires StrictlyIncreasing(s) && 0 <= i < |s| - 1 && s[i] < x < s[i + 1]
    ensures x !in s
  {
    forall k | 0 <= k < |s| ensures s[k] != x {
      if k < i {
        assert s[k] < s[i];
      } else if k > i + 1 {
        assert s[i + 1] < s[k];
      }
    }
  }

  /**
    Every segment of a non-empty stream is non-empty, and inside a segment
    consecutive samples are at most one tick apart.
  */
  lemma SegmentsHaveNoInnerGap(t: Trace)
    requires |t.adcs| == |t.times| && |t.times| > 0
    ensures var segs := SegmentsOf(t, SplitIndexesOf(t.times));
      && (forall j :: 0 <= j < |segs| ==> |segs[j].times| > 0)
      && (forall j, k :: 0 <= j < |segs| && 1 <= k < |segs[j].times| ==>
            segs[j].times[k] - segs[j].times[k - 1] <= TickNs)
  {
    var s := SplitIndexesOf(t.times);
    var segs := SegmentsOf(t, s);
    forall j | 0 <= j < |segs|
      ensures |segs[j].times| > 0
    {
      assert |segs[j].times| == s[j + 1] - s[j];
    }
    forall j, k | 0 <= j < |segs| && 1 <= k < |segs[j].times|
      ensures segs[j].times[k] - segs[j].times[k - 1] <= TickNs
    {
      assert segs[j].times == t.times[s[j]..s[j + 1]];
      NoGapInside(t, s, j, k);
    }
  }

  /** One step of `SegmentsHaveNoInnerGap`: sample `k` of segment `j` and the one before it. */
  lemma NoGapInside(t: Trace, s: seq<int>, j: int, k: int)
    requires |t.adcs| == |t.times| && |t.times| > 0 && s == SplitIndexesOf(t.times)
    requires 0 <= j < |s| - 1 && 1 <= k < s[j + 1] - s[j]
    ensures t.times[s[j] + k] - t.times[s[j] + k - 1] <= TickNs
  {
    BetweenConsecutive(s, j, s[j] + k);
  }

  /**
    Each segment after the first starts more than one tick after the previous
    one ends, so the segments are the maximal runs without such a gap.
  */
  lemma SegmentsStartAfterGap(t: Trace)
    requires |t.adcs| == |t.times| && |t.times| > 0
    ensures var segs := SegmentsOf(t, SplitIndexesOf(t.times));
      forall i, j :: 0 <= i < j < |segs| && j == i + 1 ==>
        |segs[j].times| > 0 && |segs[i].times| > 0 &&
        segs[j].times[0] - segs[i].times[|segs[i].times| - 1] > TickNs
  {
    var s := SplitIndexesOf(t.times);
    var segs := SegmentsOf(t, s);
    forall i, j | 0 <= i < j < |segs| && j == i + 1
      ensures |segs[j].times| > 0 && |segs[i].times| > 0
      ensures segs[j].times[0] - segs[i].times[|segs[i].times| - 1] > TickNs
    {
      var p := s[j];
      assert s[j] in s && 0 < p < |t.times|;
      assert segs[j].times[0] == t.times[p];
      assert segs[i].times[|segs[i].times| - 1] == t.times[p - 1];
    }
  }

  /** The stream is drawn as one graph exactly when it has no gap of more than one tick. */
  lemma SingleSegmentIffNoGap(t: Trace)
    requires |t.adcs| == |t.times| && |t.times| > 0
    ensures |SplitIndexesOf(t.times)| == 2 <==>
              forall i :: 0 < i < |t.times| ==> t.times[i] - t.times[i - 1] <= TickNs
    ensures |SplitIndexesOf(t.times)| == 2 ==> SegmentsOf(t, SplitIndexesOf(t.times)) == [t]
  {
    var g := GapStarts(t.times, |t.times|);
    GapStartsFacts(t.times, |t.times|);
    if |g| == 0 {
      assert SplitIndexesOf(t.times) == [0, |t.times|];
      OneSegmentIsWhole(t, SplitIndexesOf(t.times));
    } else {
      assert g[0] in g;
      assert t.times[g[0]] - t.times[g[0] - 1] > TickNs;
    }
  }

  /**
    `segs` cuts the stream `t` at its gaps: the pieces are non-empty, join up to
    `t`, never span a gap of more than one tick, each piece after the first
    starts more than one tick after the previous one ends, and there is a single
    piece exactly when `t` has no such gap.
  */
  ghost predicate IsGapSegmentation(t: Trace, segs: seq<Trace>) {
    && Flatten(TimesOf(segs)) == t.times && Flatten(AdcsOf(segs)) == t.adcs
    && (forall j :: 0 <= j < |segs| ==> |segs[j].times| > 0)
    && (forall j, k :: 0 <= j < |segs| && 1 <= k < |segs[j].times| ==>
          segs[j].times[k] - segs[j].times[k - 1] <= TickNs)
    && (forall j :: 1 <= j < |segs| ==>
          segs[j].times[0] - segs[j - 1].times[|segs[j - 1].times| - 1] > TickNs)
    && (|segs| == 1 <==> forall i :: 0 < i < |t.times| ==> t.times[i] - t.times[i - 1] <= TickNs)
  }

  /** The segments of a non-empty stream are its gap segmentation. */
  lemma SegmentsOfIsGapSegmentation(t: Trace)
    requires |t.adcs| == |t.times| && |t.times| > 0
    ensures IsGapSegmentation(t, SegmentsOf(t, SplitIndexesOf(t.times)))
  {
    SegmentsConcatenate(t);
    SegmentsHaveNoInnerGap(t);
    SegmentsStartAfterGap(t);
    SingleSegmentIffNoGap(t);
  }
}
