/**
  Event alignment of the zero-suppression validation (Plotting/plotZSAnalysis.C):
  the sorted, unique intersection of the event IDs of the two datasets
  (`makeUniqueEventIds`), the choice of the events to plot (sentinel 0 = all),
  and the per-event selection of rows into the plotting buffers.
*/
module ZSEvents {
  import opened Base
  import opened Seqs
  import opened ZSIngest

  /** The first element of a strictly increasing sequence is below all the others. */
  lemma HeadIsLeast(s: seq<int>)
    requires StrictlyIncreasing(s) && |s| > 0
    ensures forall y :: y in s[1..] ==> s[0] < y
    ensures forall y :: y in s <==> y == s[0] || y in s[1..]
  {
    assert s == [s[0]] + s[1..];
  }

  /** `std::set::insert` on the sorted contents of a set. */
  function Insert(s: seq<int>, x: int): (r: seq<int>)
    requires StrictlyIncreasing(s)
    ensures StrictlyIncreasing(r)
    ensures forall y :: y in r <==> y in s || y == x
    decreases |s|
  {
    if |s| == 0 then [x]
    else if x < s[0] then
      HeadIsLeast(s);
      [x] + s
    else if x == s[0] then s
    else
      HeadIsLeast(s);
      var rest := Insert(s[1..], x);
      assert forall j :: 0 <= j < |rest| ==> rest[j] in rest;
      [s[0]] + rest
  }

  /** The contents of `std::set` built from a vector, read back in increasing order. */
  function SortUnique(xs: seq<int>): (r: seq<int>)
    ensures StrictlyIncreasing(r)
    ensures forall y :: y in r <==> y in xs
    decreases |xs|
  {
    if |xs| == 0 then []
    else
      var front := xs[..|xs| - 1];
      assert xs == front + [xs[|xs| - 1]];
      Insert(SortUnique(front), xs[|xs| - 1])
  }

  /** `std::set_intersection` of two strictly increasing ranges: an ordered merge. */
  function SetIntersection(a: seq<int>, b: seq<int>): (r: seq<int>)
    requires StrictlyIncreasing(a) && StrictlyIncreasing(b)
    ensures StrictlyIncreasing(r)
    ensures forall y :: y in r <==> y in a && y in b
    decreases |a| + |b|
  {
    if |a| == 0 || |b| == 0 then []
    else
      HeadIsLeast(a);
      HeadIsLeast(b);
      if a[0] < b[0] then SetIntersection(a[1..], b)
      else if b[0] < a[0] then SetIntersection(a, b[1..])
      else
        var rest := SetIntersection(a[1..], b[1..]);
        assert forall j :: 0 <= j < |rest| ==> rest[j] in rest;
        [a[0]] + rest
  }

  /**
    `makeUniqueEventIds`: the event IDs present in both datasets, strictly
    increasing, each once.
  */
  function MakeUniqueEventIds(inputIds: seq<int>, outputIds: seq<int>): (r: seq<int>)
    ensures StrictlyIncreasing(r)
    ensures forall y :: y in r <==> y in inputIds && y in outputIds
  {
    SetIntersection(SortUnique(inputIds), SortUnique(outputIds))
  }

  /** A non-empty sequence has its first element as a member. */
  lemma HasHead(s: seq<int>)
    ensures s != [] ==> s[0] in s
  {
  }

  /** A strictly increasing sequence is determined by its set of elements. */
  lemma {:induction false} IncreasingDeterminedByElements(r1: seq<int>, r2: seq<int>)
    requires StrictlyIncreasing(r1) && StrictlyIncreasing(r2)
    requires forall y :: y in r1 <==> y in r2
    ensures r1 == r2
    decreases |r1|
  {
    HasHead(r1);
    HasHead(r2);
    if r1 != [] && r2 != [] {
      HeadIsLeast(r1);
      HeadIsLeast(r2);
      assert r1[0] == r2[0];
      assert forall y :: y in r1[1..] <==> y in r2[1..];
      IncreasingDeterminedByElements(r1[1..], r2[1..]);
      assert r1 == [r1[0]] + r1[1..] && r2 == [r2[0]] + r2[1..];
    }
  }

  /** Duplicates and the order of the IDs in either input have no effect on the intersection. */
  lemma MakeUniqueIgnoresOrderAndDuplicates(a: seq<int>, b: seq<int>, a': seq<int>, b': seq<int>)
    requires forall y :: y in a <==> y in a'
    requires forall y :: y in b <==> y in b'
    ensures MakeUniqueEventIds(a, b) == MakeUniqueEventIds(a', b')
  {
    IncreasingDeterminedByElements(MakeUniqueEventIds(a, b), MakeUniqueEventIds(a', b'));
  }

  /** Input IDs 5, 1, 3, 2, 1 and output IDs 4, 3, 2 give exactly [2, 3]. */
  lemma MakeUniqueExample()
    ensures MakeUniqueEventIds([5, 1, 3, 2, 1], [4, 3, 2]) == [2, 3]
  {
    var r := MakeUniqueEventIds([5, 1, 3, 2, 1], [4, 3, 2]);
    assert forall y :: y in r <==> y in [2, 3];
    IncreasingDeterminedByElements(r, [2, 3]);
  }

  /** Why the requested event could not be plotted. */
  datatype SelectionError = EventNotFound(eventId: int)

  /**
    The events to plot: all of the intersection when the requested ID is the
    sentinel 0, otherwise only the requested one, which must be in the intersection.
  */
  function SelectEvents(overlap: seq<int>, eventID: int): (r: Result<seq<int>, SelectionError>)
  {
    if eventID == 0 then Ok(overlap)
    else if eventID !in overlap then Err(EventNotFound(eventID))
    else Ok([eventID])
  }

  /**
    The selection fails exactly for a non-zero ID outside the intersection; otherwise
    every selected event occurs in both datasets, and a non-zero request selects
    exactly itself.
  */
  lemma SelectEventsSound(inputIds: seq<int>, outputIds: seq<int>, eventID: int)
    ensures var r := SelectEvents(MakeUniqueEventIds(inputIds, outputIds), eventID);
      && (r.Err? <==> eventID != 0 && !(eventID in inputIds && eventID in outputIds))
      && (r.Ok? ==> forall id :: id in r.value ==> id in inputIds && id in outputIds)
      && (r.Ok? && eventID != 0 ==> r.value == [eventID])
      && (eventID == 0 ==> r == Ok(MakeUniqueEventIds(inputIds, outputIds)))
  {
  }

  /** The rows of one event in the analysis data: the plotting input buffers. */
  datatype EventInput = EventInput(adcs: seq<Int16>, times: seq<real>, gradients: seq<Int16>, averagedGradients: seq<real>)
  {
    predicate Aligned() {
      |times| == |adcs| && |gradients| == |adcs| && |averagedGradients| == |adcs|
    }
  }

  /** The rows of one event in the result data: the plotting output buffers. */
  datatype EventOutput = EventOutput(adcs: seq<Int16>, times: seq<real>)
  {
    predicate Aligned() {
      |times| == |adcs|
    }
  }

  /** Marks the positions whose key equals `key`. */
  function MatchMask(keys: seq<int>, key: int): (m: seq<bool>)
    ensures |m| == |keys|
    ensures forall i :: 0 <= i < |keys| ==> m[i] == (keys[i] == key)
  {
    seq(|keys|, i requires 0 <= i < |keys| => keys[i] == key)
  }

  /** The analysis rows of event `id`, in their original order. */
  function InputOf(a: AnalysisColumns, id: int): (e: EventInput)
    requires a.Aligned()
    ensures e.Aligned()
  {
    var m := MatchMask(a.eventIds, id);
    KeepAligned(a.times, a.adcs, m);
    KeepAligned(a.gradients, a.adcs, m);
    KeepAligned(a.averagedGradients, a.adcs, m);
    EventInput(Keep(a.adcs, m), Keep(a.times, m), Keep(a.gradients, m), Keep(a.averagedGradients, m))
  }

  /** The result rows of event `id`, in their original order. */
  function OutputOf(r: ResultColumns, id: int): (e: EventOutput)
    requires r.Aligned()
    ensures e.Aligned()
  {
    var m := MatchMask(r.eventIds, id);
    KeepAligned(r.times, r.adcs, m);
    EventOutput(Keep(r.adcs, m), Keep(r.times, m))
  }

  /** One more step of a selection loop over a prefix. */
  lemma KeepPrefixStep<T>(xs: seq<T>, mask: seq<bool>, i: int)
    requires |xs| == |mask| && 0 <= i < |xs|
    ensures Keep(xs[..i + 1], mask[..i + 1]) == Keep(xs[..i], mask[..i]) + (if mask[i] then [xs[i]] else [])
  {
    assert xs[..i + 1] == xs[..i] + [xs[i]] && mask[..i + 1] == mask[..i] + [mask[i]];
    KeepSnoc(xs[..i], mask[..i], xs[i], mask[i]);
  }

  /** The input buffers after the selection loop has looked at the first `i` rows. */
  function InputPrefix(a: AnalysisColumns, m: seq<bool>, i: int): EventInput
    requires a.Aligned() && |m| == |a.adcs| && 0 <= i <= |a.adcs|
  {
    EventInput(Keep(a.adcs[..i], m[..i]), Keep(a.times[..i], m[..i]),
               Keep(a.gradients[..i], m[..i]), Keep(a.averagedGradients[..i], m[..i]))
  }

  /** Looking at row `i` appends it to every input buffer when it is marked. */
  lemma InputPrefixStep(a: AnalysisColumns, m: seq<bool>, i: int)
    requires a.Aligned() && |m| == |a.adcs| && 0 <= i < |a.adcs|
    ensures var p := InputPrefix(a, m, i);
      InputPrefix(a, m, i + 1) ==
        if m[i] then EventInput(p.adcs + [a.adcs[i]], p.times + [a.times[i]],
                                p.gradients + [a.gradients[i]], p.averagedGradients + [a.averagedGradients[i]])
        else p
  {
    KeepPrefixStep(a.adcs, m, i);
    KeepPrefixStep(a.times, m, i);
    KeepPrefixStep(a.gradients, m, i);
    KeepPrefixStep(a.averagedGradients, m, i);
  }

  /** After the last row the buffers hold the whole selection. */
  lemma InputPrefixAll(a: AnalysisColumns, id: int)
    requires a.Aligned()
    ensures InputPrefix(a, MatchMask(a.eventIds, id), |a.adcs|) == InputOf(a, id)
  {
    var m := MatchMask(a.eventIds, id);
    assert a.adcs[..|a.adcs|] == a.adcs && m[..|a.adcs|] == m && a.times[..|a.adcs|] == a.times;
    assert a.gradients[..|a.adcs|] == a.gradients && a.averagedGradients[..|a.adcs|] == a.averagedGradients;
  }

  /**
    The first per-event selection loop: the input buffers start empty (they were
    cleared after the previous event) and receive, in order, every analysis row
    whose eventId is `id`.
  */
  method SelectInputRows(a: AnalysisColumns, id: int) returns (inp: EventInput)
    requires a.Aligned()
    ensures inp == InputOf(a, id)
  {
    var m := MatchMask(a.eventIds, id);
    inp := EventInput([], [], [], []);
    for i := 0 to |a.adcs|
      invariant inp == InputPrefix(a, m, i)
    {
      InputPrefixStep(a, m, i);
      if a.eventIds[i] == id {
        inp := EventInput(inp.adcs + [a.adcs[i]], inp.times + [a.times[i]],
                          inp.gradients + [a.gradients[i]], inp.averagedGradients + [a.averagedGradients[i]]);
      }
    }
    InputPrefixAll(a, id);
  }

  /** The output buffers after the selection loop has looked at the first `i` rows. */
  function OutputPrefix(r: ResultColumns, m: seq<bool>, i: int): EventOutput
    requires r.Aligned() && |m| == |r.adcs| && 0 <= i <= |r.adcs|
  {
    EventOutput(Keep(r.adcs[..i], m[..i]), Keep(r.times[..i], m[..i]))
  }

  /** The second per-event selection loop, over the result rows. */
  method SelectOutputRows(r: ResultColumns, id: int) returns (out: EventOutput)
    requires r.Aligned()
    ensures out == OutputOf(r, id)
  {
    var m := MatchMask(r.eventIds, id);
    out := EventOutput([], []);
    for i := 0 to |r.adcs|
      invariant out == OutputPrefix(r, m, i)
    {
      KeepPrefixStep(r.adcs, m, i);
      KeepPrefixStep(r.times, m, i);
      if r.eventIds[i] == id {
        out := EventOutput(out.adcs + [r.adcs[i]], out.times + [r.times[i]]);
      }
    }
    assert r.adcs[..|r.adcs|] == r.adcs && m[..|r.adcs|] == m && r.times[..|r.adcs|] == r.times;
  }

  /**
    The analysis selection of event `id` holds exactly the rows whose eventId is
    `id`, in their original order: its k-th row is row `idx[k]` of the data, where
    `idx` lists, increasingly, every position carrying `id`.
  */
  lemma InputOfIsEventRows(a: AnalysisColumns, id: int)
    requires a.Aligned()
    ensures var e := InputOf(a, id); var idx := TrueIndexes(MatchMask(a.eventIds, id));
      && e.Aligned() && |e.adcs| == |idx|
      && StrictlyIncreasing(idx)
      && (forall i :: i in idx <==> 0 <= i < |a.adcs| && a.eventIds[i] == id)
      && (forall k :: 0 <= k < |idx| ==>
            && 0 <= idx[k] < |a.adcs|
            && e.adcs[k] == a.adcs[idx[k]] && e.times[k] == a.times[idx[k]]
            && e.gradients[k] == a.gradients[idx[k]] && e.averagedGradients[k] == a.averagedGradients[idx[k]])
  {
    var m := MatchMask(a.eventIds, id);
    KeepIsStableSelection(a.adcs, m);
    KeepIsStableSelection(a.times, m);
    KeepIsStableSelection(a.gradients, m);
    KeepIsStableSelection(a.averagedGradients, m);
  }

  /** The same for the result selection of event `id`. */
  lemma OutputOfIsEventRows(r: ResultColumns, id: int)
    requires r.Aligned()
    ensures var e := OutputOf(r, id); var idx := TrueIndexes(MatchMask(r.eventIds, id));
      && e.Aligned() && |e.adcs| == |idx|
      && StrictlyIncreasing(idx)
      && (forall i :: i in idx <==> 0 <= i < |r.adcs| && r.eventIds[i] == id)
      && (forall k :: 0 <= k < |idx| ==>
            0 <= idx[k] < |r.adcs| && e.adcs[k] == r.adcs[idx[k]] && e.times[k] == r.times[idx[k]])
  {
    var m := MatchMask(r.eventIds, id);
    KeepIsStableSelection(r.adcs, m);
    KeepIsStableSelection(r.times, m);
  }

  /**
    A selection is empty exactly when the event does not occur in that dataset; so
    for the events `SelectEvents` picks from the intersection, none of the
    "Empty ... vector" checks can fire.
  */
  lemma SelectionEmptyIffAbsent(a: AnalysisColumns, r: ResultColumns, id: int)
    requires a.Aligned() && r.Aligned()
    ensures |InputOf(a, id).adcs| == 0 <==> id !in a.eventIds
    ensures |OutputOf(r, id).adcs| == 0 <==> id !in r.eventIds
  {
    var ma := MatchMask(a.eventIds, id);
    var mr := MatchMask(r.eventIds, id);
    KeepEmpty(a.adcs, ma);
    KeepEmpty(r.adcs, mr);
    if id in a.eventIds {
      var i :| 0 <= i < |a.eventIds| && a.eventIds[i] == id;
      assert ma[i];
    }
    if id in r.eventIds {
      var i :| 0 <= i < |r.eventIds| && r.eventIds[i] == id;
      assert mr[i];
    }
  }
}
