/**
  Reading the two zero-suppression datasets: the branch (column) check and the
  per-entry transform of `collectAnalysisData` and `collectResultData`
  (Plotting/plotZSAnalysis.C). Opening the file and reading the tree are outside
  the model: the branch names and the entries arrive as sequences.
*/
module ZSIngest {
  import opened Base

  /** A signed 16-bit integer (`int16_t`). */
  type Int16 = x: int | -0x8000 <= x < 0x8000
  /** An unsigned 32-bit integer (`uint32_t`, `unsigned int`). */
  type UInt32 = x: int | 0 <= x < 0x1_0000_0000

  /** Length of one ADC clock tick in nanoseconds. */
  const TickNs: real := 3.125
  /** Sentinel stored for a gradient that signals an overlap: -2^15 + 1, one above the int16 minimum. */
  const ADCMin: Int16 := -0x8000 + 1
  /** Gradients above this value are replaced by the sentinel. */
  const OverlapThreshold: int := 100

  /** Branches the analysis tree must provide, in the order they are checked. */
  const AnalysisBranches: seq<string> := ["ADC", "time", "gradient", "averagedGradient", "eventId"]
  /** Branches the result tree must provide, in the order they are checked. */
  const ResultBranches: seq<string> := ["ADC", "time", "eventId"]

  /** One entry of the analysis tree, as read from its branches. */
  datatype AnalysisEntry = AnalysisEntry(adc: Int16, time: UInt32, gradient: Int16, averagedGradient: real, eventId: UInt32)
  /** One entry of the result (zero-suppressed) tree. */
  datatype ResultEntry = ResultEntry(adc: Int16, time: UInt32, eventId: UInt32)

  /** The parallel vectors filled by `collectAnalysisData`; times are in nanoseconds. */
  datatype AnalysisColumns = AnalysisColumns(
    adcs: seq<Int16>, times: seq<real>, gradients: seq<Int16>, averagedGradients: seq<real>, eventIds: seq<UInt32>)
  {
    /** All vectors have one element per entry. */
    predicate Aligned() {
      |times| == |adcs| && |gradients| == |adcs| && |averagedGradients| == |adcs| && |eventIds| == |adcs|
    }
  }

  /** The parallel vectors filled by `collectResultData`. */
  datatype ResultColumns = ResultColumns(adcs: seq<Int16>, times: seq<real>, eventIds: seq<UInt32>)
  {
    predicate Aligned() {
      |times| == |adcs| && |eventIds| == |adcs|
    }
  }

  /** The fatal conditions of the two collectors that the model keeps. */
  datatype IngestError = MissingBranch(name: string) | NoData

  /** The position of the first required name that is not present, or None when all are. */
  function FirstMissing(required: seq<string>, present: seq<string>): (r: Option<nat>)
    ensures r.None? <==> forall k :: 0 <= k < |required| ==> required[k] in present
    ensures r.Some? ==> r.value < |required| && required[r.value] !in present
    ensures r.Some? ==> forall k :: 0 <= k < r.value ==> required[k] in present
    decreases |required|
  {
    if |required| == 0 then None
    else if required[0] !in present then Some(0)
    else match FirstMissing(required[1..], present)
      case None => None
      case Some(k) => Some(k + 1)
  }

  /** The gradient kept for an entry: the sentinel when it exceeds the overlap threshold. */
  function ClampGradient(g: Int16): Int16 {
    if g > OverlapThreshold then ADCMin else g
  }

  /** The averaged gradient kept for an entry, compared against the same threshold. */
  function ClampAveragedGradient(g: real): real {
    if g > OverlapThreshold as real then ADCMin as real else g
  }

  /** A clamped value never exceeds the threshold, and changes exactly when it did exceed it. */
  lemma ClampKeepsBelowThreshold(g: Int16, a: real)
    ensures ClampGradient(g) <= OverlapThreshold && ClampAveragedGradient(a) <= OverlapThreshold as real
    ensures ClampGradient(g) != g <==> g > OverlapThreshold
    ensures ClampAveragedGradient(a) != a <==> a > OverlapThreshold as real
    ensures ClampGradient(ClampGradient(g)) == ClampGradient(g)
  {
  }

  /** The columns `collectAnalysisData` fills from the entries of a tree. */
  function AnalyseEntries(entries: seq<AnalysisEntry>): (c: AnalysisColumns)
    ensures c.Aligned() && |c.adcs| == |entries|
  {
    AnalysisColumns(
      seq(|entries|, i requires 0 <= i < |entries| => entries[i].adc),
      seq(|entries|, i requires 0 <= i < |entries| => entries[i].time as real * TickNs),
      seq(|entries|, i requires 0 <= i < |entries| => ClampGradient(entries[i].gradient)),
      seq(|entries|, i requires 0 <= i < |entries| => ClampAveragedGradient(entries[i].averagedGradient)),
      seq(|entries|, i requires 0 <= i < |entries| => entries[i].eventId))
  }

  /** The columns `collectResultData` fills from the entries of a tree. */
  function ResultOfEntries(entries: seq<ResultEntry>): (c: ResultColumns)
    ensures c.Aligned() && |c.adcs| == |entries|
  {
    ResultColumns(
      seq(|entries|, i requires 0 <= i < |entries| => entries[i].adc),
      seq(|entries|, i requires 0 <= i < |entries| => entries[i].time as real * TickNs),
      seq(|entries|, i requires 0 <= i < |entries| => entries[i].eventId))
  }

  /** What `collectAnalysisData` delivers: the first missing branch, no data, or the columns. */
  function AnalysisDataOf(branchNames: seq<string>, entries: seq<AnalysisEntry>): Result<AnalysisColumns, IngestError> {
    match FirstMissing(AnalysisBranches, branchNames)
    case Some(k) => Err(MissingBranch(AnalysisBranches[k]))
    case None => if |entries| == 0 then Err(NoData) else Ok(AnalyseEntries(entries))
  }

  /** What `collectResultData` delivers. */
  function ResultDataOf(branchNames: seq<string>, entries: seq<ResultEntry>): Result<ResultColumns, IngestError> {
    match FirstMissing(ResultBranches, branchNames)
    case Some(k) => Err(MissingBranch(ResultBranches[k]))
    case None => if |entries| == 0 then Err(NoData) else Ok(ResultOfEntries(entries))
  }

  /**
    `collectAnalysisData`: every required branch must exist (checked in order, the
    first missing one is reported), then each entry contributes one element to
    every vector, and an empty tree is fatal.
  */
  method CollectAnalysisData(branchNames: seq<string>, entries: seq<AnalysisEntry>)
    returns (r: Result<AnalysisColumns, IngestError>)
    ensures FirstMissing(AnalysisBranches, branchNames).Some? ==>
              r == Err(MissingBranch(AnalysisBranches[FirstMissing(AnalysisBranches, branchNames).value]))
    ensures FirstMissing(AnalysisBranches, branchNames).None? && |entries| == 0 ==> r == Err(NoData)
    ensures FirstMissing(AnalysisBranches, branchNames).None? && |entries| > 0 ==> r.Ok?
    ensures r.Ok? ==> var c := r.value;
              && c.Aligned() && |c.adcs| == |entries| > 0
              && (forall i :: 0 <= i < |entries| ==>
                    && c.adcs[i] == entries[i].adc
                    && c.times[i] == entries[i].time as real * TickNs
                    && c.gradients[i] == (if entries[i].gradient > OverlapThreshold then ADCMin else entries[i].gradient)
                    && c.averagedGradients[i] == (if entries[i].averagedGradient > OverlapThreshold as real
                                                  then ADCMin as real else entries[i].averagedGradient)
                    && c.eventIds[i] == entries[i].eventId)
    ensures r.Ok? ==> r.value == AnalyseEntries(entries)
    ensures r == AnalysisDataOf(branchNames, entries)
  {
    var missing := FirstMissing(AnalysisBranches, branchNames);
    if missing.Some? {
      return Err(MissingBranch(AnalysisBranches[missing.value]));
    }
    var adcs: seq<Int16>, times: seq<real>, gradients: seq<Int16>, averaged: seq<real>, ids: seq<UInt32> := [], [], [], [], [];
    for i := 0 to |entries|
      invariant |adcs| == i && |times| == i && |gradients| == i && |averaged| == i && |ids| == i
      invariant forall j :: 0 <= j < i ==>
                  && adcs[j] == entries[j].adc
                  && times[j] == entries[j].time as real * TickNs
                  && gradients[j] == ClampGradient(entries[j].gradient)
                  && averaged[j] == ClampAveragedGradient(entries[j].averagedGradient)
                  && ids[j] == entries[j].eventId
    {
      var e := entries[i];
      adcs := adcs + [e.adc];
      times := times + [e.time as real * TickNs];
      gradients := gradients + [if e.gradient > OverlapThreshold then ADCMin else e.gradient];
      averaged := averaged + [if e.averagedGradient > OverlapThreshold as real then ADCMin as real else e.averagedGradient];
      ids := ids + [e.eventId];
    }
    if |adcs| == 0 {
      return Err(NoData);
    }
    r := Ok(AnalysisColumns(adcs, times, gradients, averaged, ids));
  }

  /**
    `collectResultData`: the same for the result tree, which needs only the ADC,
    time and eventId branches.
  */
  method CollectResultData(branchNames: seq<string>, entries: seq<ResultEntry>)
    returns (r: Result<ResultColumns, IngestError>)
    ensures FirstMissing(ResultBranches, branchNames).Some? ==>
              r == Err(MissingBranch(ResultBranches[FirstMissing(ResultBranches, branchNames).value]))
    ensures FirstMissing(ResultBranches, branchNames).None? && |entries| == 0 ==> r == Err(NoData)
    ensures FirstMissing(ResultBranches, branchNames).None? && |entries| > 0 ==> r.Ok?
    ensures r.Ok? ==> var c := r.value;
              && c.Aligned() && |c.adcs| == |entries| > 0
              && (forall i :: 0 <= i < |entries| ==>
                    && c.adcs[i] == entries[i].adc
                    && c.times[i] == entries[i].time as real * TickNs
                    && c.eventIds[i] == entries[i].eventId)
    ensures r.Ok? ==> r.value == ResultOfEntries(entries)
    ensures r == ResultDataOf(branchNames, entries)
  {
    var missing := FirstMissing(ResultBranches, branchNames);
    if missing.Some? {
      return Err(MissingBranch(ResultBranches[missing.value]));
    }
    var adcs: seq<Int16>, times: seq<real>, ids: seq<UInt32> := [], [], [];
    for i := 0 to |entries|
      invariant |adcs| == i && |times| == i && |ids| == i
      invariant forall j :: 0 <= j < i ==>
                  adcs[j] == entries[j].adc && times[j] == entries[j].time as real * TickNs && ids[j] == entries[j].eventId
    {
      var e := entries[i];
      adcs := adcs + [e.adc];
      times := times + [e.time as real * TickNs];
      ids := ids + [e.eventId];
    }
    if |ids| == 0 {
      return Err(NoData);
    }
    r := Ok(ResultColumns(adcs, times, ids));
  }

  /** The analysis tree is accepted exactly when it has all five required branches. */
  lemma AnalysisBranchCheck(branchNames: seq<string>)
    ensures FirstMissing(AnalysisBranches, branchNames).None? <==>
              "ADC" in branchNames && "time" in branchNames && "gradient" in branchNames
              && "averagedGradient" in branchNames && "eventId" in branchNames
  {
    assert AnalysisBranches[0] == "ADC" && AnalysisBranches[1] == "time" && AnalysisBranches[2] == "gradient";
    assert AnalysisBranches[3] == "averagedGradient" && AnalysisBranches[4] == "eventId";
  }

  /** The result tree is accepted exactly when it has the ADC, time and eventId branches. */
  lemma ResultBranchCheck(branchNames: seq<string>)
    ensures FirstMissing(ResultBranches, branchNames).None? <==>
              "ADC" in branchNames && "time" in branchNames && "eventId" in branchNames
  {
    assert ResultBranches[0] == "ADC" && ResultBranches[1] == "time" && ResultBranches[2] == "eventId";
  }
}
