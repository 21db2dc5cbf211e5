/** Runs of the portal cache that end otherwise than one might expect. */
module PortalHistories {
  import opened Outcomes
  import opened PortalCache
  import opened PortalRuns
  import opened PortalCalls

  const ON := Features(true, true, true)
  const OFF := Features(false, false, false)

  /** An unforced request for one gated dataset, as a page makes it. */
  function PageRequest(d: Dataset): Request {
    Request("", [d, DeploymentFeatures], false, false, {d}, {d, DeploymentFeatures})
  }

  /** A forced request for the flags alone. */
  function FlagsRequest(): Request {
    Request("", [DeploymentFeatures], true, false, {}, {DeploymentFeatures})
  }

  /** A forced request for one gated dataset. */
  function ReloadRequest(d: Dataset): Request {
    PageRequest(d).(force := true)
  }

  function Answer(d: Dataset): LoadResult {
    Settled(Payload(""))
  }

  function RecordOf(call: Call): Record
    requires call.AwaitingLoads?
  {
    Committed(call.request.identity, ResultsOf(call, Answer), IsRefresh(call))
  }

  /** A call that begins where the log ends, and has read these flags. */
  function NextCall(log: seq<Record>, request: Request, features: LoadResult, loads: seq<Dataset>): (call: Call)
    ensures call.AwaitingLoads?
  {
    AwaitingLoads(request, After(log, request.identity), Some(features), loads)
  }

  lemma NextContinues(log: seq<Record>, call: Call)
    requires IsRun(log) && IsCall(call) && call.AwaitingLoads? && call.initial == After(log, call.request.identity)
    ensures IsRun(log + [RecordOf(call)])
  {
    assert log[..|log|] == log;
    CommitContinues(log, call, Answer, |log|);
  }

  /** What a commit does to the mark and the value of a dataset. */
  lemma CommitStep(log: seq<Record>, call: Call, d: Dataset)
    requires call.AwaitingLoads? && call.request.identity == ""
    ensures var record := RecordOf(call);
      && (d in After(log + [record], "").marks <==>
           (Loads(record, "", d) || (d in After(log, "").marks && !Unmarks(record, "", d))))
      && ValueOf(After(log + [record], ""), d)
           == if Loads(record, "", d) then record.results[d].value else ValueOf(After(log, ""), d)
  {
    ReplayStep(log, RecordOf(call));
    MarkStep(Replay(log), RecordOf(call), "", d);
    ValueStep(Replay(log), RecordOf(call), "", d);
  }

  /** A call that loads nothing else commits the flags it read. */
  lemma OnlyFlags(call: Call)
    requires call.AwaitingLoads? && call.features.Some? && call.loads == []
    ensures forall x :: x in ResultsOf(call, Answer) <==> x == DeploymentFeatures
    ensures ResultsOf(call, Answer)[DeploymentFeatures] == call.features.value
  {
  }

  /** Its commit marks the flags if it read them, and unmarks gated datasets then. */
  lemma FlagsStep(log: seq<Record>, call: Call, d: Dataset)
    requires call.AwaitingLoads? && call.request.identity == "" && call.features.Some? && call.loads == [] && d.Gated?
    ensures d in After(log + [RecordOf(call)], "").marks <==> d in After(log, "").marks && !IsRefresh(call)
    ensures DeploymentFeatures in After(log + [RecordOf(call)], "").marks <==> IsRefresh(call)
    ensures IsRefresh(call) ==>
      ValueOf(After(log + [RecordOf(call)], ""), DeploymentFeatures) == call.features.value.value
  {
    OnlyFlags(call);
    CommitStep(log, call, d);
    CommitStep(log, call, DeploymentFeatures);
  }

  lemma ForcedFlagsCall(log: seq<Record>, features: LoadResult)
    ensures IsCall(NextCall(log, FlagsRequest(), features, []))
  {
  }

  /** A call that reads enabling flags and loads one gated dataset commits the two. */
  lemma FlagsAndOne(call: Call, d: Dataset)
    requires call.AwaitingLoads? && call.features == Some(Settled(ON)) && call.loads == [d] && d.Gated?
    requires d in call.request.applicable
    ensures forall x :: x in ResultsOf(call, Answer) <==> x == DeploymentFeatures || x == d
    ensures ResultsOf(call, Answer)[DeploymentFeatures] == Settled(ON)
      && ResultsOf(call, Answer)[d] == Settled(Payload(""))
  {
  }

  // ---------- A dataset that loses its mark ----------

  /** A page that finds neither flags nor dataset marked loads both. */
  lemma PageLoads(log: seq<Record>, d: Dataset) returns (next: seq<Record>)
    requires IsRun(log) && d.Gated? && d !in After(log, "").marks && DeploymentFeatures !in After(log, "").marks
    ensures IsRun(next) && d in After(next, "").marks && DeploymentFeatures in After(next, "").marks
  {
    var call := NextCall(log, PageRequest(d), Settled(ON), [d]);
    next := log + [RecordOf(call)];
    FlagsAndOne(call, d);
    NextContinues(log, call);
    CommitStep(log, call, d);
    CommitStep(log, call, DeploymentFeatures);
  }

  /** A forced read of the flags that fails unmarks the flags and nothing else. */
  lemma FlagsFail(log: seq<Record>, d: Dataset) returns (next: seq<Record>)
    requires IsRun(log) && d.Gated? && d in After(log, "").marks
    ensures IsRun(next) && d in After(next, "").marks && DeploymentFeatures !in After(next, "").marks
  {
    var features := LoadResult(Empty, Some("e"));
    var call := NextCall(log, FlagsRequest(), features, []);
    next := log + [RecordOf(call)];
    ForcedFlagsCall(log, features);
    NextContinues(log, call);
    FlagsStep(log, call, d);
  }

  lemma PageIsCall(log: seq<Record>, d: Dataset)
    requires d.Gated? && d in After(log, "").marks && DeploymentFeatures !in After(log, "").marks
    ensures IsCall(NextCall(log, PageRequest(d), Settled(ON), []))
  {
  }

  /**
   A page that finds the dataset marked but not the flags reads the flags, unmarks the dataset and does not load it.
   */
  lemma PageUnmarks(log: seq<Record>, d: Dataset) returns (call: Call)
    requires IsRun(log) && d.Gated? && d in After(log, "").marks && DeploymentFeatures !in After(log, "").marks
    ensures IsCall(call) && call.AwaitingLoads? && call.initial == After(log, "") && IsRun(log + [RecordOf(call)])
    ensures d in call.request.requested && d in call.request.readable
    ensures forall x :: x in ResultsOf(call, Answer) ==> !Failed(ResultsOf(call, Answer)[x])
    ensures d !in After(log + [RecordOf(call)], "").marks
  {
    call := NextCall(log, PageRequest(d), Settled(ON), []);
    PageIsCall(log, d);
    NextContinues(log, call);
    OnlyFlags(call);
    FlagsStep(log, call, d);
  }

  /** Before anything happens the cache has no marks. */
  lemma StartIsEmpty(d: Dataset)
    ensures IsRun([]) && d !in After([], "").marks
  {
  }

  /** A page loads a gated dataset, then a forced read of the flags fails. */
  lemma LoadedThenFlagsFail(d: Dataset) returns (log: seq<Record>)
    requires d.Gated?
    ensures IsRun(log) && d in After(log, "").marks && DeploymentFeatures !in After(log, "").marks
  {
    StartIsEmpty(d);
    StartIsEmpty(DeploymentFeatures);
    log := PageLoads([], d);
    log := FlagsFail(log, d);
  }

  /**
   A run in which a page loads a gated dataset, a forced read of the flags fails, and the next page asks for the
   dataset again: everything that page asks of the server succeeds, and yet the dataset loses its mark.
   */
  lemma FreshFlagsUnmark(d: Dataset) returns (log: seq<Record>, call: Call)
    requires d.Gated?
    ensures IsRun(log) && IsCall(call) && call.AwaitingLoads? && call.initial == After(log, "")
    ensures d in call.request.requested && d in call.request.readable && IsRun(log + [RecordOf(call)])
    ensures forall x :: x in ResultsOf(call, Answer) ==> !Failed(ResultsOf(call, Answer)[x])
    ensures d in After(log, "").marks && d !in After(log + [RecordOf(call)], "").marks
  {
    log := LoadedThenFlagsFail(d);
    call := PageUnmarks(log, d);
  }

  // ---------- A dataset that is hidden ----------

  /** A forced read of the flags that succeeds. */
  lemma FlagsRead(log: seq<Record>, flags: Value, d: Dataset) returns (next: seq<Record>)
    requires IsRun(log) && d.Gated?
    ensures IsRun(next) && DeploymentFeatures in After(next, "").marks && d !in After(next, "").marks
    ensures ValueOf(After(next, ""), DeploymentFeatures) == flags
  {
    var call := NextCall(log, FlagsRequest(), Settled(flags), []);
    next := log + [RecordOf(call)];
    ForcedFlagsCall(log, Settled(flags));
    NextContinues(log, call);
    FlagsStep(log, call, d);
  }

  /** A forced call that reads flags which enable the dataset, and loads it. */
  lemma Reloads(log: seq<Record>, d: Dataset) returns (next: seq<Record>)
    requires IsRun(log) && d.Gated?
    ensures IsRun(next) && |next| == |log| + 1 && next[..|log|] == log
    ensures ValueOf(After(next, ""), DeploymentFeatures) == ON && ValueOf(After(next, ""), d) == Payload("")
  {
    var call := NextCall(log, ReloadRequest(d), Settled(ON), [d]);
    next := log + [RecordOf(call)];
    FlagsAndOne(call, d);
    NextContinues(log, call);
    CommitStep(log, call, d);
    CommitStep(log, call, DeploymentFeatures);
  }

  /** A page that begins while cached flags disable the dataset asks for it and lets the gate settle it. */
  lemma PageWaits(log: seq<Record>, d: Dataset) returns (call: Call)
    requires d.Gated? && DeploymentFeatures in After(log, "").marks && d !in After(log, "").marks
    ensures IsCall(call) && call.AwaitingLoads? && d in call.loads && call.features.None?
    ensures call.initial == After(log, "") && call.request.identity == ""
  {
    call := AwaitingLoads(PageRequest(d), After(log, ""), None, [d]);
  }

  /**
   A run in which flags that disable a gated dataset are cached, a page asks for it, and before the page commits a
   forced call reads flags that enable it and loads it. The page's commit hides it, whatever the server answers.
   */
  lemma StaleFlagsHideADataset(d: Dataset, answers: Dataset -> LoadResult)
    returns (log: seq<Record>, n: nat, call: Call)
    requires d.Gated?
    ensures IsRun(log) && n <= |log| && IsCall(call) && call.AwaitingLoads? && d in call.loads
      && call.request.identity == ""
    ensures call.initial == After(log[..n], "") && ValueOf(After(log, ""), d) == Payload("")
    ensures IsRun(log + [Committed("", ResultsOf(call, answers), IsRefresh(call))])
    ensures Hides(call, After(log, ""), answers, d)
  {
    StartIsEmpty(d);
    var before := FlagsRead([], OFF, d);
    call := PageWaits(before, d);
    n := |before|;
    log := Reloads(before, d);
    CommitContinues(log, call, answers, n);
    HiddenMeansStaleFlags(call, After(log, ""), answers, d);
  }
}
