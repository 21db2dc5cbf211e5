/** The calls that fill the portal's cache: each waits for the feature flags, then for its datasets, then commits. */
module PortalCalls {
  import opened Outcomes
  import opened PortalCache
  import opened PortalRuns

  // ---------- What a call asks for ----------

  function Include(datasets: seq<Dataset>, d: Dataset): seq<Dataset> {
    if d in datasets then datasets else datasets + [d]
  }

  function IncludeAll(datasets: seq<Dataset>, more: seq<Dataset>): seq<Dataset> {
    if more == [] then datasets else Include(IncludeAll(datasets, more[..|more| - 1]), more[|more| - 1])
  }

  lemma {:induction false} IncludeAllMeans(datasets: seq<Dataset>, more: seq<Dataset>)
    requires AllDistinct(datasets)
    ensures AllDistinct(IncludeAll(datasets, more))
    ensures forall d :: d in IncludeAll(datasets, more) <==> d in datasets || d in more
  {
    if more != [] {
      IncludeAllMeans(datasets, more[..|more| - 1]);
      assert more == more[..|more| - 1] + [more[|more| - 1]];
    }
  }

  /** `listed` are the datasets the caller names, `route` those of the page shown. */
  datatype Options = Options(listed: Option<seq<Dataset>>, route: Option<seq<Dataset>>, includeCore: Option<bool>)

  function WithCore(options: Options): bool {
    if options.includeCore.Some? then options.includeCore.value else options.listed.None?
  }

  function Named(options: Options, all: seq<Dataset>): seq<Dataset> {
    if options.listed.Some? then options.listed.value
    else if options.route.Some? then options.route.value
    else all
  }

  predicate AnyGated(datasets: seq<Dataset>) {
    exists i :: 0 <= i < |datasets| && datasets[i].Gated?
  }

  /** The datasets of a call; a gated one brings the feature flags along. */
  function Requested(options: Options, all: seq<Dataset>): seq<Dataset> {
    var named := IncludeAll([], Named(options, all));
    var requested := if WithCore(options) then IncludeAll(named, CORE) else named;
    if AnyGated(requested) then Include(requested, DeploymentFeatures) else requested
  }

  /**
   No dataset twice; exactly the named ones, the core ones where wanted, and the flags where a gated one needs them.
   */
  lemma RequestedMeans(options: Options, all: seq<Dataset>)
    ensures var requested := Requested(options, all);
      && AllDistinct(requested)
      && (AnyGated(requested) ==> DeploymentFeatures in requested)
      && forall d :: d in requested <==>
           || d in Named(options, all)
           || (WithCore(options) && d in CORE)
           || (d == DeploymentFeatures && AnyGated(Named(options, all)))
  {
    var names := Named(options, all);
    IncludeAllMeans([], names);
    var named := IncludeAll([], names);
    IncludeAllMeans(named, CORE);
    var requested := if WithCore(options) then IncludeAll(named, CORE) else named;
    SameGates(requested, names);
    SameGates(Requested(options, all), requested);
  }

  lemma SameGates(datasets: seq<Dataset>, names: seq<Dataset>)
    requires forall d: Dataset :: d.Gated? ==> (d in datasets <==> d in names)
    ensures AnyGated(datasets) <==> AnyGated(names)
  {
    if i :| 0 <= i < |datasets| && datasets[i].Gated? {
      assert datasets[i] in names;
    }
    if i :| 0 <= i < |names| && names[i].Gated? {
      assert names[i] in datasets;
    }
  }

  // ---------- One call ----------

  datatype Request = Request(
    identity: string, requested: seq<Dataset>, force: bool, refreshesNotifications: bool,
    readable: set<Dataset>, applicable: set<Dataset>)

  /** A call in flight: what the cache held when it began, the flags it read, the datasets it waits for. */
  datatype Call =
    | AwaitingFeatures(request: Request, initial: Entry)
    | AwaitingLoads(request: Request, initial: Entry, features: Option<LoadResult>, loads: seq<Dataset>)

  predicate ReadsFeatures(request: Request, initial: Entry) {
    DeploymentFeatures in request.requested && (request.force || DeploymentFeatures !in initial.marks)
  }

  /** The dataset is asked of the server, or settled by its gate. */
  predicate IsDue(request: Request, initial: Entry, d: Dataset) {
    && d != DeploymentFeatures
    && d in request.readable
    && (request.force || (request.refreshesNotifications && d == Notifications) || d !in initial.marks)
  }

  function Flags(initial: Entry, features: Option<LoadResult>): Value {
    if features.Some? && !Failed(features.value) then features.value.value else ValueOf(initial, DeploymentFeatures)
  }

  predicate IsEnabled(flags: Value, gate: Gate) {
    && flags.Features?
    && match gate
       case Connectors => flags.connectors
       case Waf => flags.waf
       case Discovery => flags.discovery
  }

  /** The flags could not be read and no earlier read is cached. */
  predicate GateIsUnknown(initial: Entry, features: Option<LoadResult>) {
    features.Some? && Failed(features.value) && DeploymentFeatures !in initial.marks
  }

  /** The result of one dataset, given what the server answers if it is asked. */
  function ResultOf(call: Call, d: Dataset, answer: LoadResult): LoadResult
    requires call.AwaitingLoads?
  {
    if d.Gated? && GateIsUnknown(call.initial, call.features) then LoadResult(Empty, call.features.value.error)
    else if d.Gated? && !IsEnabled(Flags(call.initial, call.features), d.gate) then Settled(Empty)
    else if d !in call.request.applicable then Settled(Empty)
    else answer
  }

  /** The results of a call in the order they are merged: the flags first. */
  function OrderOf(call: Call): seq<Dataset>
    requires call.AwaitingLoads?
  {
    (if call.features.Some? then [DeploymentFeatures] else []) + call.loads
  }

  function ResultsOf(call: Call, answers: Dataset -> LoadResult): map<Dataset, LoadResult>
    requires call.AwaitingLoads?
  {
    map d | d in OrderOf(call) ::
      if d == DeploymentFeatures && call.features.Some? then call.features.value else ResultOf(call, d, answers(d))
  }

  predicate IsRefresh(call: Call)
    requires call.AwaitingLoads?
  {
    call.features.Some? && !Failed(call.features.value)
  }

  ghost predicate IsCall(call: Call) {
    && AllDistinct(call.request.requested)
    && (AnyGated(call.request.requested) ==> DeploymentFeatures in call.request.requested)
    && (call.AwaitingFeatures? ==> ReadsFeatures(call.request, call.initial))
    && (call.AwaitingLoads? ==>
         && (call.features.Some? <==> ReadsFeatures(call.request, call.initial))
         && AllDistinct(call.loads)
         && forall d :: d in call.loads <==> d in call.request.requested && IsDue(call.request, call.initial, d))
  }

  /** A gated dataset reaches the server only behind a flag that was read, now or before. */
  lemma GatedNeedsItsFlag(call: Call, d: Dataset)
    requires IsCall(call) && call.AwaitingLoads? && d in call.loads && d.Gated?
    requires forall answer :: ResultOf(call, d, answer) == answer
    ensures IsEnabled(Flags(call.initial, call.features), d.gate)
    ensures DeploymentFeatures in call.initial.marks || (call.features.Some? && !Failed(call.features.value))
  {
    var i :| 0 <= i < |call.request.requested| && call.request.requested[i] == d;
    assert AnyGated(call.request.requested);
    assert ResultOf(call, d, Settled(Payload("x"))) == Settled(Payload("x"));
  }

  /** Without known flags every gated dataset of the call is a visible failure, never an empty success. */
  lemma UnknownGateIsAFailure(call: Call, answers: Dataset -> LoadResult, d: Dataset)
    requires IsCall(call) && call.AwaitingLoads? && d in call.loads && d.Gated?
    requires DeploymentFeatures !in call.initial.marks && !IsRefresh(call)
    ensures d in ResultsOf(call, answers) && Failed(ResultsOf(call, answers)[d])
  {
    var i :| 0 <= i < |call.request.requested| && call.request.requested[i] == d;
    assert AnyGated(call.request.requested);
  }

  /** The flags a call goes by: those it has just read or, if it read none or that failed, those it found. */
  function FlagsOf(call: Call): Value
    requires call.AwaitingLoads?
  {
    if call.features.Some? && (call.features.value.error.None? || call.features.value.error.value == "") then
      call.features.value.value
    else if DeploymentFeatures in call.initial.values then call.initial.values[DeploymentFeatures]
    else Empty
  }

  /** Among these flags, the one of the dataset's own gate is set. */
  predicate OwnFlagIsSet(flags: Value, gate: Gate) {
    && flags.Features?
    && (gate.Connectors? ==> flags.connectors) && (gate.Waf? ==> flags.waf) && (gate.Discovery? ==> flags.discovery)
  }

  /** The flags cannot be told: reading them failed and none are marked in the cache. */
  predicate FlagsAreUnknown(call: Call)
    requires call.AwaitingLoads?
  {
    && call.features.Some? && call.features.value.error.Some? && call.features.value.error.value != ""
    && DeploymentFeatures !in call.initial.marks
  }

  /**
   A gated dataset that a call loads follows the server's answer if and only if the dataset applies to the session,
   the flags are known, and the flag of its own gate is set; otherwise it is empty, with the error of the flags
   exactly when they are unknown.
   */
  lemma GateDecides(call: Call, d: Dataset)
    requires IsCall(call) && call.AwaitingLoads? && d in call.loads && d.Gated?
    ensures forall answers :: d in ResultsOf(call, answers)
    ensures (forall answers :: ResultsOf(call, answers)[d] == answers(d))
       <==> d in call.request.applicable && !FlagsAreUnknown(call) && OwnFlagIsSet(FlagsOf(call), d.gate)
    ensures forall answers ::
      !(d in call.request.applicable && !FlagsAreUnknown(call) && OwnFlagIsSet(FlagsOf(call), d.gate)) ==>
        ResultsOf(call, answers)[d]
          == LoadResult(Empty, if FlagsAreUnknown(call) then call.features.value.error else None)
  {
    assert d in OrderOf(call);
    var one: Dataset -> LoadResult := _ => Settled(Payload("1"));
    assert ResultsOf(call, one)[d] == one(d) <==>
      d in call.request.applicable && !FlagsAreUnknown(call) && OwnFlagIsSet(FlagsOf(call), d.gate);
  }

  // ---------- Is everything loaded that was asked for? ----------

  /**
   After a call all of whose results succeed, if nobody took marks away since it began, a dataset it asked for is
   marked loaded, except exactly a gated one that was marked before when the call, not forced, reads the flags anew:
   that one loses its mark and is not loaded again.
   */
  lemma RequestedIsLoaded(call: Call, current: Entry, answers: Dataset -> LoadResult, d: Dataset)
    requires IsCall(call) && call.AwaitingLoads? && call.initial.marks <= current.marks
    requires forall x :: x in ResultsOf(call, answers) ==> !Failed(ResultsOf(call, answers)[x])
    requires d in call.request.requested && (d == DeploymentFeatures || d in call.request.readable)
    ensures d in Merged(current, ResultsOf(call, answers), IsRefresh(call)).marks
       <==> !(IsRefresh(call) && d.Gated? && !call.request.force && d in call.initial.marks)
  {
    MergedMarkAt(current, ResultsOf(call, answers), IsRefresh(call), d);
  }

  // ---------- Are gated datasets loaded under the flags that are cached? ----------

  /** A record as calls commit it: it refreshes exactly when it brings the flags. */
  predicate BringsFlags(record: Record) {
    record.Committed? ==> record.refreshed == Loads(record, record.identity, DeploymentFeatures)
  }

  lemma CommitsBringFlags(call: Call, answers: Dataset -> LoadResult)
    requires IsCall(call) && call.AwaitingLoads?
    ensures BringsFlags(Committed(call.request.identity, ResultsOf(call, answers), IsRefresh(call)))
  {
  }

  /** While a gated dataset stays marked, the cached flags are those right after the commit that loaded it. */
  lemma FlagsStand(log: seq<Record>, identity: string, d: Dataset, k: nat)
    requires d.Gated? && Keeps(log, identity, d, k)
    requires forall j :: k < j < |log| ==> BringsFlags(log[j]) && !Loads(log[j], identity, d)
    ensures ValueOf(After(log, identity), DeploymentFeatures)
      == ValueOf(After(log[..k + 1], identity), DeploymentFeatures)
    decreases |log|
  {
    var last := |log| - 1;
    if k < last {
      assert log == log[..last] + [log[last]] && log[..last][..k + 1] == log[..k + 1];
      assert !Unmarks(log[last], identity, d);
      FlagsStand(log[..last], identity, d, k);
      ReplayStep(log[..last], log[last]);
      ValueStep(Replay(log[..last]), log[last], identity, DeploymentFeatures);
    } else {
      assert log[..k + 1] == log;
    }
  }

  /**
   A commit leaves in the cache the flag values its gated results were decided under exactly when the call read them
   itself or the cache has the values it found when it began, replaced in between or not.
   */
  lemma CommitAgreesWithFlags(call: Call, current: Entry, answers: Dataset -> LoadResult)
    requires IsCall(call) && call.AwaitingLoads?
    ensures ValueOf(Merged(current, ResultsOf(call, answers), IsRefresh(call)), DeploymentFeatures)
              == Flags(call.initial, call.features)
       <==> (IsRefresh(call) || ValueOf(current, DeploymentFeatures) == ValueOf(call.initial, DeploymentFeatures))
  {
    MergedValueAt(current, ResultsOf(call, answers), IsRefresh(call), DeploymentFeatures);
  }

  /** The gate settles the dataset as empty without asking the server. */
  predicate GateSettles(call: Call, d: Dataset)
    requires call.AwaitingLoads? && d.Gated?
  {
    !GateIsUnknown(call.initial, call.features) && !IsEnabled(Flags(call.initial, call.features), d.gate)
  }

  /**
   After the commit a dataset is marked loaded and empty, never asked of the server, though the cached flags enable
   it.
   */
  predicate Hides(call: Call, current: Entry, answers: Dataset -> LoadResult, d: Dataset)
    requires call.AwaitingLoads? && d.Gated?
  {
    var data := Merged(current, ResultsOf(call, answers), IsRefresh(call));
    && GateSettles(call, d) && IsEnabled(ValueOf(data, DeploymentFeatures), d.gate)
    && d in data.marks && ValueOf(data, d) == Empty
  }

  /**
   That happens exactly when the call, not having read flags of its own, found ones that disable the dataset, and
   by its commit another call has put ones into the cache that enable it.
   */
  lemma HiddenMeansStaleFlags(call: Call, current: Entry, answers: Dataset -> LoadResult, d: Dataset)
    requires IsCall(call) && call.AwaitingLoads? && d in call.loads && d.Gated?
    ensures Hides(call, current, answers, d)
       <==> (&& !IsRefresh(call) && !GateIsUnknown(call.initial, call.features)
             && !IsEnabled(ValueOf(call.initial, DeploymentFeatures), d.gate)
             && IsEnabled(ValueOf(current, DeploymentFeatures), d.gate))
  {
    var results := ResultsOf(call, answers);
    assert d in results && d in OrderOf(call);
    MergedValueAt(current, results, IsRefresh(call), DeploymentFeatures);
    MergedValueAt(current, results, IsRefresh(call), d);
    MergedMarkAt(current, results, IsRefresh(call), d);
  }

  // ---------- Runs ----------

  /** Record `k` is the commit of a call that began when the first `n` records were there. */
  ghost predicate CommittedBy(log: seq<Record>, k: nat, call: Call, answers: Dataset -> LoadResult, n: nat) {
    && n <= k < |log| && IsCall(call) && call.AwaitingLoads?
    && call.initial == After(log[..n], call.request.identity)
    && log[k] == Committed(call.request.identity, ResultsOf(call, answers), IsRefresh(call))
  }

  ghost predicate IsRecorded(log: seq<Record>, k: nat) {
    k < |log| && (log[k].Cleared? || exists call, answers, n: nat :: CommittedBy(log, k, call, answers, n))
  }

  ghost predicate BeganAt(log: seq<Record>, call: Call, n: nat) {
    n <= |log| && call.initial == After(log[..n], call.request.identity)
  }

  lemma BeganStays(log: seq<Record>, record: Record, call: Call, n: nat)
    requires BeganAt(log, call, n)
    ensures BeganAt(log + [record], call, n)
  {
    assert (log + [record])[..n] == log[..n];
  }

  /** Every record is a reset or the commit of a call that began at some earlier point of the same log. */
  ghost predicate IsRun(log: seq<Record>) {
    forall k: nat :: k < |log| ==> IsRecorded(log, k)
  }

  lemma RecordedStays(log: seq<Record>, record: Record, k: nat)
    requires IsRecorded(log, k)
    ensures IsRecorded(log + [record], k)
  {
    var longer := log + [record];
    if !log[k].Cleared? {
      var call, answers, n: nat :| CommittedBy(log, k, call, answers, n);
      assert longer[..n] == log[..n];
      assert CommittedBy(longer, k, call, answers, n);
    }
  }

  lemma RunGrows(log: seq<Record>, record: Record)
    requires IsRun(log) && IsRecorded(log + [record], |log|)
    ensures IsRun(log + [record])
  {
    forall k: nat | k < |log + [record]|
      ensures IsRecorded(log + [record], k)
    {
      if k < |log| {
        RecordedStays(log, record, k);
      }
    }
  }

  /** A call that began after the first `n` records may commit next. */
  lemma CommitContinues(log: seq<Record>, call: Call, answers: Dataset -> LoadResult, n: nat)
    requires IsRun(log) && n <= |log| && IsCall(call) && call.AwaitingLoads?
    requires call.initial == After(log[..n], call.request.identity)
    ensures IsRun(log + [Committed(call.request.identity, ResultsOf(call, answers), IsRefresh(call))])
  {
    var record := Committed(call.request.identity, ResultsOf(call, answers), IsRefresh(call));
    var longer := log + [record];
    assert longer[..n] == log[..n];
    assert CommittedBy(longer, |log|, call, answers, n);
    RunGrows(log, record);
  }

  lemma ResetReplays(log: seq<Record>)
    requires IsRun(log)
    ensures IsRun(log + [Cleared]) && Replay(log + [Cleared]) == map[]
  {
    ReplayStep(log, Cleared);
    RunGrows(log, Cleared);
  }

  lemma CommitReplays(log: seq<Record>, cache: map<string, Entry>, call: Call, answers: Dataset -> LoadResult, n: nat)
    requires cache == Replay(log) && IsRun(log) && IsCall(call) && call.AwaitingLoads? && BeganAt(log, call, n)
    ensures var record := Committed(call.request.identity, ResultsOf(call, answers), IsRefresh(call));
      && IsRun(log + [record])
      && Replay(log + [record])
           == cache[call.request.identity :=
                    Merged(EntryOf(cache, call.request.identity), ResultsOf(call, answers), IsRefresh(call))]
  {
    ReplayStep(log, Committed(call.request.identity, ResultsOf(call, answers), IsRefresh(call)));
    CommitContinues(log, call, answers, n);
  }

  lemma RunBringsFlags(log: seq<Record>, k: nat)
    requires IsRun(log) && k < |log|
    ensures BringsFlags(log[k])
  {
    assert IsRecorded(log, k);
    if !log[k].Cleared? {
      var call, answers, n: nat :| CommittedBy(log, k, call, answers, n);
      CommitsBringFlags(call, answers);
    }
  }

  /**
   In every run, while a gated dataset stays marked, the cached flags are those right after the commit that loaded it.
   */
  lemma RunFlagsStand(log: seq<Record>, identity: string, d: Dataset, k: nat)
    requires IsRun(log) && d.Gated? && Keeps(log, identity, d, k)
    requires forall j :: k < j < |log| ==> !Loads(log[j], identity, d)
    ensures ValueOf(After(log, identity), DeploymentFeatures)
      == ValueOf(After(log[..k + 1], identity), DeploymentFeatures)
  {
    forall j: nat | k < j < |log|
      ensures BringsFlags(log[j])
    {
      RunBringsFlags(log, j);
    }
    FlagsStand(log, identity, d, k);
  }

  // ---------- The calls ----------

  /** Picks the datasets to load. */
  method PlanLoads(request: Request, initial: Entry) returns (loads: seq<Dataset>)
    requires AllDistinct(request.requested)
    ensures AllDistinct(loads)
    ensures forall d :: d in loads <==> d in request.requested && IsDue(request, initial, d)
  {
    loads := [];
    for i := 0 to |request.requested|
      invariant AllDistinct(loads)
      invariant forall d :: d in loads <==> d in request.requested[..i] && IsDue(request, initial, d)
    {
      var d := request.requested[i];
      assert d !in request.requested[..i];
      if IsDue(request, initial, d) {
        loads := loads + [d];
      }
    }
  }

  /** The first part of a call, up to its first wait. */
  method Start(request: Request, initial: Entry) returns (call: Call)
    requires AllDistinct(request.requested)
    requires AnyGated(request.requested) ==> DeploymentFeatures in request.requested
    ensures IsCall(call) && call.request == request && call.initial == initial
    ensures call.AwaitingFeatures? <==> ReadsFeatures(request, initial)
  {
    if ReadsFeatures(request, initial) {
      call := AwaitingFeatures(request, initial);
    } else {
      var loads := PlanLoads(request, initial);
      call := AwaitingLoads(request, initial, None, loads);
    }
  }

  /** Puts the results of a call together. */
  method Gather(call: Call, answers: Dataset -> LoadResult) returns (results: map<Dataset, LoadResult>)
    requires call.AwaitingLoads? && DeploymentFeatures !in call.loads
    ensures results == ResultsOf(call, answers)
  {
    results := if call.features.Some? then map[DeploymentFeatures := call.features.value] else map[];
    for i := 0 to |call.loads|
      invariant forall d :: d in results <==> (call.features.Some? && d == DeploymentFeatures) || d in call.loads[..i]
      invariant forall d :: d in results ==>
        results[d] == if d == DeploymentFeatures then call.features.value else ResultOf(call, d, answers(d))
    {
      var d := call.loads[i];
      results := results[d := ResultOf(call, d, answers(d))];
    }
  }

  /** The last part of a call, after its last wait. */
  method Finish(call: Call, current: Entry, answers: Dataset -> LoadResult) returns (data: Entry)
    requires IsCall(call) && call.AwaitingLoads?
    ensures data == Merged(current, ResultsOf(call, answers), IsRefresh(call))
  {
    var results := Gather(call, answers);
    data := Merge(current, OrderOf(call), results, IsRefresh(call));
  }

  /** The cache every call shares, and the calls in flight. */
  class Portal {
    var cache: map<string, Entry>
    var calls: map<nat, Call>
    var next: nat
    ghost var log: seq<Record>
    ghost var began: map<nat, nat>

    /** The cache is the replay of all commits and resets, however the calls overlap. */
    ghost predicate IsReplay()
      reads `cache, `log
    {
      cache == Replay(log)
    }

    ghost predicate IsTracked()
      reads `calls, `next
    {
      forall ticket :: ticket in calls ==> ticket < next && IsCall(calls[ticket])
    }

    /** Every call in flight found what the cache held at some point of the log, and the log is a run of such calls. */
    ghost predicate IsHistory()
      reads `calls, `log, `began
    {
      IsRun(log) && forall ticket :: ticket in calls ==> ticket in began && BeganAt(log, calls[ticket], began[ticket])
    }

    ghost predicate Valid()
      reads this
    {
      IsReplay() && IsTracked() && IsHistory()
    }

    constructor ()
      ensures Valid() && cache == map[] && calls == map[] && log == []
    {
      cache, calls, next, log, began := map[], map[], 0, [], map[];
    }

    lemma StillBegan(record: Record)
      requires IsHistory()
      ensures forall ticket :: ticket in calls ==> BeganAt(log + [record], calls[ticket], began[ticket])
    {
      forall ticket | ticket in calls
        ensures BeganAt(log + [record], calls[ticket], began[ticket])
      {
        BeganStays(log, record, calls[ticket], began[ticket]);
      }
    }

    /** Empties the cache; calls in flight go on. */
    method Reset()
      requires Valid()
      modifies `cache, `log
      ensures Valid() && cache == map[] && log == old(log) + [Cleared]
    {
      ResetReplays(log);
      StillBegan(Cleared);
      cache, log := map[], log + [Cleared];
    }

    /** A call begins. */
    method Begin(request: Request) returns (ticket: nat)
      requires Valid() && AllDistinct(request.requested)
      requires AnyGated(request.requested) ==> DeploymentFeatures in request.requested
      modifies `calls, `next, `began
      ensures Valid() && ticket !in old(calls) && ticket in calls && calls - {ticket} == old(calls)
      ensures calls[ticket].request == request && calls[ticket].initial == EntryOf(cache, request.identity)
    {
      var call := Start(request, EntryOf(cache, request.identity));
      ticket := next;
      next, calls, began := next + 1, calls[ticket := call], began[ticket := |log|];
      assert log[..|log|] == log;
    }

    /** The flags arrive, and the call asks for its datasets. */
    method FeaturesArrive(ticket: nat, answer: LoadResult)
      requires Valid() && ticket in calls && calls[ticket].AwaitingFeatures?
      modifies `calls
      ensures Valid() && calls.Keys == old(calls).Keys && calls - {ticket} == old(calls) - {ticket}
      ensures calls[ticket].AwaitingLoads?
      ensures calls[ticket].request == old(calls)[ticket].request && calls[ticket].initial == old(calls)[ticket].initial
      ensures calls[ticket].features
           == Some(if DeploymentFeatures in calls[ticket].request.applicable then answer else Settled(Empty))
    {
      var call := calls[ticket];
      var result := if DeploymentFeatures in call.request.applicable then answer else Settled(Empty);
      var loads := PlanLoads(call.request, call.initial);
      calls := calls[ticket := AwaitingLoads(call.request, call.initial, Some(result), loads)];
    }

    /** A call is over. */
    method Take(ticket: nat) returns (call: Call, ghost n: nat)
      requires Valid() && ticket in calls
      modifies `calls
      ensures Valid() && calls == old(calls) - {ticket} && call == old(calls)[ticket]
      ensures IsCall(call) && BeganAt(log, call, n)
    {
      call, n := calls[ticket], began[ticket];
      calls := calls - {ticket};
    }

    /** Stores what a call has merged. */
    method Commit(data: Entry, call: Call, ghost answers: Dataset -> LoadResult, ghost n: nat)
      requires Valid() && IsCall(call) && call.AwaitingLoads? && BeganAt(log, call, n)
      requires data == Merged(EntryOf(cache, call.request.identity), ResultsOf(call, answers), IsRefresh(call))
      modifies `cache, `log
      ensures Valid() && cache == old(cache)[call.request.identity := data]
      ensures log == old(log) + [Committed(call.request.identity, ResultsOf(call, answers), IsRefresh(call))]
    {
      ghost var record := Committed(call.request.identity, ResultsOf(call, answers), IsRefresh(call));
      CommitReplays(log, cache, call, answers, n);
      StillBegan(record);
      ghost var longer := log + [record];
      assert IsRun(longer) && Replay(longer) == cache[call.request.identity := data];
      cache, log := cache[call.request.identity := data], longer;
    }

    /**
     The datasets arrive: the results are merged into what the cache holds now, not into what it held when the
     call began, and committed if the caller still wants that.
     */
    method LoadsArrive(ticket: nat, answers: Dataset -> LoadResult, commit: bool) returns (data: Entry)
      requires Valid() && ticket in calls && calls[ticket].AwaitingLoads?
      modifies `calls, `cache, `log
      ensures Valid() && calls == old(calls) - {ticket}
      ensures var call := old(calls)[ticket];
        && data == Merged(EntryOf(old(cache), call.request.identity), ResultsOf(call, answers), IsRefresh(call))
        && (commit ==>
             && cache == old(cache)[call.request.identity := data]
             && log == old(log) + [Committed(call.request.identity, ResultsOf(call, answers), IsRefresh(call))])
      ensures !commit ==> cache == old(cache) && log == old(log)
    {
      var call, n := Take(ticket);
      var identity := call.request.identity;
      data := Finish(call, EntryOf(cache, identity), answers);
      if commit {
        Commit(data, call, answers, n);
      }
    }
  }
}
