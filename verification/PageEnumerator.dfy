/**
 Enumerating all pages of a listing with a bounded pool of workers: failures are retried once in order,
 a refused request stops everything, and the result says whether it is complete.
 */
module PageEnumerator {
  import opened Outcomes
  import opened PageFetch
  import opened Sorting

  datatype Reason = UnknownTotal | IncompleteSource | MaxResults | Stopped(code: Code)

  /** The result; it is truncated when there is a reason for stopping. */
  datatype Listing = Listing(hostnames: set<string>, pages: nat, reported: Option<nat>, stop: Option<Reason>)

  /** The outcome of each page, by offset and by try: the pool is try 0, the recovery pass try 1. */
  type Fetcher = (nat, nat) -> Outcome<Page, Code>

  /** Which of the pending pages `wait` reports, and in which order, at each call. */
  type Schedule = s: (nat, set<nat>) -> seq<nat> | forall n, p: set<nat> :: p != {} ==> IsBatch(s(n, p), p)
    ghost witness (n, p: set<nat>) => if p == {} then [] else var o :| o in p; [o]

  predicate IsBatch(batch: seq<nat>, pending: set<nat>) {
    && batch != []
    && (forall i :: 0 <= i < |batch| ==> batch[i] in pending)
    && (forall i, j :: 0 <= i < j < |batch| ==> batch[i] != batch[j])
  }

  function Hosts(page: Page): set<string> {
    set i | 0 <= i < |page.entries| && page.entries[i].Some? :: page.entries[i].value
  }

  function HostsOf(outcome: Outcome<Page, Code>): set<string> {
    if outcome.Ok? then Hosts(outcome.value) else {}
  }

  function Due(reported: nat, offset: nat): int {
    if reported - offset < PAGE_SIZE then reported - offset else PAGE_SIZE
  }

  predicate IsShort(page: Page, offset: nat, reported: nat) {
    |page.entries| < Due(reported, offset)
  }

  /** `range(40, limit, 40)` */
  function Offsets(limit: nat): seq<nat> {
    if limit <= PAGE_SIZE then [] else seq((limit - 1) / PAGE_SIZE, i requires 0 <= i => PAGE_SIZE * (i + 1))
  }

  lemma OffsetsAreMultiples(limit: nat)
    ensures Ascends(Offsets(limit))
    ensures forall o :: o in Offsets(limit) <==> PAGE_SIZE <= o < limit && o % PAGE_SIZE == 0
  {
    forall o: nat | PAGE_SIZE <= o < limit && o % PAGE_SIZE == 0
      ensures o in Offsets(limit)
    {
      assert Offsets(limit)[o / PAGE_SIZE - 1] == o;
    }
  }

  // ---------- What the pool has seen ----------

  function PoolHosts(fetch: Fetcher, offsets: set<nat>, attempt: nat): set<string> {
    set o, host | o in offsets && host in HostsOf(fetch(o, attempt)) :: host
  }

  function Answered(fetch: Fetcher, offsets: set<nat>, attempt: nat): set<nat> {
    set o | o in offsets && fetch(o, attempt).Ok?
  }

  function Missed(fetch: Fetcher, offsets: set<nat>): set<nat> {
    set o | o in offsets && fetch(o, 0).Err? && fetch(o, 0).error != AuthFailed
  }

  predicate IsRefused(fetch: Fetcher, offset: nat) {
    fetch(offset, 0) == Err(AuthFailed)
  }

  predicate AnyRefused(fetch: Fetcher, offsets: set<nat>) {
    exists o :: o in offsets && IsRefused(fetch, o)
  }

  predicate AnyShort(fetch: Fetcher, offsets: set<nat>, reported: nat) {
    exists o :: o in offsets && fetch(o, 0).Ok? && IsShort(fetch(o, 0).value, o, reported)
  }

  function PoolStop(fetch: Fetcher, offsets: set<nat>, reported: nat): Option<Reason> {
    if AnyRefused(fetch, offsets) then Some(Stopped(AuthFailed))
    else if AnyShort(fetch, offsets, reported) then Some(IncompleteSource)
    else None
  }

  /** What recovering one page adds to the reason for stopping: the first trouble counts. */
  function Recovered(fetch: Fetcher, offset: nat, reported: nat, stop: Option<Reason>): Option<Reason> {
    if stop.Some? then stop
    else match fetch(offset, 1)
      case Ok(page) => if IsShort(page, offset, reported) then Some(IncompleteSource) else None
      case Err(code) => Some(Stopped(code))
  }

  function RecoveryStop(fetch: Fetcher, order: seq<nat>, reported: nat, stop: Option<Reason>): Option<Reason> {
    if order == [] then stop
    else Recovered(fetch, order[|order| - 1], reported, RecoveryStop(fetch, order[..|order| - 1], reported, stop))
  }

  /** The offsets whose first try failed, in ascending order. */
  function Failures(fetch: Fetcher, offsets: seq<nat>): seq<nat> {
    if offsets == [] then []
    else
      var last := |offsets| - 1;
      var rest := Failures(fetch, offsets[..last]);
      if fetch(offsets[last], 0).Err? then rest + [offsets[last]] else rest
  }

  // ---------- What the result is, without a schedule ----------

  /** Host names of every page that either try brings. */
  function AllHosts(fetch: Fetcher, offsets: seq<nat>): set<string> {
    PoolHosts(fetch, Elements(offsets), 0) + PoolHosts(fetch, Missed(fetch, Elements(offsets)), 1)
  }

  function AllPages(fetch: Fetcher, offsets: seq<nat>): nat {
    |Answered(fetch, Elements(offsets), 0)| + |Answered(fetch, Missed(fetch, Elements(offsets)), 1)|
  }

  function FinalStop(fetch: Fetcher, offsets: seq<nat>, reported: nat): Option<Reason> {
    var stop := PoolStop(fetch, Elements(offsets), reported);
    if AnyRefused(fetch, Elements(offsets)) then stop
    else RecoveryStop(fetch, Failures(fetch, offsets), reported, stop)
  }

  // ---------- The discipline of a run ----------

  datatype Event =
    | Submitted(offset: nat)
    | Collected(offset: nat)
    | Lost(offset: nat)
    | Refused(offset: nat)
    | Retried(offset: nat)

  function InFlight(trace: seq<Event>): int {
    if trace == [] then 0
    else
      var last := trace[|trace| - 1];
      InFlight(trace[..|trace| - 1]) + (if last.Submitted? || last.Retried? then 1 else -1)
  }

  function Collections(trace: seq<Event>): nat {
    if trace == [] then 0
    else Collections(trace[..|trace| - 1]) + (if trace[|trace| - 1].Collected? then 1 else 0)
  }

  predicate NoneRefused(trace: seq<Event>) {
    forall i :: 0 <= i < |trace| ==> !trace[i].Refused?
  }

  /** The event may come next: room in the pool, nothing refused, no offset a second time. */
  predicate IsAllowed(trace: seq<Event>, e: Event, workers: nat) {
    && (e.Submitted? || e.Retried? ==> InFlight(trace) < workers && NoneRefused(trace))
    && (e.Submitted? || e.Collected? ==> e !in trace)
  }

  predicate IsDisciplined(trace: seq<Event>, workers: nat) {
    trace == [] ||
    (IsDisciplined(trace[..|trace| - 1], workers) && IsAllowed(trace[..|trace| - 1], trace[|trace| - 1], workers))
  }

  lemma DisciplineGrows(trace: seq<Event>, workers: nat, e: Event)
    requires IsDisciplined(trace, workers) && IsAllowed(trace, e, workers)
    ensures IsDisciplined(trace + [e], workers)
    ensures InFlight(trace + [e]) == InFlight(trace) + (if e.Submitted? || e.Retried? then 1 else -1)
    ensures Collections(trace + [e]) == Collections(trace) + (if e.Collected? then 1 else 0)
  {
    assert (trace + [e])[..|trace|] == trace;
  }

  /**
   In a disciplined run at most `workers` pages are in flight at any time, each offset is submitted at
   most once and collected at most once, and nothing is submitted or retried after a refusal.
   */
  lemma {:induction false} DisciplineMeans(trace: seq<Event>, workers: nat, k: nat)
    requires IsDisciplined(trace, workers) && k <= |trace|
    ensures InFlight(trace[..k]) <= workers
    ensures forall i, j :: 0 <= i < j < |trace| && (trace[i].Submitted? || trace[i].Collected?) ==> trace[i] != trace[j]
    ensures forall i, j :: 0 <= i < j < |trace| && trace[i].Refused? ==> !trace[j].Submitted? && !trace[j].Retried?
    decreases |trace|
  {
    if trace != [] {
      var last := |trace| - 1;
      var front := trace[..last];
      if k <= last {
        DisciplineMeans(front, workers, k);
        assert front[..k] == trace[..k];
      } else {
        DisciplineMeans(front, workers, last);
        assert front[..last] == front && trace[..k] == trace;
      }
      forall i, j | 0 <= i < j < |trace| && (trace[i].Submitted? || trace[i].Collected?)
        ensures trace[i] != trace[j]
      {
        if j == last {
          assert front[i] in front;
        } else {
          assert front[i] != front[j];
        }
      }
      forall i, j | 0 <= i < j < |trace| && trace[i].Refused?
        ensures !trace[j].Submitted? && !trace[j].Retried?
      {
        if j < last {
          assert front[i].Refused? && front[j] == trace[j];
        } else {
          assert front[i].Refused?;
        }
      }
    }
  }

  // ---------- The pool ----------

  /** The variables of the pool loop; `next` is how far the remaining offsets have been taken. */
  datatype Pool = Pool(next: nat, pending: set<nat>, failed: seq<nat>, found: set<string>, pages: nat,
                       stop: Option<Reason>, blocked: bool)

  /** What does not change during a run. */
  datatype Job = Job(first: Page, offsets: seq<nat>, reported: nat, workers: nat, fetch: Fetcher)

  function Start(job: Job): Pool {
    Pool(0, {}, [], Hosts(job.first), 1, None, false)
  }

  function SubmitNext(job: Job, pool: Pool): Pool {
    if pool.next < |job.offsets| then
      pool.(next := pool.next + 1, pending := pool.pending + {job.offsets[pool.next]})
    else pool
  }

  function Collect(job: Job, pool: Pool, page: Page, offset: nat): Pool {
    pool.(found := pool.found + Hosts(page), pages := pool.pages + 1,
          stop := if IsShort(page, offset, job.reported) && pool.stop.None? then Some(IncompleteSource) else pool.stop)
  }

  /** Takes a completed page out of the pool. */
  function Complete(job: Job, pool: Pool, offset: nat): Pool {
    var rest := pool.(pending := pool.pending - {offset});
    match job.fetch(offset, 0)
    case Ok(page) => Collect(job, rest, page, offset)
    case Err(AuthFailed) => rest.(blocked := true, next := |job.offsets|, stop := Some(Stopped(AuthFailed)))
    case Err(_) => rest.(failed := pool.failed + [offset])
  }

  function Completion(job: Job, offset: nat): Event {
    match job.fetch(offset, 0)
    case Ok(_) => Collected(offset)
    case Err(AuthFailed) => Refused(offset)
    case Err(_) => Lost(offset)
  }

  /** All listed offsets below `next` are sent, unless the rest was dropped; no other one is. */
  ghost predicate HasSent(offsets: seq<nat>, next: nat, sent: set<nat>, blocked: bool) {
    && next <= |offsets|
    && (forall o :: o in sent ==> o in offsets && (next < |offsets| ==> o < offsets[next]))
    && (blocked ==> next == |offsets|)
    && (!blocked ==> forall i :: 0 <= i < next ==> offsets[i] in sent)
  }

  ghost predicate Sending(job: Job, pool: Pool, completed: set<nat>) {
    HasSent(job.offsets, pool.next, pool.pending + completed, pool.blocked) && pool.pending !! completed
  }

  /** What came back is booked. */
  ghost predicate Booked(job: Job, pool: Pool, completed: set<nat>) {
    && pool.found == Hosts(job.first) + PoolHosts(job.fetch, completed, 0)
    && pool.pages == 1 + |Answered(job.fetch, completed, 0)|
    && AllDistinct(pool.failed) && Elements(pool.failed) == Missed(job.fetch, completed)
    && pool.blocked == AnyRefused(job.fetch, completed)
    && pool.stop == PoolStop(job.fetch, completed, job.reported)
  }

  /** The trace is disciplined and agrees with the books. */
  ghost predicate Logged(job: Job, pool: Pool, completed: set<nat>, trace: seq<Event>) {
    && IsDisciplined(trace, job.workers) && InFlight(trace) == |pool.pending| <= job.workers
    && pool.pages == 1 + Collections(trace)
    && (forall e :: e in trace && e.Submitted? ==> e.offset in pool.pending + completed)
    && (forall e :: e in trace && e.Collected? ==> e.offset in completed && job.fetch(e.offset, 0).Ok?)
    && (forall o :: o in completed && job.fetch(o, 0).Ok? ==> Collected(o) in trace)
    && (!pool.blocked ==> NoneRefused(trace))
  }

  lemma SubmissionIsSending(job: Job, pool: Pool, completed: set<nat>)
    requires Ascends(job.offsets) && pool.next < |job.offsets| && Sending(job, pool, completed)
    ensures Sending(job, SubmitNext(job, pool), completed)
    ensures job.offsets[pool.next] !in pool.pending + completed
  {
    var offset := job.offsets[pool.next];
    assert pool.pending + {offset} + completed == pool.pending + completed + {offset};
  }

  lemma SubmissionIsLogged(job: Job, pool: Pool, completed: set<nat>, trace: seq<Event>)
    requires pool.next < |job.offsets| && |pool.pending| < job.workers && !pool.blocked
    requires job.offsets[pool.next] !in pool.pending + completed && Logged(job, pool, completed, trace)
    ensures Logged(job, SubmitNext(job, pool), completed, trace + [Submitted(job.offsets[pool.next])])
  {
    DisciplineGrows(trace, job.workers, Submitted(job.offsets[pool.next]));
  }

  lemma CompletionIsSending(job: Job, pool: Pool, completed: set<nat>, offset: nat)
    requires Sending(job, pool, completed) && offset in pool.pending
    ensures Sending(job, Complete(job, pool, offset), completed + {offset})
  {
    assert (pool.pending - {offset}) + (completed + {offset}) == pool.pending + completed;
  }

  lemma CompletionIsLogged(job: Job, pool: Pool, completed: set<nat>, trace: seq<Event>, offset: nat)
    requires Logged(job, pool, completed, trace) && offset in pool.pending && offset !in completed
    ensures Logged(job, Complete(job, pool, offset), completed + {offset}, trace + [Completion(job, offset)])
  {
    DisciplineGrows(trace, job.workers, Completion(job, offset));
  }

  lemma HostsGrow(fetch: Fetcher, offsets: set<nat>, offset: nat, attempt: nat)
    ensures PoolHosts(fetch, offsets + {offset}, attempt)
         == PoolHosts(fetch, offsets, attempt) + HostsOf(fetch(offset, attempt))
  {
  }

  lemma AnsweredGrow(fetch: Fetcher, offsets: set<nat>, offset: nat, attempt: nat)
    requires offset !in offsets
    ensures |Answered(fetch, offsets + {offset}, attempt)|
         == |Answered(fetch, offsets, attempt)| + if fetch(offset, attempt).Ok? then 1 else 0
  {
    var added := if fetch(offset, attempt).Ok? then {offset} else {};
    assert Answered(fetch, offsets + {offset}, attempt) == Answered(fetch, offsets, attempt) + added;
  }

  lemma MissedGrow(job: Job, offsets: set<nat>, offset: nat)
    ensures Missed(job.fetch, offsets + {offset})
         == Missed(job.fetch, offsets) + if Completion(job, offset).Lost? then {offset} else {}
  {
  }

  lemma StopGrow(fetch: Fetcher, offsets: set<nat>, offset: nat, reported: nat)
    ensures AnyRefused(fetch, offsets + {offset}) == (AnyRefused(fetch, offsets) || IsRefused(fetch, offset))
    ensures AnyShort(fetch, offsets + {offset}, reported)
         == (AnyShort(fetch, offsets, reported)
             || (fetch(offset, 0).Ok? && IsShort(fetch(offset, 0).value, offset, reported)))
  {
    if AnyRefused(fetch, offsets) {
      var o :| o in offsets && IsRefused(fetch, o);
      assert o in offsets + {offset};
    }
    if AnyShort(fetch, offsets, reported) {
      var o :| o in offsets && fetch(o, 0).Ok? && IsShort(fetch(o, 0).value, o, reported);
      assert o in offsets + {offset};
    }
    assert offset in offsets + {offset};
  }

  lemma StopIsBooked(job: Job, pool: Pool, completed: set<nat>, offset: nat)
    requires pool.blocked == AnyRefused(job.fetch, completed)
      && pool.stop == PoolStop(job.fetch, completed, job.reported)
    ensures Complete(job, pool, offset).blocked == AnyRefused(job.fetch, completed + {offset})
    ensures Complete(job, pool, offset).stop == PoolStop(job.fetch, completed + {offset}, job.reported)
  {
    StopGrow(job.fetch, completed, offset, job.reported);
  }

  lemma DistinctGrow(s: seq<nat>, x: nat)
    requires AllDistinct(s) && x !in Elements(s)
    ensures AllDistinct(s + [x]) && Elements(s + [x]) == Elements(s) + {x}
  {
  }

  lemma CompletionIsBooked(job: Job, pool: Pool, completed: set<nat>, offset: nat)
    requires Booked(job, pool, completed) && offset !in completed
    ensures Booked(job, Complete(job, pool, offset), completed + {offset})
  {
    HostsGrow(job.fetch, completed, offset, 0);
    AnsweredGrow(job.fetch, completed, offset, 0);
    MissedGrow(job, completed, offset);
    StopIsBooked(job, pool, completed, offset);
    if Completion(job, offset).Lost? {
      DistinctGrow(pool.failed, offset);
    }
  }

  // ---------- The run ----------

  /** The books, the log and the offsets sent agree. */
  ghost predicate Valid(job: Job, pool: Pool, completed: set<nat>, trace: seq<Event>) {
    && Ascends(job.offsets) && job.workers > 0
    && Sending(job, pool, completed) && Booked(job, pool, completed) && Logged(job, pool, completed, trace)
  }

  function Rest(job: Job, pool: Pool): int {
    |job.offsets| - pool.next + |pool.pending|
  }

  method Submit(job: Job, pool: Pool, ghost completed: set<nat>, ghost trace: seq<Event>)
    returns (after: Pool, ghost log: seq<Event>)
    requires Valid(job, pool, completed, trace) && |pool.pending| < job.workers
    ensures Valid(job, after, completed, log) && after == SubmitNext(job, pool) && Rest(job, after) == Rest(job, pool)
  {
    after, log := SubmitNext(job, pool), trace;
    if pool.next < |job.offsets| {
      SubmissionIsSending(job, pool, completed);
      SubmissionIsLogged(job, pool, completed, trace);
      log := trace + [Submitted(job.offsets[pool.next])];
    }
  }

  lemma CompletionIsValid(job: Job, pool: Pool, completed: set<nat>, trace: seq<Event>, offset: nat)
    requires Valid(job, pool, completed, trace) && offset in pool.pending
    ensures Valid(job, Complete(job, pool, offset), completed + {offset}, trace + [Completion(job, offset)])
  {
    CompletionIsSending(job, pool, completed, offset);
    CompletionIsLogged(job, pool, completed, trace, offset);
    CompletionIsBooked(job, pool, completed, offset);
  }

  lemma CompletionShrinks(job: Job, pool: Pool, offset: nat)
    requires offset in pool.pending && pool.next <= |job.offsets| && |pool.pending| <= job.workers
    ensures Rest(job, Complete(job, pool, offset)) < Rest(job, pool)
    ensures Complete(job, pool, offset).pending == pool.pending - {offset}
    ensures |Complete(job, pool, offset).pending| < job.workers
  {
  }

  lemma SubmissionEmpties(job: Job, pool: Pool)
    requires pool.next <= |job.offsets|
    ensures pool.pending <= SubmitNext(job, pool).pending
    ensures SubmitNext(job, pool).pending == {} ==> SubmitNext(job, pool).next == |job.offsets|
  {
  }

  /** Takes in one page and sends another. */
  method Handle(job: Job, start: Pool, offset: nat, ghost before: set<nat>, ghost log: seq<Event>)
    returns (pool: Pool, ghost completed: set<nat>, ghost trace: seq<Event>)
    requires Valid(job, start, before, log) && offset in start.pending
    ensures Valid(job, pool, completed, trace) && Rest(job, pool) < Rest(job, start)
    ensures start.pending - {offset} <= pool.pending
    ensures pool.pending == {} ==> pool.next == |job.offsets|
  {
    CompletionIsValid(job, start, before, log, offset);
    CompletionShrinks(job, start, offset);
    trace, completed := log + [Completion(job, offset)], before + {offset};
    pool := Complete(job, start, offset);
    SubmissionEmpties(job, pool);
    pool, trace := Submit(job, pool, completed, trace);
  }

  /** Takes in the pages that one `wait` reports. */
  method RunBatch(job: Job, start: Pool, batch: seq<nat>, ghost before: set<nat>, ghost log: seq<Event>)
    returns (pool: Pool, ghost completed: set<nat>, ghost trace: seq<Event>)
    requires Valid(job, start, before, log) && IsBatch(batch, start.pending)
    ensures Valid(job, pool, completed, trace) && Rest(job, pool) < Rest(job, start)
    ensures pool.pending == {} ==> pool.next == |job.offsets|
  {
    pool, completed, trace := Handle(job, start, batch[0], before, log);
    for i := 1 to |batch|
      invariant Valid(job, pool, completed, trace)
      invariant forall j :: i <= j < |batch| ==> batch[j] in pool.pending
      invariant Rest(job, pool) < Rest(job, start)
      invariant pool.pending == {} ==> pool.next == |job.offsets|
    {
      pool, completed, trace := Handle(job, pool, batch[i], completed, trace);
    }
  }

  /** The loop of the pool, for any order in which pages complete. */
  method RunPool(job: Job, schedule: Schedule) returns (pool: Pool, ghost completed: set<nat>, ghost trace: seq<Event>)
    requires Ascends(job.offsets) && job.workers > 0
    ensures Valid(job, pool, completed, trace) && pool.pending == {} && pool.next == |job.offsets|
  {
    pool, completed, trace := Start(job), {}, [];
    for i := 0 to job.workers
      invariant Valid(job, pool, completed, trace)
      invariant |pool.pending| <= i
      invariant i > 0 && pool.pending == {} ==> pool.next == |job.offsets|
    {
      pool, trace := Submit(job, pool, completed, trace);
    }
    var round := 0;
    while pool.pending != {}
      invariant Valid(job, pool, completed, trace)
      invariant pool.pending == {} ==> pool.next == |job.offsets|
      decreases Rest(job, pool)
    {
      var batch := schedule(round, pool.pending);
      round := round + 1;
      pool, completed, trace := RunBatch(job, pool, batch, completed, trace);
    }
  }

  /** When the pool is empty every offset is completed, unless one was refused. */
  lemma PoolIsDone(job: Job, pool: Pool, completed: set<nat>)
    requires Sending(job, pool, completed) && pool.pending == {} && pool.next == |job.offsets|
    requires pool.blocked == AnyRefused(job.fetch, completed)
    requires pool.stop == PoolStop(job.fetch, completed, job.reported)
    ensures !pool.blocked ==> completed == Elements(job.offsets)
    ensures pool.blocked == AnyRefused(job.fetch, Elements(job.offsets))
    ensures pool.stop == PoolStop(job.fetch, Elements(job.offsets), job.reported)
  {
    assert pool.pending + completed == completed;
    if pool.blocked {
      var o :| o in completed && IsRefused(job.fetch, o);
      assert o in Elements(job.offsets);
    }
  }

  // ---------- The recovery pass ----------

  lemma {:induction false} FailuresAscend(fetch: Fetcher, offsets: seq<nat>)
    requires Ascends(offsets)
    ensures Ascends(Failures(fetch, offsets))
    ensures forall o :: o in Failures(fetch, offsets) <==> o in offsets && fetch(o, 0).Err?
  {
    if offsets != [] {
      var last := |offsets| - 1;
      assert offsets == offsets[..last] + [offsets[last]];
      var rest := Failures(fetch, offsets[..last]);
      FailuresAscend(fetch, offsets[..last]);
      forall i | 0 <= i < |rest|
        ensures rest[i] < offsets[last]
      {
        assert rest[i] in offsets[..last];
      }
    }
  }

  /** Without a refusal, the offsets that failed are those the pool has missed. */
  lemma FailuresAreMissed(fetch: Fetcher, offsets: seq<nat>)
    requires Ascends(offsets) && !AnyRefused(fetch, Elements(offsets))
    ensures Elements(Failures(fetch, offsets)) == Missed(fetch, Elements(offsets))
  {
    FailuresAscend(fetch, offsets);
    forall o | o in offsets && fetch(o, 0).Err?
      ensures o in Missed(fetch, Elements(offsets))
    {
      assert o in Elements(offsets) && !IsRefused(fetch, o);
    }
  }

  /** Whatever order failures came in, sorted they are in the order of the offsets. */
  lemma SortedFailures(fetch: Fetcher, offsets: seq<nat>, failed: seq<nat>)
    requires Ascends(offsets) && !AnyRefused(fetch, Elements(offsets))
    requires AllDistinct(failed) && Elements(failed) == Missed(fetch, Elements(offsets))
    ensures Ascending(failed) == Failures(fetch, offsets)
  {
    SortedAscends(failed);
    FailuresAscend(fetch, offsets);
    FailuresAreMissed(fetch, offsets);
    assert Elements(Ascending(failed)) == Elements(failed);
    AscendingIsUnique(Ascending(failed), Failures(fetch, offsets));
  }

  /** Adds the second try of one page. */
  function Retry(job: Job, pool: Pool, offset: nat): Pool {
    match job.fetch(offset, 1)
    case Ok(page) => Collect(job, pool, page, offset)
    case Err(code) => if pool.stop.None? then pool.(stop := Some(Stopped(code))) else pool
  }

  function RetryEvents(job: Job, offset: nat): seq<Event> {
    [Retried(offset), if job.fetch(offset, 1).Ok? then Collected(offset) else Lost(offset)]
  }

  /** What the pool had, and the second tries of the offsets in `order`. */
  ghost predicate Recovering(job: Job, start: Pool, order: seq<nat>, pool: Pool) {
    && pool.found == start.found + PoolHosts(job.fetch, Elements(order), 1)
    && pool.pages == start.pages + |Answered(job.fetch, Elements(order), 1)|
    && pool.stop == RecoveryStop(job.fetch, order, job.reported, start.stop)
  }

  lemma RetryIsRecovering(job: Job, start: Pool, order: seq<nat>, pool: Pool, offset: nat)
    requires Recovering(job, start, order, pool) && offset !in order
    ensures Recovering(job, start, order + [offset], Retry(job, pool, offset))
  {
    assert Elements(order + [offset]) == Elements(order) + {offset};
    assert (order + [offset])[..|order|] == order;
    HostsGrow(job.fetch, Elements(order), offset, 1);
    AnsweredGrow(job.fetch, Elements(order), offset, 1);
  }

  /** The log in the recovery pass: collected are the pages of the pool and the second tries in `order`. */
  ghost predicate RetriesLogged(job: Job, order: seq<nat>, pages: nat, trace: seq<Event>) {
    && IsDisciplined(trace, job.workers) && InFlight(trace) == 0 && pages == 1 + Collections(trace)
    && NoneRefused(trace)
    && (forall o :: Collected(o) in trace <==>
          (o in job.offsets && job.fetch(o, 0).Ok?) || (o in order && job.fetch(o, 1).Ok?))
  }

  lemma RetryIsLogged(job: Job, order: seq<nat>, pool: Pool, trace: seq<Event>, offset: nat)
    requires RetriesLogged(job, order, pool.pages, trace) && offset !in order && job.fetch(offset, 0).Err?
      && job.workers > 0
    ensures RetriesLogged(job, order + [offset], Retry(job, pool, offset).pages, trace + RetryEvents(job, offset))
  {
    var events := RetryEvents(job, offset);
    DisciplineGrows(trace, job.workers, events[0]);
    var longer := trace + [events[0]];
    assert Collected(offset) !in longer;
    DisciplineGrows(longer, job.workers, events[1]);
    assert trace + events == longer + [events[1]];
  }

  lemma PoolLogIsComplete(job: Job, pool: Pool, completed: set<nat>, trace: seq<Event>)
    requires Logged(job, pool, completed, trace) && pool.pending == {} && !pool.blocked
      && completed == Elements(job.offsets)
    ensures RetriesLogged(job, [], pool.pages, trace)
  {
  }

  lemma RecoveryBegins(job: Job, start: Pool, completed: set<nat>, log: seq<Event>)
    requires Ascends(job.offsets)
    requires start.pending == {} && !start.blocked && completed == Elements(job.offsets)
    requires Booked(job, start, completed) && Logged(job, start, completed, log)
    ensures Ascending(start.failed) == Failures(job.fetch, job.offsets)
    ensures Recovering(job, start, [], start) && RetriesLogged(job, [], start.pages, log)
  {
    PoolLogIsComplete(job, start, completed, log);
    SortedFailures(job.fetch, job.offsets, start.failed);
  }

  /** One more second try. */
  lemma RecoveryStep(job: Job, start: Pool, order: seq<nat>, i: nat, pool: Pool, trace: seq<Event>)
    requires i < |order| && Ascends(order) && job.fetch(order[i], 0).Err? && job.workers > 0
    requires Recovering(job, start, order[..i], pool) && RetriesLogged(job, order[..i], pool.pages, trace)
    ensures Recovering(job, start, order[..i + 1], Retry(job, pool, order[i]))
    ensures RetriesLogged(job, order[..i + 1], Retry(job, pool, order[i]).pages, trace + RetryEvents(job, order[i]))
  {
    assert order[..i + 1] == order[..i] + [order[i]];
    assert order[i] !in order[..i];
    RetryIsRecovering(job, start, order[..i], pool, order[i]);
    RetryIsLogged(job, order[..i], pool, trace, order[i]);
  }

  /** Tries the failed offsets once more, in ascending order. */
  method Recover(job: Job, start: Pool, ghost completed: set<nat>, ghost log: seq<Event>)
    returns (pool: Pool, ghost trace: seq<Event>)
    requires Ascends(job.offsets) && job.workers > 0
    requires start.pending == {} && !start.blocked && completed == Elements(job.offsets)
    requires Booked(job, start, completed) && Logged(job, start, completed, log)
    ensures Recovering(job, start, Failures(job.fetch, job.offsets), pool)
    ensures RetriesLogged(job, Failures(job.fetch, job.offsets), pool.pages, trace)
  {
    RecoveryBegins(job, start, completed, log);
    FailuresAscend(job.fetch, job.offsets);
    pool, trace := RetryAll(job, start, Ascending(start.failed), log);
  }

  method RetryAll(job: Job, start: Pool, order: seq<nat>, ghost log: seq<Event>)
    returns (pool: Pool, ghost trace: seq<Event>)
    requires Ascends(order) && job.workers > 0 && forall i :: 0 <= i < |order| ==> job.fetch(order[i], 0).Err?
    requires Recovering(job, start, [], start) && RetriesLogged(job, [], start.pages, log)
    ensures Recovering(job, start, order, pool) && RetriesLogged(job, order, pool.pages, trace)
  {
    pool, trace := start, log;
    for i := 0 to |order|
      invariant Recovering(job, start, order[..i], pool) && RetriesLogged(job, order[..i], pool.pages, trace)
    {
      RecoveryStep(job, start, order, i, pool, trace);
      pool, trace := Retry(job, pool, order[i]), trace + RetryEvents(job, order[i]);
    }
    assert order[..|order|] == order;
  }

  // ---------- The whole enumeration ----------

  /** What ends the range of offsets: the reported total, or the limit asked for. */
  function Limit(reported: nat, maxResults: nat): nat {
    if 0 < maxResults < reported then maxResults else reported
  }

  /** The offsets after the first page. */
  function OffsetsDue(first: Page, reported: Option<nat>, maxResults: nat): seq<nat> {
    if |first.entries| == PAGE_SIZE && reported.Some? then Offsets(Limit(reported.value, maxResults)) else []
  }

  /** What the first page alone says about completeness. */
  function FirstStop(first: Page, reported: Option<nat>): Option<Reason> {
    if |first.entries| == PAGE_SIZE then
      if reported.None? then Some(UnknownTotal) else None
    else if reported.Some? && reported.value > |first.entries| then Some(IncompleteSource)
    else None
  }

  function LimitStop(reported: Option<nat>, maxResults: nat, stop: Option<Reason>): Option<Reason> {
    if stop.None? && reported.Some? && 0 < maxResults < reported.value then Some(MaxResults) else stop
  }

  /** The reason for stopping, without a schedule. */
  function ExpectedStop(fetch: Fetcher, first: Page, reported: Option<nat>, maxResults: nat): Option<Reason> {
    var due := OffsetsDue(first, reported, maxResults);
    var stop := if due == [] then FirstStop(first, reported) else FinalStop(fetch, due, reported.value);
    LimitStop(reported, maxResults, stop)
  }

  /** The listing, without a schedule. */
  function Expected(fetch: Fetcher, first: Page, reported: Option<nat>, maxResults: nat): Listing {
    var due := OffsetsDue(first, reported, maxResults);
    Listing(Hosts(first) + AllHosts(fetch, due), 1 + AllPages(fetch, due), reported,
            ExpectedStop(fetch, first, reported, maxResults))
  }

  /** The page an offset ends up with: its first try, or else its second. */
  function PageAt(fetch: Fetcher, offset: nat): Outcome<Page, Code> {
    if fetch(offset, 0).Ok? then fetch(offset, 0) else fetch(offset, 1)
  }

  /** Exactly the listed offsets that have a page are collected. */
  ghost predicate CollectsAll(fetch: Fetcher, offsets: seq<nat>, trace: seq<Event>) {
    forall o :: Collected(o) in trace <==> o in offsets && PageAt(fetch, o).Ok?
  }

  /** Only listed offsets that have a page are collected, and the names are those of the first page and of these. */
  ghost predicate FindsCollected(fetch: Fetcher, first: Page, offsets: seq<nat>, trace: seq<Event>,
                                 found: set<string>) {
    && (forall o :: Collected(o) in trace ==> o in offsets && PageAt(fetch, o).Ok?)
    && (forall host :: host in found <==>
          || Some(host) in first.entries
          || exists o :: Collected(o) in trace && ShowsHost(fetch, o, host))
  }

  /** The page that the offset ends up with has an entry with the name. */
  predicate ShowsHost(fetch: Fetcher, offset: nat, host: string) {
    || (fetch(offset, 0).Ok? && Some(host) in fetch(offset, 0).value.entries)
    || (fetch(offset, 0).Err? && fetch(offset, 1).Ok? && Some(host) in fetch(offset, 1).value.entries)
  }

  lemma HostsAreEntries(page: Page, host: string)
    ensures host in Hosts(page) <==> Some(host) in page.entries
  {
    if Some(host) in page.entries {
      var i :| 0 <= i < |page.entries| && page.entries[i] == Some(host);
      assert page.entries[i].Some? && page.entries[i].value == host;
    }
  }

  lemma ShownAreHosts(fetch: Fetcher, offset: nat, host: string)
    ensures ShowsHost(fetch, offset, host) <==> host in HostsOf(PageAt(fetch, offset))
  {
    if PageAt(fetch, offset).Ok? {
      HostsAreEntries(PageAt(fetch, offset).value, host);
    }
  }

  /** After a refusal the pool has the names of what it collected. */
  lemma PoolFindsCollected(job: Job, pool: Pool, completed: set<nat>, trace: seq<Event>)
    requires Booked(job, pool, completed) && Logged(job, pool, completed, trace) && Sending(job, pool, completed)
    ensures FindsCollected(job.fetch, job.first, job.offsets, trace, pool.found)
  {
    forall host
      ensures host in Hosts(job.first) <==> Some(host) in job.first.entries
    {
      HostsAreEntries(job.first, host);
    }
    forall host
      ensures host in PoolHosts(job.fetch, completed, 0) <==>
        exists o :: Collected(o) in trace && ShowsHost(job.fetch, o, host)
    {
      forall o
        ensures ShowsHost(job.fetch, o, host) <==> host in HostsOf(PageAt(job.fetch, o))
      {
        ShownAreHosts(job.fetch, o, host);
      }
      if host in PoolHosts(job.fetch, completed, 0) {
        var o :| o in completed && host in HostsOf(job.fetch(o, 0));
        assert Collected(o) in trace && ShowsHost(job.fetch, o, host);
      }
    }
  }

  /** So has a run in which nothing was refused. */
  lemma AllFindsCollected(fetch: Fetcher, first: Page, offsets: seq<nat>, trace: seq<Event>)
    requires !AnyRefused(fetch, Elements(offsets)) && CollectsAll(fetch, offsets, trace)
    ensures FindsCollected(fetch, first, offsets, trace, Hosts(first) + AllHosts(fetch, offsets))
  {
    forall host
      ensures host in Hosts(first) <==> Some(host) in first.entries
    {
      HostsAreEntries(first, host);
    }
    forall host
      ensures host in AllHosts(fetch, offsets) <==> exists o :: Collected(o) in trace && ShowsHost(fetch, o, host)
    {
      forall o
        ensures ShowsHost(fetch, o, host) <==> host in HostsOf(PageAt(fetch, o))
      {
        ShownAreHosts(fetch, o, host);
      }
      if o :| Collected(o) in trace && ShowsHost(fetch, o, host) {
        assert o in Elements(offsets) && !IsRefused(fetch, o);
        assert fetch(o, 0).Ok? || o in Missed(fetch, Elements(offsets));
      }
      if host in PoolHosts(fetch, Elements(offsets), 0) {
        var o :| o in Elements(offsets) && host in HostsOf(fetch(o, 0));
        assert Collected(o) in trace && ShowsHost(fetch, o, host);
      }
      if host in PoolHosts(fetch, Missed(fetch, Elements(offsets)), 1) {
        var o :| o in Missed(fetch, Elements(offsets)) && host in HostsOf(fetch(o, 1));
        assert Collected(o) in trace && ShowsHost(fetch, o, host);
      }
    }
  }

  function Clamp(workers: int): nat {
    if workers < 1 then 1 else if workers > 8 then 8 else workers
  }

  function AtLeastZero(n: int): nat {
    if n < 0 then 0 else n
  }

  lemma RecoveredIsExpected(job: Job, start: Pool, pool: Pool)
    requires Ascends(job.offsets)
    requires Booked(job, start, Elements(job.offsets)) && !start.blocked
    requires Recovering(job, start, Failures(job.fetch, job.offsets), pool)
    ensures pool.found == Hosts(job.first) + AllHosts(job.fetch, job.offsets)
    ensures pool.pages == 1 + AllPages(job.fetch, job.offsets)
    ensures pool.stop == FinalStop(job.fetch, job.offsets, job.reported)
  {
    FailuresAreMissed(job.fetch, job.offsets);
  }

  /** Reads the offsets of a job: the pool, then the recovery pass unless a page was refused. */
  method RunJob(job: Job, schedule: Schedule) returns (pool: Pool, ghost trace: seq<Event>)
    requires Ascends(job.offsets) && job.workers > 0
    ensures pool.stop == FinalStop(job.fetch, job.offsets, job.reported)
    ensures IsDisciplined(trace, job.workers) && pool.pages == 1 + Collections(trace)
    ensures FindsCollected(job.fetch, job.first, job.offsets, trace, pool.found)
    ensures !AnyRefused(job.fetch, Elements(job.offsets)) ==>
      && pool.found == Hosts(job.first) + AllHosts(job.fetch, job.offsets)
      && pool.pages == 1 + AllPages(job.fetch, job.offsets)
      && CollectsAll(job.fetch, job.offsets, trace)
  {
    ghost var completed;
    pool, completed, trace := RunPool(job, schedule);
    PoolIsDone(job, pool, completed);
    if !pool.blocked {
      ghost var start := pool;
      pool, trace := Recover(job, pool, completed, trace);
      RecoveredIsExpected(job, start, pool);
      FailuresAscend(job.fetch, job.offsets);
      AllFindsCollected(job.fetch, job.first, job.offsets, trace);
    } else {
      PoolFindsCollected(job, pool, completed, trace);
    }
  }

  /**
   For any order of completion, the reason for stopping is the expected one, the run is disciplined, and the host
   names are those of the first page and of the pages collected; unless a page is refused, the whole listing is the
   expected one and exactly the pages that either try brings are collected.
   */
  method Enumerate(fetch: Fetcher, reported: Option<nat>, maxResults: int, workers: int, schedule: Schedule)
    returns (r: Outcome<Listing, Code>, ghost trace: seq<Event>)
    ensures fetch(0, 0).Err? ==> r == Err(fetch(0, 0).error)
    ensures fetch(0, 0).Ok? ==>
      var first, limit := fetch(0, 0).value, AtLeastZero(maxResults);
      var due := OffsetsDue(first, reported, limit);
      && r.Ok? && r.value.stop == ExpectedStop(fetch, first, reported, limit)
      && IsDisciplined(trace, Clamp(workers)) && r.value.pages == 1 + Collections(trace)
      && FindsCollected(fetch, first, due, trace, r.value.hostnames)
      && (!AnyRefused(fetch, Elements(due)) ==>
           && r.value == Expected(fetch, first, reported, limit)
           && CollectsAll(fetch, due, trace))
  {
    trace := [];
    var first :- fetch(0, 0);
    var limit := AtLeastZero(maxResults);
    var due := OffsetsDue(first, reported, limit);
    var found, pages, stop := Hosts(first), 1, FirstStop(first, reported);
    if due != [] {
      OffsetsAreMultiples(Limit(reported.value, limit));
      var job := Job(first, due, reported.value, Clamp(workers), fetch);
      var pool;
      pool, trace := RunJob(job, schedule);
      found, pages, stop := pool.found, pool.pages, pool.stop;
    }
    r := Ok(Listing(found, pages, reported, LimitStop(reported, limit, stop)));
  }

  // ---------- The reason for stopping, told by the pages alone ----------

  /** The offset is one that a run asks for: a multiple of 40 below the total and below the limit, if there is one. */
  predicate IsAsked(o: nat, n: nat, limit: nat) {
    40 <= o < n && o % 40 == 0 && (limit > 0 ==> o < limit)
  }

  /** The page holds all 40 entries, or all that are left. */
  predicate HoldsEnough(page: Page, o: nat, n: nat) {
    |page.entries| >= 40 || o + |page.entries| >= n
  }

  predicate IsRefusedAt(fetch: Fetcher, o: nat) {
    fetch(o, 0).Err? && fetch(o, 0).error.AuthFailed?
  }

  predicate IsShortAt(fetch: Fetcher, o: nat, n: nat, attempt: nat) {
    fetch(o, attempt).Ok? && !HoldsEnough(fetch(o, attempt).value, o, n)
  }

  /** The first try of the offset fails, and its second one fails too or comes short. */
  predicate IsTrouble(fetch: Fetcher, o: nat, n: nat) {
    fetch(o, 0).Err? && (fetch(o, 1).Err? || IsShortAt(fetch, o, n, 1))
  }

  ghost predicate SomeRefused(fetch: Fetcher, n: nat, limit: nat) {
    exists o :: IsAsked(o, n, limit) && IsRefusedAt(fetch, o)
  }

  ghost predicate SomeShort(fetch: Fetcher, n: nat, limit: nat) {
    exists o :: IsAsked(o, n, limit) && IsShortAt(fetch, o, n, 0)
  }

  /** The least offset in trouble. */
  ghost predicate IsFirstTrouble(fetch: Fetcher, o: nat, n: nat, limit: nat) {
    IsAsked(o, n, limit) && IsTrouble(fetch, o, n) && forall p ::
      IsAsked(p, n, limit) && IsTrouble(fetch, p, n) ==> o <= p
  }

  ghost predicate SomeTrouble(fetch: Fetcher, n: nat, limit: nat) {
    exists o :: IsAsked(o, n, limit) && IsTrouble(fetch, o, n)
  }

  lemma AskedAreDue(n: nat, limit: nat, o: nat)
    ensures o in Offsets(Limit(n, limit)) <==> IsAsked(o, n, limit)
  {
    OffsetsAreMultiples(Limit(n, limit));
  }

  lemma EnoughIsNotShort(page: Page, o: nat, n: nat)
    ensures IsShort(page, o, n) <==> !HoldsEnough(page, o, n)
  {
  }

  lemma PoolStopIs(fetch: Fetcher, n: nat, limit: nat)
    ensures var due := Elements(Offsets(Limit(n, limit)));
      && (AnyRefused(fetch, due) <==> SomeRefused(fetch, n, limit))
      && (AnyShort(fetch, due, n) <==> SomeShort(fetch, n, limit))
  {
    forall o: nat
      ensures o in Elements(Offsets(Limit(n, limit))) <==> IsAsked(o, n, limit)
    {
      AskedAreDue(n, limit, o);
    }
    forall o: nat, page
      ensures IsShort(page, o, n) <==> !HoldsEnough(page, o, n)
    {
      EnoughIsNotShort(page, o, n);
    }
    var due := Elements(Offsets(Limit(n, limit)));
    if o :| IsAsked(o, n, limit) && IsRefusedAt(fetch, o) {
      assert o in due && IsRefused(fetch, o);
    }
    if o :| o in due && IsRefused(fetch, o) {
      assert IsAsked(o, n, limit) && IsRefusedAt(fetch, o);
    }
    if o :| IsAsked(o, n, limit) && IsShortAt(fetch, o, n, 0) {
      assert o in due && IsShort(fetch(o, 0).value, o, n);
    }
    if o :| o in due && fetch(o, 0).Ok? && IsShort(fetch(o, 0).value, o, n) {
      assert IsAsked(o, n, limit) && IsShortAt(fetch, o, n, 0);
    }
  }

  /** What an offset in trouble gives as the reason. */
  function TroubleOf(fetch: Fetcher, o: nat): Reason {
    if fetch(o, 1).Err? then Stopped(fetch(o, 1).error) else IncompleteSource
  }

  /** Over offsets in ascending order whose first try failed, the first trouble is the reason. */
  lemma {:induction false} RecoveryStopIs(fetch: Fetcher, order: seq<nat>, n: nat) returns (i: nat)
    requires forall k :: 0 <= k < |order| ==> fetch(order[k], 0).Err?
    ensures i <= |order| && forall k :: 0 <= k < i ==> !IsTrouble(fetch, order[k], n)
    ensures i < |order| ==> IsTrouble(fetch, order[i], n)
    ensures RecoveryStop(fetch, order, n, None) == if i < |order| then Some(TroubleOf(fetch, order[i])) else None
  {
    i := 0;
    if order != [] {
      var last := |order| - 1;
      i := RecoveryStopIs(fetch, order[..last], n);
      if i == last && fetch(order[last], 1).Ok? {
        EnoughIsNotShort(fetch(order[last], 1).value, order[last], n);
      }
      if i == last && !IsTrouble(fetch, order[last], n) {
        i := |order|;
      }
    }
  }

  lemma {:induction false} RecoveryKeeps(fetch: Fetcher, order: seq<nat>, n: nat, stop: Option<Reason>)
    requires stop.Some?
    ensures RecoveryStop(fetch, order, n, stop) == stop
  {
    if order != [] {
      RecoveryKeeps(fetch, order[..|order| - 1], n, stop);
    }
  }

  /** Without refusals and short first tries, the reason is the first trouble in ascending order. */
  lemma TroubleDecides(fetch: Fetcher, n: nat, limit: nat)
    requires !SomeRefused(fetch, n, limit) && !SomeShort(fetch, n, limit)
    ensures var stop := FinalStop(fetch, Offsets(Limit(n, limit)), n);
      && (stop.None? <==> !SomeTrouble(fetch, n, limit))
      && (forall o :: IsFirstTrouble(fetch, o, n, limit) ==> stop == Some(TroubleOf(fetch, o)))
      && (stop.Some? ==> exists o :: IsFirstTrouble(fetch, o, n, limit))
  {
    var due := Offsets(Limit(n, limit));
    PoolStopIs(fetch, n, limit);
    OffsetsAreMultiples(Limit(n, limit));
    FailuresAscend(fetch, due);
    var order := Failures(fetch, due);
    forall k | 0 <= k < |order|
      ensures fetch(order[k], 0).Err?
    {
      assert order[k] in order;
    }
    var i := RecoveryStopIs(fetch, order, n);
    forall o: nat
      ensures IsAsked(o, n, limit) && IsTrouble(fetch, o, n) <==>
        exists k :: 0 <= k < |order| && order[k] == o && IsTrouble(fetch, order[k], n)
    {
      AskedAreDue(n, limit, o);
      assert o in order <==> o in due && fetch(o, 0).Err?;
    }
    FirstOfAscending(fetch, n, limit, order, i);
  }

  lemma FirstOfAscending(fetch: Fetcher, n: nat, limit: nat, order: seq<nat>, i: nat)
    requires Ascends(order) && i <= |order| && (forall k :: 0 <= k < i ==> !IsTrouble(fetch, order[k], n))
    requires i < |order| ==> IsTrouble(fetch, order[i], n)
    requires forall o: nat :: IsAsked(o, n, limit) && IsTrouble(fetch, o, n) <==>
      exists k :: 0 <= k < |order| && order[k] == o && IsTrouble(fetch, order[k], n)
    ensures i < |order| <==> SomeTrouble(fetch, n, limit)
    ensures i < |order| ==> IsFirstTrouble(fetch, order[i], n, limit)
    ensures i < |order| ==> forall o :: IsFirstTrouble(fetch, o, n, limit) ==> o == order[i]
  {
    if i < |order| {
      assert IsAsked(order[i], n, limit);
      forall p | IsAsked(p, n, limit) && IsTrouble(fetch, p, n)
        ensures order[i] <= p
      {
        var k :| 0 <= k < |order| && order[k] == p && IsTrouble(fetch, order[k], n);
      }
    }
  }

  /**
   The reason for stopping, for a first page of 40 entries and a reported total: a refused first try; else a first try
   that comes short; else the first trouble in ascending order; else the limit, if it is below the total; else none.
   */
  lemma StopReasonIs(fetch: Fetcher, first: Page, n: nat, limit: nat)
    requires |first.entries| == 40
    ensures var stop := ExpectedStop(fetch, first, Some(n), limit);
      && (SomeRefused(fetch, n, limit) ==> stop == Some(Stopped(AuthFailed)))
      && (!SomeRefused(fetch, n, limit) && SomeShort(fetch, n, limit) ==> stop == Some(IncompleteSource))
      && (!SomeRefused(fetch, n, limit) && !SomeShort(fetch, n, limit) ==>
            && (forall o :: IsFirstTrouble(fetch, o, n, limit) ==> stop == Some(TroubleOf(fetch, o)))
            && (!SomeTrouble(fetch, n, limit) ==> stop == if 0 < limit < n then Some(MaxResults) else None))
    ensures SomeTrouble(fetch, n, limit) && !SomeRefused(fetch, n, limit) && !SomeShort(fetch, n, limit) ==>
      exists o :: IsFirstTrouble(fetch, o, n, limit)
  {
    var due := OffsetsDue(first, Some(n), limit);
    PoolStopIs(fetch, n, limit);
    if SomeRefused(fetch, n, limit) || SomeShort(fetch, n, limit) {
      var o :| IsAsked(o, n, limit);
      AskedAreDue(n, limit, o);
      RecoveryKeeps(fetch, Failures(fetch, due), n, PoolStop(fetch, Elements(due), n));
    } else {
      TroubleDecides(fetch, n, limit);
      if due == [] {
        assert FinalStop(fetch, due, n).None?;
      }
    }
  }

  /** An offset has its page: the first try holds enough or, if that failed, the second. */
  predicate IsServed(fetch: Fetcher, o: nat, n: nat) {
    || (fetch(o, 0).Ok? && HoldsEnough(fetch(o, 0).value, o, n))
    || (fetch(o, 0).Err? && !fetch(o, 0).error.AuthFailed? && fetch(o, 1).Ok? && HoldsEnough(fetch(o, 1).value, o, n))
  }

  /** For such a first page the listing is not truncated if and only if all is served and the limit cuts nothing off. */
  lemma CompleteIsNotTruncated(fetch: Fetcher, first: Page, n: nat, limit: nat)
    requires |first.entries| == 40
    ensures ExpectedStop(fetch, first, Some(n), limit).None?
       <==> (limit == 0 || limit >= n) && forall o: nat :: 40 <= o < n && o % 40 == 0 ==> IsServed(fetch, o, n)
  {
    StopReasonIs(fetch, first, n, limit);
    if limit == 0 || limit >= n {
      forall o: nat
        ensures IsAsked(o, n, limit) <==> 40 <= o < n && o % 40 == 0
      {
      }
      forall o: nat
        ensures IsServed(fetch, o, n) <==>
          !IsRefusedAt(fetch, o) && !IsShortAt(fetch, o, n, 0) && !IsTrouble(fetch, o, n)
      {
      }
      if forall o: nat :: 40 <= o < n && o % 40 == 0 ==> IsServed(fetch, o, n) {
        assert !SomeRefused(fetch, n, limit) && !SomeShort(fetch, n, limit) && !SomeTrouble(fetch, n, limit);
      } else {
        var o: nat :| 40 <= o < n && o % 40 == 0 && !IsServed(fetch, o, n);
        assert IsAsked(o, n, limit);
        assert SomeRefused(fetch, n, limit) || SomeShort(fetch, n, limit) || SomeTrouble(fetch, n, limit);
      }
    }
  }

  /** The reason when the first page does not lead on: it is the last one, or no total was reported. */
  lemma FirstPageDecides(fetch: Fetcher, first: Page, reported: Option<nat>, limit: nat)
    requires |first.entries| != 40 || reported.None?
    ensures ExpectedStop(fetch, first, reported, limit)
         == if |first.entries| == 40 then Some(UnknownTotal)
            else if reported.Some? && reported.value > |first.entries| then Some(IncompleteSource)
            else if reported.Some? && 0 < limit < reported.value then Some(MaxResults)
            else None
  {
  }

  // ---------- Not truncated means complete ----------

  function TotalEntries(fetch: Fetcher, offsets: seq<nat>): nat {
    if offsets == [] then 0
    else
      var last := |offsets| - 1;
      TotalEntries(fetch, offsets[..last])
        + if PageAt(fetch, offsets[last]).Ok? then |PageAt(fetch, offsets[last]).value.entries| else 0
  }

  lemma {:induction false} RecoveryIsFull(fetch: Fetcher, order: seq<nat>, reported: nat, stop: Option<Reason>, i: nat)
    requires RecoveryStop(fetch, order, reported, stop).None? && i < |order|
    ensures stop.None? && fetch(order[i], 1).Ok? && !IsShort(fetch(order[i], 1).value, order[i], reported)
    decreases |order|
  {
    var last := |order| - 1;
    if i < last {
      RecoveryIsFull(fetch, order[..last], reported, stop, i);
    } else if last > 0 {
      RecoveryIsFull(fetch, order[..last], reported, stop, 0);
    }
  }

  lemma {:induction false} RecoveryStartsClear(fetch: Fetcher, order: seq<nat>, reported: nat, stop: Option<Reason>)
    requires RecoveryStop(fetch, order, reported, stop).None?
    ensures stop.None?
  {
    if order != [] {
      RecoveryIsFull(fetch, order, reported, stop, 0);
    }
  }

  /** When nothing stops a run, every page comes in with all the entries that are due. */
  lemma NoStopIsFull(fetch: Fetcher, offsets: seq<nat>, reported: nat, offset: nat)
    requires Ascends(offsets) && FinalStop(fetch, offsets, reported).None? && offset in offsets
    ensures !AnyRefused(fetch, Elements(offsets))
    ensures PageAt(fetch, offset).Ok? && !IsShort(PageAt(fetch, offset).value, offset, reported)
  {
    var stop := PoolStop(fetch, Elements(offsets), reported);
    RecoveryStartsClear(fetch, Failures(fetch, offsets), reported, stop);
    assert offset in Elements(offsets);
    if fetch(offset, 0).Err? {
      FailuresAscend(fetch, offsets);
      var i :| 0 <= i < |Failures(fetch, offsets)| && Failures(fetch, offsets)[i] == offset;
      RecoveryIsFull(fetch, Failures(fetch, offsets), reported, stop, i);
    }
  }

  lemma {:induction false} FullPagesAddUp(fetch: Fetcher, reported: nat, count: nat)
    requires count <= |Offsets(reported)|
    requires forall o :: o in Offsets(reported) ==>
      PageAt(fetch, o).Ok? && !IsShort(PageAt(fetch, o).value, o, reported)
    ensures TotalEntries(fetch, Offsets(reported)[..count])
         >= if PAGE_SIZE * (count + 1) < reported then PAGE_SIZE * count else reported - PAGE_SIZE
  {
    if count > 0 {
      var offsets := Offsets(reported);
      assert offsets[..count][..count - 1] == offsets[..count - 1];
      FullPagesAddUp(fetch, reported, count - 1);
      assert offsets[count - 1] == PAGE_SIZE * count && offsets[count - 1] in offsets;
    }
  }

  /**
   If the listing is not truncated and a total is reported, every multiple of the page size below the total
   is collected exactly once, and the pages together hold at least that many entries.
   */
  lemma NotTruncatedIsComplete(fetch: Fetcher, first: Page, reported: nat, maxResults: nat, trace: seq<Event>,
                               workers: nat)
    requires |first.entries| <= PAGE_SIZE
    requires ExpectedStop(fetch, first, Some(reported), maxResults).None?
    requires IsDisciplined(trace, workers)
    requires !AnyRefused(fetch, Elements(OffsetsDue(first, Some(reported), maxResults))) ==>
      CollectsAll(fetch, OffsetsDue(first, Some(reported), maxResults), trace)
    ensures forall o: nat :: PAGE_SIZE <= o < reported && o % PAGE_SIZE == 0 ==> multiset(trace)[Collected(o)] == 1
    ensures |first.entries| + TotalEntries(fetch, Offsets(reported)) >= reported
  {
    var offsets := Offsets(reported);
    OffsetsAreMultiples(reported);
    if |first.entries| == PAGE_SIZE {
      forall o | o in offsets
        ensures !AnyRefused(fetch, Elements(offsets)) && PageAt(fetch, o).Ok?
          && !IsShort(PageAt(fetch, o).value, o, reported)
      {
        NoStopIsFull(fetch, offsets, reported, o);
      }
      FullPagesAddUp(fetch, reported, |offsets|);
      assert offsets[..|offsets|] == offsets;
      DisciplineMeans(trace, workers, 0);
      forall o: nat | o in offsets
        ensures multiset(trace)[Collected(o)] == 1
      {
        assert Collected(o) in trace;
        OnceInMultiset(trace, Collected(o));
      }
    }
  }
}
