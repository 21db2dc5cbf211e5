/** What surrounds the retention helper, and what can be said of a stretch of its trace. */
module RetentionWorld {
  import opened Outcomes
  import opened Filesystem
  import opened IdentityRecord
  import opened RetentionProtocol
  import opened RetentionTrace
  import opened RetentionStages
  import opened RetentionCrash
  import opened RetentionSpec
  import opened RetentionSurvival

  datatype Failure =
    | BadRecord | TooManyRecords | DuplicateNames | RelativeRoot
    | OsError | UnsafeFile | IdentityChanged | UnsafeDirectory | PathReplaced | WrongFilesystem
    | BudgetExceeded | NoQuarantineName | Aborted

  /**
   Everything outside the helper, by the number of the step at which it is asked: what other processes
   make of the disk, whether a checkpoint is acknowledged, whether a call fails for reasons of its own,
   the clock, the random part of a quarantine's name, and the inode number and mode of a new directory.
   */
  datatype Environment = Environment(
    act: (nat, Disk) -> Disk, goOn: nat -> bool, fault: nat -> bool, clock: nat -> int,
    token: nat -> string, newIno: (nat, Disk) -> int, mkdirMode: nat)
  {
    /** Nobody else touches the disk, and a new inode number is one that nobody has. */
    ghost predicate Alone() {
      && (forall n, d :: act(n, d) == d)
      && (forall n, d, dev :: NodeId(dev, newIno(n, d)) !in d.nodes && NodeId(dev, newIno(n, d)) !in d.dirs)
    }

    /** Every checkpoint is acknowledged, and no call fails by itself. */
    ghost predicate Faultless() {
      && (forall n :: goOn(n))
      && (forall n :: !fault(n))
    }

    /** With nobody else, a success shows the condition; without faults, the condition brings success. */
    ghost predicate Decides(ok: bool, condition: bool) {
      && (Alone() && ok ==> condition)
      && (Alone() && Faultless() && condition ==> ok)
    }
  }

  /** A point of the run: the trace so far and the disk. */
  datatype Mark = Mark(trace: Trace, disk: Disk)

  ghost predicate Visits(n: nat, trace: Trace, states: set<Disk>) {
    forall k :: n <= k < |trace| ==> trace[k].after in states
  }

  ghost predicate Continues(before: Trace, after: Trace) {
    |before| <= |after| && after[..|before|] == before
  }

  ghost predicate Grows(before: Trace, after: Trace) {
    && Continues(before, after)
    && forall k :: |before| <= k < |after| ==> !IsBarrier(after[k].call)
  }

  /** The steps that change the disk are those of other processes. */
  ghost predicate ChangesNothing(n: nat, trace: Trace) {
    forall k :: n <= k < |trace| && !trace[k].call.Interference? ==> trace[k].after == trace[k].before
  }

  /** Since the mark the helper changed nothing; if nobody else did, the disk is the same. */
  ghost predicate OnlyLooked(env: Environment, since: Mark, trace: Trace, disk: Disk) {
    && Grows(since.trace, trace)
    && ChangesNothing(|since.trace|, trace)
    && (env.Alone() ==> disk == since.disk && Visits(|since.trace|, trace, {since.disk}))
  }

  lemma FstatStays(before: Trace, after: Trace, i: int, node: NodeId, identity: Identity)
    requires FstatShows(before, i, node, identity) && Continues(before, after)
    ensures FstatShows(after, i, node, identity)
  {
    assert before[i] == after[..|before|][i];
  }

  lemma GrowsTwice(first: Trace, second: Trace, third: Trace)
    requires Grows(first, second) && Grows(second, third)
    ensures Grows(first, third)
  {
    assert third[..|first|] == second[..|first|];
    forall k | |first| <= k < |third|
      ensures !IsBarrier(third[k].call)
    {
      if k < |second| {
        assert third[k] == second[k];
      }
    }
  }

  /** A record about to be pruned: the disk now, the place, and what every state is to satisfy. */
  datatype Plan = Plan(d: Disk, site: Site, holds: Disk -> bool)

  ghost predicate AllHold(n: nat, trace: Trace, holds: Disk -> bool) {
    forall k :: n <= k < |trace| ==> holds(trace[k].after)
  }

  /** After any event of the trace, so many records are done and the next one may be at one of its stages. */
  ghost predicate AlwaysUnderWay(d0: Disk, root: NodeId, listed: seq<Record>, trace: Trace) {
    forall k :: 0 <= k < |trace| ==> IsUnderWay(d0, trace[k].after, root, listed)
  }

  /** After any event of the trace there are no more quarantines than allowed. */
  ghost predicate AlwaysWithinBudget(root: NodeId, trace: Trace) {
    forall k :: 0 <= k < |trace| ==> |Quarantines(Live(trace[k].after, root))| <= MAX_TOMBSTONES
  }

  /** A crash right after any event of the trace is safe. */
  ghost predicate AlwaysCrashSafe(d0: Disk, root: NodeId, listed: seq<Record>, trace: Trace) {
    forall k :: 0 <= k < |trace| ==> CrashSafe(d0, trace[k].after, root, listed)
  }

  /** A crash right after any event of the trace loses nothing but a file in transit. */
  ghost predicate AlwaysLosesLittle(d0: Disk, root: NodeId, listed: seq<Record>, trace: Trace) {
    forall k :: 0 <= k < |trace| ==> LosesOnlyInTransit(d0, trace[k].after, root, listed)
  }

  lemma UnderWayIsSafe(d0: Disk, root: NodeId, listed: seq<Record>, trace: Trace)
    requires Eligible(d0, root, listed) && AlwaysUnderWay(d0, root, listed, trace)
    ensures AlwaysWithinBudget(root, trace)
    ensures Published(d0, root, listed) ==> AlwaysCrashSafe(d0, root, listed, trace)
    ensures Settled(d0, root, listed) ==> AlwaysLosesLittle(d0, root, listed, trace)
  {
    forall n | 0 <= n < |trace|
      ensures |Quarantines(Live(trace[n].after, root))| <= MAX_TOMBSTONES
      ensures Published(d0, root, listed) ==> CrashSafe(d0, trace[n].after, root, listed)
      ensures Settled(d0, root, listed) ==> LosesOnlyInTransit(d0, trace[n].after, root, listed)
    {
      var k: nat :| IsMidway(d0, trace[n].after, root, listed, k);
      MidwayWithinBudget(d0, trace[n].after, root, listed, k);
      if Published(d0, root, listed) {
        MidwayIsCrashSafe(d0, trace[n].after, root, listed, k);
      }
      if Settled(d0, root, listed) {
        UnderWayLosesLittle(d0, trace[n].after, root, listed);
      }
    }
  }

  lemma ChangesTwice(first: nat, second: Trace, third: Trace)
    requires ChangesNothing(first, second) && ChangesNothing(|second|, third) && Continues(second, third)
    ensures ChangesNothing(first, third)
  {
    forall k | first <= k < |third| && !third[k].call.Interference?
      ensures third[k].after == third[k].before
    {
      if k < |second| {
        assert third[k] == second[k];
      }
    }
  }

  lemma LookedTwice(env: Environment, first: Mark, second: Mark, trace: Trace, disk: Disk)
    requires OnlyLooked(env, first, second.trace, second.disk) && OnlyLooked(env, second, trace, disk)
    ensures OnlyLooked(env, first, trace, disk)
  {
    GrowsTwice(first.trace, second.trace, trace);
    ChangesTwice(|first.trace|, second.trace, trace);
    if env.Alone() {
      VisitsTwice(|first.trace|, second.trace, trace, {first.disk});
    }
  }

  lemma VisitsHold(n: nat, trace: Trace, states: set<Disk>, holds: Disk -> bool)
    requires Visits(n, trace, states) && forall s :: s in states ==> holds(s)
    ensures AllHold(n, trace, holds)
  {
  }

  lemma VisitsTwice(first: nat, second: Trace, third: Trace, states: set<Disk>)
    requires Visits(first, second, states) && Visits(|second|, third, states) && Continues(second, third)
    ensures Visits(first, third, states)
  {
    forall k | first <= k < |third|
      ensures third[k].after in states
    {
      if k < |second| {
        assert third[k] == second[k];
      }
    }
  }

  lemma OneMore(trace: Trace, e: Event)
    ensures Continues(trace, trace + [e]) && Visits(|trace|, trace + [e], {e.after})
    ensures !IsBarrier(e.call) ==> Grows(trace, trace + [e])
  {
    assert (trace + [e])[..|trace|] == trace;
  }

  /** A pause and a call. */
  lemma TwoMore(trace: Trace, first: Event, second: Event)
    requires !IsBarrier(first.call) && !IsBarrier(second.call)
    ensures Grows(trace, trace + [first] + [second])
    ensures Visits(|trace|, trace + [first] + [second], {first.after, second.after})
  {
    OneMore(trace, first);
    OneMore(trace + [first], second);
    GrowsTwice(trace, trace + [first], trace + [first] + [second]);
    VisitsMore(|trace|, trace + [first], {first.after}, {first.after, second.after});
    VisitsMore(|trace + [first]|, trace + [first] + [second], {second.after}, {first.after, second.after});
    VisitsTwice(|trace|, trace + [first], trace + [first] + [second], {first.after, second.after});
  }

  lemma VisitsMore(n: nat, trace: Trace, states: set<Disk>, more: set<Disk>)
    requires Visits(n, trace, states) && states <= more
    ensures Visits(n, trace, more)
  {
  }

  lemma HoldTwice(first: nat, second: Trace, third: Trace, holds: Disk -> bool)
    requires AllHold(first, second, holds) && AllHold(|second|, third, holds) && Continues(second, third)
    ensures AllHold(first, third, holds)
  {
    forall k | first <= k < |third|
      ensures holds(third[k].after)
    {
      if k < |second| {
        assert third[k] == second[k];
      }
    }
  }
}
