/**
 What the protocol means for a trace: which events come before others, whatever other processes do between them.
 */
module RetentionLaws {
  import opened Outcomes
  import opened Filesystem
  import opened IdentityRecord
  import opened RetentionProtocol
  import opened RetentionTrace

  // ---------- What a spot remembers ----------

  /** The calls at these events. */
  function CallsAt(trace: Trace, at: seq<int>): seq<Call>
    requires forall i :: 0 <= i < |at| ==> 0 <= at[i] < |trace|
  {
    seq(|at|, i requires 0 <= i < |at| => trace[at[i]].call)
  }

  /** The events lie in order between the two, and apart from them others acted at most. */
  predicate Fills(trace: Trace, c: int, k: int, at: seq<int>) {
    && -1 <= c < k <= |trace|
    && (forall i :: 0 <= i < |at| ==> c < at[i] < k && !trace[at[i]].call.Checkpoint?)
    && (forall i, j :: 0 <= i < j < |at| ==> at[i] < at[j])
    && (forall m :: c < m < k && m !in at ==> trace[m].call.Interference?)
  }

  /** The last checkpoint before event `k` is event `c`, and the calls of the helper since then are those at `at`. */
  predicate Recalls(trace: Trace, spot: Spot, k: nat, c: int, at: seq<int>) {
    && Fills(trace, c, k, at) && CallsAt(trace, at) == spot.did
    && (c == -1 <==> spot.step.None?)
    && (0 <= c ==> spot.step.Some? && trace[c].call == Checkpoint(spot.step.value, spot.name))
  }

  /** A checkpoint forgets what was before it. */
  lemma CheckpointForgets(trace: Trace, spot: Spot, k: nat)
    requires k < |trace| && trace[k].call.Checkpoint?
    ensures Recalls(trace, Advance(spot, trace[k].call), k + 1, k, [])
  {
  }

  /** What others do leaves the events of the helper as they are. */
  lemma PauseFills(trace: Trace, c: int, k: int, at: seq<int>)
    requires Fills(trace, c, k, at) && k < |trace| && trace[k].call.Interference?
    ensures Fills(trace, c, k + 1, at)
  {
  }

  lemma CallFills(trace: Trace, c: int, k: int, at: seq<int>)
    requires Fills(trace, c, k, at) && k < |trace| && !trace[k].call.Checkpoint?
    ensures Fills(trace, c, k + 1, at + [k])
  {
    var more := at + [k];
    assert forall i :: 0 <= i < |at| ==> more[i] == at[i];
    forall m | c < m < k + 1 && m !in more
      ensures trace[m].call.Interference?
    {
      assert more[|at|] == k;
      assert m in at ==> m in more;
    }
  }

  lemma CallsGrow(trace: Trace, at: seq<int>, k: nat)
    requires k < |trace| && forall i :: 0 <= i < |at| ==> 0 <= at[i] < |trace|
    ensures CallsAt(trace, at + [k]) == CallsAt(trace, at) + [trace[k].call]
  {
  }

  /** Another call of the helper is added to what is remembered; what others do is not. */
  lemma CallIsAdded(trace: Trace, spot: Spot, k: nat, c: int, at: seq<int>)
    requires k < |trace| && !trace[k].call.Checkpoint? && Recalls(trace, spot, k, c, at)
    ensures Recalls(trace, Advance(spot, trace[k].call), k + 1, c,
                    if trace[k].call.Interference? then at else at + [k])
  {
    if trace[k].call.Interference? {
      PauseFills(trace, c, k, at);
    } else {
      CallFills(trace, c, k, at);
      CallsGrow(trace, at, k);
    }
  }

  /** One event leads from its spot to the next; past the first checkpoint only another one changes root or count. */
  lemma EventLeadsOn(trace: Trace, spots: seq<Spot>, listed: seq<Record>, uid: int, k: nat)
    requires KeepsProtocol(trace, spots, listed, uid) && k < |trace|
    ensures spots[k + 1] == Advance(spots[k], trace[k].call)
    ensures !trace[k].call.Checkpoint? && spots[k].step.Some? ==> !trace[k].call.OpenRoot?
    ensures !trace[k].call.Checkpoint? && spots[k].step.Some? ==>
              spots[k + 1].place.count == spots[k].place.count && spots[k + 1].place.root == spots[k].place.root
  {
    assert Permits(trace, spots, listed, uid, k);
  }

  /** Root and count are as they were after the last checkpoint. */
  predicate StaysSince(spots: seq<Spot>, c: int, k: nat) {
    0 <= c < k < |spots| ==>
      spots[k].place.count == spots[c + 1].place.count && spots[k].place.root == spots[c + 1].place.root
  }

  lemma MemoryGoesOn(trace: Trace, spots: seq<Spot>, listed: seq<Record>, uid: int, k: nat, c: int, at: seq<int>)
    returns (last: int, more: seq<int>)
    requires KeepsProtocol(trace, spots, listed, uid) && k < |trace|
    requires Recalls(trace, spots[k], k, c, at) && StaysSince(spots, c, k)
    ensures Recalls(trace, spots[k + 1], k + 1, last, more) && StaysSince(spots, last, k + 1)
  {
    EventLeadsOn(trace, spots, listed, uid, k);
    if trace[k].call.Checkpoint? {
      CheckpointForgets(trace, spots[k], k);
      last, more := k, [];
    } else {
      CallIsAdded(trace, spots[k], k, c, at);
      last, more := c, if trace[k].call.Interference? then at else at + [k];
    }
  }

  lemma {:induction false} SpotIsRemembered(trace: Trace, spots: seq<Spot>, listed: seq<Record>, uid: int, k: nat)
    returns (c: int, at: seq<int>)
    requires KeepsProtocol(trace, spots, listed, uid) && k <= |trace|
    ensures Recalls(trace, spots[k], k, c, at) && StaysSince(spots, c, k)
  {
    if k == 0 {
      return -1, [];
    }
    c, at := SpotIsRemembered(trace, spots, listed, uid, k - 1);
    c, at := MemoryGoesOn(trace, spots, listed, uid, k - 1, c, at);
  }

  // ---------- After a capture ----------

  /**
   The checkpoint after the capture, and then, with nothing else between, the thirteen looks that confirm it and pass
   the barrier after it.
   */
  predicate SecuredAt(trace: Trace, record: Record, part: Part, place: Place, uid: int, q: int, b: int, at: seq<int>) {
    && 0 <= q && Fills(trace, q, b, at) && trace[q].call == Checkpoint(Captured(part), record.name)
    && SecuredCapture(CallsAt(trace, at), place, uid, record, part)
  }

  /** After a move the helper waits for its checkpoint, and then for the looks. */
  predicate IsPending(spot: Spot, from: Spot, part: Part) {
    && spot.place == from.place && spot.name == from.name
    && (|| (spot.step == Some(BeforeCapture(part)) && spot.did != [])
        || spot.step == Some(Captured(part)))
  }

  /** While the helper waits, nothing is changed. */
  lemma PendingLooks(spot: Spot, from: Spot, listed: seq<Record>, uid: int, part: Part, call: Call)
    requires IsPending(spot, from, part) && MayFollow(spot, listed, uid, call) && !call.Checkpoint?
    ensures !IsChange(call) && IsPending(Advance(spot, call), from, part) && Advance(spot, call).step == spot.step
  {
  }

  /** It waits for its checkpoint, and then, once the looks are done, for the first sync. */
  lemma PendingReports(spot: Spot, from: Spot, listed: seq<Record>, uid: int, part: Part, call: Call)
    requires IsPending(spot, from, part) && MayFollow(spot, listed, uid, call) && call.Checkpoint?
    ensures || (&& call == Checkpoint(Captured(part), spot.name) && IsPending(Advance(spot, call), from, part))
            || (&& call == Checkpoint(BeforeSync(Capturing(part), false), spot.name)
                && spot.step == Some(Captured(part)) && 0 < spot.place.count <= |listed|
                && SecuredCapture(spot.did, spot.place, uid, listed[spot.place.count - 1], part))
  {
    if !call.step.HandlesOpened? && !call.step.PreflightComplete? {
      ReportIsNext(spot, uid, call.step, listed[spot.place.count - 1]);
      RankedIsListed(call.step);
    }
  }

  /** The checkpoint after the move at `c` is event `q`. */
  predicate FollowsAt(trace: Trace, c: int, q: int, m: int, part: Part, name: Name) {
    0 <= c < q < m <= |trace| && trace[q].call == Checkpoint(Captured(part), name)
  }

  /** Some time after a move its sync may come, and until then the helper waits. */
  lemma {:induction false} MoveIsFollowed(trace: Trace, spots: seq<Spot>, listed: seq<Record>, uid: int, c: nat, m: nat,
                                          part: Part)
    returns (q: int, b: int)
    requires KeepsProtocol(trace, spots, listed, uid) && c < m <= |trace|
    requires trace[c].call.Rename? && spots[c].step == Some(BeforeCapture(part))
    ensures b == -1 ==>
              && IsPending(spots[m], spots[c], part)
              && (spots[m].step == Some(Captured(part)) ==> FollowsAt(trace, c, q, m, part, spots[c].name))
    ensures b != -1 ==>
      b < m && FollowsAt(trace, c, q, b, part, spots[c].name) && IsSecured(spots, listed, uid, c, b, part)
  {
    if m == c + 1 {
      EventLeadsOn(trace, spots, listed, uid, c);
      return -1, -1;
    }
    q, b := MoveIsFollowed(trace, spots, listed, uid, c, m - 1, part);
    if b == -1 {
      PendingGoesOn(trace, spots, listed, uid, c, m - 1, part);
      if !IsPending(spots[m], spots[c], part) {
        b := m - 1;
      } else if trace[m - 1].call.Checkpoint? {
        q := m - 1;
      }
    }
  }

  /** At this event the looks after the capture are done. */
  predicate IsSecured(spots: seq<Spot>, listed: seq<Record>, uid: int, c: nat, b: int, part: Part) {
    && 0 <= b < |spots| && c < |spots| && spots[b].place == spots[c].place && spots[b].name == spots[c].name
    && spots[b].step == Some(Captured(part)) && 0 < spots[b].place.count <= |listed|
    && SecuredCapture(spots[b].did, spots[b].place, uid, listed[spots[b].place.count - 1], part)
  }

  /** One event later the helper still waits, or the looks are done. */
  lemma PendingGoesOn(trace: Trace, spots: seq<Spot>, listed: seq<Record>, uid: int, c: nat, k: nat, part: Part)
    requires KeepsProtocol(trace, spots, listed, uid) && c < k < |trace| && IsPending(spots[k], spots[c], part)
    ensures IsPending(spots[k + 1], spots[c], part) || IsSecured(spots, listed, uid, c, k, part)
    ensures trace[k].call.Checkpoint? && IsPending(spots[k + 1], spots[c], part) ==>
              trace[k].call == Checkpoint(Captured(part), spots[c].name)
    ensures !trace[k].call.Checkpoint? ==> IsPending(spots[k + 1], spots[c], part) && spots[k + 1].step == spots[k].step
  {
    assert Permits(trace, spots, listed, uid, k);
    if !trace[k].call.Checkpoint? {
      PendingLooks(spots[k], spots[c], listed, uid, part, trace[k].call);
    } else {
      PendingReports(spots[k], spots[c], listed, uid, part, trace[k].call);
    }
  }

  /** What a move of the protocol is. */
  lemma MoveIsCapture(trace: Trace, spots: seq<Spot>, listed: seq<Record>, uid: int, c: nat)
    returns (record: Record, part: Part)
    requires KeepsProtocol(trace, spots, listed, uid) && c < |trace| && trace[c].call.Rename?
    ensures spots[c].step == Some(BeforeCapture(part)) && spots[c].name == record.name
    ensures IsCurrent(spots[c].place, listed, record) && IsCapture(trace[c].call, record, part)
    ensures trace[c].call.dir == spots[c].place.root && trace[c].call.destination == spots[c].place.home.dir
  {
    assert Permits(trace, spots, listed, uid, c);
    record, part := listed[spots[c].place.count - 1], spots[c].step.value.part;
  }

  /** While the helper waits, nothing is changed. */
  lemma PendingChangesNothing(trace: Trace, spots: seq<Spot>, listed: seq<Record>, uid: int, c: nat, n: nat, part: Part)
    requires KeepsProtocol(trace, spots, listed, uid) && c < n < |trace| && IsChange(trace[n].call)
    ensures !IsPending(spots[n], spots[c], part)
  {
    assert Permits(trace, spots, listed, uid, n);
    if IsPending(spots[n], spots[c], part) {
      PendingLooks(spots[n], spots[c], listed, uid, part, trace[n].call);
    }
  }

  /** The looks since a checkpoint that is known come after it. */
  lemma LooksComeAfter(trace: Trace, spots: seq<Spot>, listed: seq<Record>, uid: int, q: nat, b: nat)
    returns (c: int, at: seq<int>)
    requires KeepsProtocol(trace, spots, listed, uid) && q < b <= |trace| && trace[q].call.Checkpoint?
    ensures q <= c && Recalls(trace, spots[b], b, c, at)
  {
    c, at := SpotIsRemembered(trace, spots, listed, uid, b);
  }

  /**
   Whatever other processes do, before the helper changes anything after a capture, be it the first sync or the capture
   of the other file, it has confirmed the capture and passed the barrier after it. The captured name opened the inode
   with the recorded identity but for `ctime_ns`, the name and the source handle showed the same, and the old name was
   gone. Then the held root and its path, and the held quarantine and its name in the root, were each one private
   directory, and the held inode, a new handle and the captured name showed the captured identity.
   */
  lemma CapturesAreSecured(trace: Trace, spots: seq<Spot>, listed: seq<Record>, uid: int, c: nat, n: nat)
    requires KeepsProtocol(trace, spots, listed, uid) && c < n < |trace|
    requires trace[c].call.Rename? && IsChange(trace[n].call)
    ensures exists record, part, place: Place, q, b, at ::
              && record in listed && IsCapture(trace[c].call, record, part)
              && trace[c].call.dir == place.root && trace[c].call.destination == place.home.dir
              && c < q && b < n && SecuredAt(trace, record, part, place, uid, q, b, at)
  {
    var record, part := MoveIsCapture(trace, spots, listed, uid, c);
    var q, b := MoveIsFollowed(trace, spots, listed, uid, c, n, part);
    PendingChangesNothing(trace, spots, listed, uid, c, n, part);
    var last, at := LooksComeAfter(trace, spots, listed, uid, q, b);
    assert SecuredAt(trace, record, part, spots[b].place, uid, last, b, at);
  }

  // ---------- Every record is verified ----------

  /**
   Both files of the record were opened and found by handle as recorded, then came the checkpoint `h`, and then, with
   nothing else between, both were found as recorded again, by handle and after that by path.
   */
  predicate VerifiedAt(trace: Trace, record: Record, root: NodeId, deleting: bool, h: int, n: int, first: seq<int>,
                       again: seq<int>) {
    && 0 <= h < n <= |trace| && trace[h].call == Checkpoint(HandlesOpened(deleting), record.name)
    && OpenedBefore(trace, record, root, h, first)
    && Fills(trace, h, n, again) && RereadsPair(CallsAt(trace, again), root, record)
  }

  predicate OpenedBefore(trace: Trace, record: Record, root: NodeId, h: int, first: seq<int>) {
    && h <= |trace| && |first| == 4 && (forall i :: 0 <= i < 4 ==> 0 <= first[i] < h)
    && (forall i, j :: 0 <= i < j < 4 ==> first[i] < first[j])
    && (forall m :: first[0] < m < h && m !in first ==> trace[m].call.Interference?)
    && OpensPair(CallsAt(trace, first), 0, root, record)
  }

  ghost predicate IsVerified(trace: Trace, record: Record, root: NodeId, deleting: bool, n: int) {
    exists h, m, first, again :: m <= n && VerifiedAt(trace, record, root, deleting, h, m, first, again)
  }

  /** Before its checkpoint the files of the next record were opened. */
  lemma OpeningIsSeen(trace: Trace, spots: seq<Spot>, listed: seq<Record>, uid: int, h: nat) returns (first: seq<int>)
    requires KeepsProtocol(trace, spots, listed, uid) && h < |trace|
    requires trace[h].call.Checkpoint? && trace[h].call.step.HandlesOpened?
    ensures spots[h].place.count < |listed| && spots[h + 1].place == Next(spots[h].place)
    ensures OpenedBefore(trace, listed[spots[h].place.count], spots[h].place.root, h, first)
  {
    assert Permits(trace, spots, listed, uid, h);
    var c, at := SpotIsRemembered(trace, spots, listed, uid, h);
    first := at[|at| - 4..];
    LastFour(trace, c, h, at, spots[h].place.root, listed[spots[h].place.count]);
  }

  lemma LastFour(trace: Trace, c: int, h: nat, at: seq<int>, root: NodeId, record: Record)
    requires Fills(trace, c, h, at) && 4 <= |at| && OpensPair(CallsAt(trace, at), |at| - 4, root, record)
    ensures OpenedBefore(trace, record, root, h, at[|at| - 4..])
  {
    var first := at[|at| - 4..];
    assert forall i :: 0 <= i < 4 ==> first[i] == at[|at| - 4 + i];
    forall m | first[0] < m < h && m !in first
      ensures trace[m].call.Interference?
    {
      assert m !in at;
    }
  }

  /** A record that is verified at some spot was verified by the events before it. */
  lemma VerifiedIsSeen(trace: Trace, spots: seq<Spot>, listed: seq<Record>, uid: int, k: nat, deleting: bool)
    requires KeepsProtocol(trace, spots, listed, uid) && k <= |trace| && HasVerified(spots[k], listed, deleting)
    ensures IsVerified(trace, listed[spots[k].place.count - 1], spots[k].place.root, deleting, k)
  {
    var h, again := SpotIsRemembered(trace, spots, listed, uid, k);
    var first := OpeningIsSeen(trace, spots, listed, uid, h);
    assert spots[k].name == listed[spots[k].place.count - 1].name by {
      assert Permits(trace, spots, listed, uid, h);
    }
    assert VerifiedAt(trace, listed[spots[k].place.count - 1], spots[k].place.root, deleting, h, k, first, again);
  }

  predicate InPreflight(spot: Spot) {
    spot.step.None? || spot.step == Some(HandlesOpened(false))
  }

  /** How many records a spot of the preflight has behind it. */
  function Behind(spot: Spot, listed: seq<Record>): int {
    if spot.step.None? then 0
    else if 0 < spot.place.count <= |listed| && RereadsPair(spot.did, spot.place.root, listed[spot.place.count - 1])
    then spot.place.count
    else spot.place.count - 1
  }

  /** The records behind a spot of the preflight are verified. */
  ghost predicate VerifiedSoFar(trace: Trace, spot: Spot, listed: seq<Record>, n: int) {
    && Behind(spot, listed) <= |listed| && (spot.step.None? ==> spot.place.count == 0)
    && forall i :: 0 <= i < Behind(spot, listed) ==> IsVerified(trace, listed[i], spot.place.root, false, n)
  }

  /** A call that is no checkpoint leaves a spot of the preflight in it, with as much behind it or one record more. */
  lemma PreflightLooks(trace: Trace, spots: seq<Spot>, listed: seq<Record>, uid: int, k: nat)
    requires KeepsProtocol(trace, spots, listed, uid) && k < |trace| && !trace[k].call.Checkpoint?
    requires InPreflight(spots[k]) && VerifiedSoFar(trace, spots[k], listed, k)
    ensures InPreflight(spots[k + 1]) && VerifiedSoFar(trace, spots[k + 1], listed, k + 1)
  {
    EventLeadsOn(trace, spots, listed, uid, k);
    LookPutsBehind(spots[k], trace[k].call, listed);
    if Behind(spots[k + 1], listed) != Behind(spots[k], listed) {
      VerifiedIsSeen(trace, spots, listed, uid, k + 1, false);
    }
    forall i | 0 <= i < Behind(spots[k], listed)
      ensures IsVerified(trace, listed[i], spots[k].place.root, false, k + 1)
    {
      StaysVerified(trace, listed[i], spots[k].place.root, k);
    }
  }

  lemma StaysVerified(trace: Trace, record: Record, root: NodeId, n: int)
    requires IsVerified(trace, record, root, false, n)
    ensures IsVerified(trace, record, root, false, n + 1)
  {
    var h, m, first, again :| m <= n && VerifiedAt(trace, record, root, false, h, m, first, again);
  }

  /** A call of the preflight leaves what is behind, or is the last look of the record under way. */
  lemma LookPutsBehind(spot: Spot, call: Call, listed: seq<Record>)
    requires InPreflight(spot) && !call.Checkpoint? && (call.OpenRoot? ==> spot.step.None?)
    ensures var after := Advance(spot, call);
            || Behind(after, listed) == Behind(spot, listed)
            || (HasVerified(after, listed, false) && Behind(after, listed) == Behind(spot, listed) + 1)
  {
    var after := Advance(spot, call);
    assert forall i :: 0 <= i < |spot.did| ==> after.did[i] == spot.did[i];
  }

  /** The preflight turns to a record when those before it are behind it. */
  lemma PreflightTurns(spot: Spot, listed: seq<Record>, uid: int, call: Call)
    requires MayFollow(spot, listed, uid, call) && call.Checkpoint? && (spot.step.None? ==> spot.place.count == 0)
    requires call.step == HandlesOpened(false) || call.step == PreflightComplete
    ensures InPreflight(spot) && Behind(spot, listed) == spot.place.count <= |listed|
    ensures call.step == PreflightComplete ==> spot.place.count == |listed|
  {
    if spot.step.Some? && call.step.HandlesOpened? {
      var n := |spot.did| - 4;
      assert forall i :: 0 <= i < n ==> spot.did[..n][i] == spot.did[i];
    }
  }

  lemma PreflightOpens(trace: Trace, spots: seq<Spot>, listed: seq<Record>, uid: int, k: nat)
    requires KeepsProtocol(trace, spots, listed, uid) && k < |trace|
    requires trace[k].call.Checkpoint? && trace[k].call.step == HandlesOpened(false)
    requires spots[k].step.None? ==> spots[k].place.count == 0
    requires InPreflight(spots[k]) ==> VerifiedSoFar(trace, spots[k], listed, k)
    ensures VerifiedSoFar(trace, spots[k + 1], listed, k + 1)
  {
    assert Permits(trace, spots, listed, uid, k);
    PreflightTurns(spots[k], listed, uid, trace[k].call);
  }

  lemma {:induction false} PreflightSoFar(trace: Trace, spots: seq<Spot>, listed: seq<Record>, uid: int, k: nat)
    requires KeepsProtocol(trace, spots, listed, uid) && k <= |trace|
    ensures InPreflight(spots[k]) ==> VerifiedSoFar(trace, spots[k], listed, k)
    ensures spots[k].step.None? ==> spots[k].place.count == 0
  {
    if k > 0 {
      PreflightSoFar(trace, spots, listed, uid, k - 1);
      EventLeadsOn(trace, spots, listed, uid, k - 1);
      if !trace[k - 1].call.Checkpoint? {
        if InPreflight(spots[k - 1]) {
          PreflightLooks(trace, spots, listed, uid, k - 1);
        }
      } else if trace[k - 1].call.step == HandlesOpened(false) {
        PreflightOpens(trace, spots, listed, uid, k - 1);
      }
    }
  }

  /**
   Whatever other processes do, the preflight is complete only when every listed record has been opened, has passed its
   own checkpoint, and was after that found as recorded, both files by handle and then both by path.
   */
  lemma PreflightVerifiesAll(trace: Trace, spots: seq<Spot>, listed: seq<Record>, uid: int, k: nat)
    requires KeepsProtocol(trace, spots, listed, uid) && k < |trace|
    requires trace[k].call.Checkpoint? && trace[k].call.step == PreflightComplete
    ensures forall record :: record in listed ==> IsVerified(trace, record, spots[k].place.root, false, k)
  {
    PreflightSoFar(trace, spots, listed, uid, k);
    assert Permits(trace, spots, listed, uid, k);
    PreflightTurns(spots[k], listed, uid, trace[k].call);
  }

  /**
   Whatever other processes do, the helper makes a quarantine only for a listed record that was verified once more, and
   since then it has only announced the deletion.
   */
  lemma QuarantinesFollowVerification(trace: Trace, spots: seq<Spot>, listed: seq<Record>, uid: int, n: nat)
    requires KeepsProtocol(trace, spots, listed, uid) && n < |trace| && trace[n].call.Mkdir?
    ensures exists record, k ::
              && record in listed && 0 <= k < n && trace[k].call == Checkpoint(BeforeDelete, record.name)
              && (forall m :: k < m < n ==> trace[m].call.Interference?)
              && IsVerified(trace, record, trace[n].call.dir, true, k)
  {
    var k := MkdirIsAnnounced(trace, spots, listed, uid, n);
    DeletionIsVerified(trace, spots, listed, uid, k);
  }

  lemma MkdirIsAnnounced(trace: Trace, spots: seq<Spot>, listed: seq<Record>, uid: int, n: nat) returns (k: nat)
    requires KeepsProtocol(trace, spots, listed, uid) && n < |trace| && trace[n].call.Mkdir?
    ensures k < n && trace[k].call == Checkpoint(BeforeDelete, spots[n].name)
    ensures forall m :: k < m < n ==> trace[m].call.Interference?
    ensures spots[k].place.root == trace[n].call.dir
  {
    assert Permits(trace, spots, listed, uid, n);
    var c, at := SpotIsRemembered(trace, spots, listed, uid, n);
    EventLeadsOn(trace, spots, listed, uid, c);
    k := c;
  }

  lemma DeletionIsVerified(trace: Trace, spots: seq<Spot>, listed: seq<Record>, uid: int, k: nat)
    requires KeepsProtocol(trace, spots, listed, uid) && k < |trace|
    requires trace[k].call.Checkpoint? && trace[k].call.step == BeforeDelete
    ensures 0 < spots[k].place.count <= |listed|
    ensures trace[k].call.record == listed[spots[k].place.count - 1].name
    ensures IsVerified(trace, listed[spots[k].place.count - 1], spots[k].place.root, true, k)
  {
    assert Permits(trace, spots, listed, uid, k);
    VerifiedIsSeen(trace, spots, listed, uid, k, true);
  }

  // ---------- The barrier and the tombstones ----------

  /** Between the two checkpoints of a barrier, and with nothing else between, are its eight looks. */
  predicate BarrierSeenAt(trace: Trace, record: Record, place: Place, uid: int, q: int, b: int, at: seq<int>) {
    && 0 <= q && Fills(trace, q, b, at) && trace[q].call == Checkpoint(BeforeBarrier, record.name)
    && PassesPairBarrier(CallsAt(trace, at), place.root, place.home, uid, record)
  }

  /**
   Whatever other processes do, a barrier is declared passed only after the held root and its path, and the held
   quarantine and its name, were each one private directory, and then both held inodes and both captured names showed
   the captured identities of the record.
   */
  lemma BarriersAreWhole(trace: Trace, spots: seq<Spot>, listed: seq<Record>, uid: int, b: nat)
    requires KeepsProtocol(trace, spots, listed, uid) && b < |trace| && IsBarrier(trace[b].call)
    ensures exists record, q, at :: record in listed && trace[b].call.record == record.name
              && BarrierSeenAt(trace, record, spots[b].place, uid, q, b, at)
  {
    assert Permits(trace, spots, listed, uid, b);
    var q, at := SpotIsRemembered(trace, spots, listed, uid, b);
    assert BarrierSeenAt(trace, listed[spots[b].place.count - 1], spots[b].place, uid, q, b, at);
  }

  /** After the second reclamation, and with nothing else between, are the ten looks at what is left. */
  predicate TombstonesSeenAt(trace: Trace, record: Record, place: Place, uid: int, q: int, b: int, at: seq<int>) {
    && 0 <= q && Fills(trace, q, b, at) && trace[q].call == Checkpoint(Reclaimed(Artifact), record.name)
    && KeepsTombstones(CallsAt(trace, at), place.root, place.home, uid, record)
  }

  /** Whatever other processes do, tombstones are synced only after both were found empty, by handle and by name. */
  lemma TombstonesAreSeen(trace: Trace, spots: seq<Spot>, listed: seq<Record>, uid: int, b: nat)
    requires KeepsProtocol(trace, spots, listed, uid) && b < |trace|
    requires trace[b].call.Checkpoint? && trace[b].call.step == BeforeSync(Retaining, false)
    ensures exists record, q, at :: record in listed && trace[b].call.record == record.name
              && TombstonesSeenAt(trace, record, spots[b].place, uid, q, b, at)
  {
    assert Permits(trace, spots, listed, uid, b);
    var q, at := SpotIsRemembered(trace, spots, listed, uid, b);
    assert TombstonesSeenAt(trace, listed[spots[b].place.count - 1], spots[b].place, uid, q, b, at);
  }

  // ---------- The order of the checkpoints ----------

  /** The checkpoints of one record, once the preflight is complete. */
  const RECORD_STEPS: seq<Step> := [
    HandlesOpened(true), BeforeDelete,
    BeforeSync(Creating, false), Synced(Creating, false), BeforeSync(Creating, true), Synced(Creating, true),
    MadeDurable(Creating),
    BeforeCapture(Manifest), Captured(Manifest),
    BeforeSync(Capturing(Manifest), false), Synced(Capturing(Manifest), false),
    BeforeSync(Capturing(Manifest), true), Synced(Capturing(Manifest), true), MadeDurable(Capturing(Manifest)),
    BeforeCapture(Artifact), Captured(Artifact),
    BeforeSync(Capturing(Artifact), false), Synced(Capturing(Artifact), false),
    BeforeSync(Capturing(Artifact), true), Synced(Capturing(Artifact), true), MadeDurable(Capturing(Artifact)),
    BeforeBarrier, BarrierComplete, Reclaimed(Manifest), Reclaimed(Artifact),
    BeforeSync(Retaining, false), Synced(Retaining, false), BeforeSync(Retaining, true), Synced(Retaining, true),
    MadeDurable(Retaining)]

  /** The place of a checkpoint among those of its record. */
  function Rank(step: Step): nat {
    match step
    case HandlesOpened(_) => 0
    case PreflightComplete => 0
    case BeforeDelete => 1
    case BeforeSync(phase, ofRoot) => PhaseRank(phase) + if ofRoot then 2 else 0
    case Synced(phase, ofRoot) => PhaseRank(phase) + if ofRoot then 3 else 1
    case MadeDurable(phase) => PhaseRank(phase) + 4
    case BeforeCapture(part) => if part.Manifest? then 7 else 14
    case Captured(part) => if part.Manifest? then 8 else 15
    case BeforeBarrier => 21
    case BarrierComplete => 22
    case Reclaimed(part) => if part.Manifest? then 23 else 24
  }

  function PhaseRank(phase: Phase): nat {
    match phase
    case Creating => 2
    case Capturing(part) => if part.Manifest? then 9 else 16
    case Retaining => 25
  }

  /** Checkpoint number `p` of a run over these records. */
  ghost predicate IsScripted(listed: seq<Record>, p: int, step: Step, name: Name) {
    || (0 <= p < |listed| && step == HandlesOpened(false) && name == listed[p].name)
    || (p == |listed| && step == PreflightComplete && name == "")
    || exists i, j :: IsRecordStep(listed, p, step, name, i, j)
  }

  predicate IsRecordStep(listed: seq<Record>, p: int, step: Step, name: Name, i: int, j: int) {
    && 0 <= i < |listed| && 0 <= j < |RECORD_STEPS| && p == |listed| + 1 + 30 * i + j
    && step == RECORD_STEPS[j] && name == listed[i].name
  }

  function CheckpointsIn(trace: Trace, k: nat): nat
    requires k <= |trace|
  {
    if k == 0 then 0 else CheckpointsIn(trace, k - 1) + if trace[k - 1].call.Checkpoint? then 1 else 0
  }

  /** How many checkpoints a spot has behind it. */
  function Passed(spot: Spot, n: nat): int {
    if spot.step.None? then 0
    else if spot.step.value == HandlesOpened(false) then spot.place.count
    else if spot.step.value == PreflightComplete then n + 1
    else n + 1 + 30 * (spot.place.count - 1) + Rank(spot.step.value) + 1
  }

  predicate IsSound(spot: Spot) {
    && (spot.step.None? ==> spot.place.count == 0)
    && (spot.step == Some(PreflightComplete) ==> spot.place.count == 0)
  }

  /** Within a record each checkpoint is the next one. */
  lemma ReportIsNext(spot: Spot, uid: int, step: Step, record: Record)
    requires MayReport(spot, uid, step, record)
    ensures spot.step.Some? && Rank(step) == Rank(spot.step.value) + 1
    ensures spot.step.value != HandlesOpened(false) && spot.step.value != PreflightComplete
  {
  }

  lemma CheckpointIsNext(spot: Spot, listed: seq<Record>, uid: int, call: Call)
    requires IsSound(spot) && MayFollow(spot, listed, uid, call) && call.Checkpoint?
    ensures IsSound(Advance(spot, call)) && Passed(Advance(spot, call), |listed|) == Passed(spot, |listed|) + 1
    ensures IsScripted(listed, Passed(spot, |listed|), call.step, call.record)
  {
    if call.step != HandlesOpened(false) && call.step != PreflightComplete {
      RankedIsListed(call.step);
      var i := Advance(spot, call).place.count - 1;
      if !call.step.HandlesOpened? {
        ReportIsNext(spot, uid, call.step, listed[i]);
      }
      assert IsRecordStep(listed, Passed(spot, |listed|), call.step, call.record, i, Rank(call.step));
    }
  }

  lemma RankedIsListed(step: Step)
    requires step != HandlesOpened(false) && step != PreflightComplete
    ensures Rank(step) < |RECORD_STEPS| == 30 && RECORD_STEPS[Rank(step)] == step
  {
  }

  lemma {:induction false} CheckpointsAreCounted(trace: Trace, spots: seq<Spot>, listed: seq<Record>, uid: int, k: nat)
    requires KeepsProtocol(trace, spots, listed, uid) && k <= |trace|
    ensures IsSound(spots[k]) && CheckpointsIn(trace, k) == Passed(spots[k], |listed|)
  {
    if k > 0 {
      CheckpointsAreCounted(trace, spots, listed, uid, k - 1);
      EventLeadsOn(trace, spots, listed, uid, k - 1);
      if trace[k - 1].call.Checkpoint? {
        assert Permits(trace, spots, listed, uid, k - 1);
        CheckpointIsNext(spots[k - 1], listed, uid, trace[k - 1].call);
      }
    }
  }

  /**
   Whatever other processes do, the checkpoints of a run come in one order: one for every record, the end of the
   preflight, and then for one record after the other the thirty of `RECORD_STEPS`.
   */
  lemma CheckpointsAreScripted(trace: Trace, spots: seq<Spot>, listed: seq<Record>, uid: int, k: nat)
    requires KeepsProtocol(trace, spots, listed, uid) && k < |trace| && trace[k].call.Checkpoint?
    ensures IsScripted(listed, CheckpointsIn(trace, k), trace[k].call.step, trace[k].call.record)
  {
    CheckpointsAreCounted(trace, spots, listed, uid, k);
    assert Permits(trace, spots, listed, uid, k);
    CheckpointIsNext(spots[k], listed, uid, trace[k].call);
  }

  /** A run that has finished all its records has passed all the checkpoints. */
  lemma FinishedRunsAreWhole(trace: Trace, spots: seq<Spot>, listed: seq<Record>, uid: int)
    requires KeepsProtocol(trace, spots, listed, uid) && HasFinished(spots[|trace|], |listed|)
    ensures CheckpointsIn(trace, |trace|) == |listed| + 1 + 30 * |listed|
  {
    CheckpointsAreCounted(trace, spots, listed, uid, |trace|);
  }
}
