/**
 The trace of system calls that a run of the retention helper leaves, and what it must satisfy.

 Other processes may act between any two calls; such a step is an `Interference` event and may turn
 the disk into any other disk.
 */
module RetentionTrace {
  import opened Outcomes
  import opened Filesystem
  import opened IdentityRecord
  import opened RetentionProtocol

  datatype Event = Event(call: Call, before: Disk, after: Disk)

  type Trace = seq<Event>

  predicate IsBarrier(call: Call) {
    call.Checkpoint? && call.step == BarrierComplete
  }

  /** Event `i` read this identity through a held descriptor of the inode. */
  predicate FstatShows(trace: Trace, i: int, node: NodeId, identity: Identity) {
    && 0 <= i < |trace| && trace[i].call.Fstat?
    && trace[i].call.node == node && trace[i].call.stat.identity == identity
  }

  predicate MovesAt(trace: Trace, c: int, record: Record, part: Part) {
    && 0 <= c < |trace| && trace[c].call.Rename?
    && trace[c].call.name == SourceName(record, part) && trace[c].call.newName == CapturedName(part)
  }

  /** The inode was read with its full recorded identity, then the move, then the captured identity. */
  predicate HeldAt(trace: Trace, record: Record, part: Part, node: NodeId, identity: Identity, i: int, c: int, j: int) {
    && i < c < j
    && FstatShows(trace, i, node, Expected(record, part))
    && MovesAt(trace, c, record, part)
    && FstatShows(trace, j, node, identity)
    && SameButCtime(Expected(record, part), identity)
  }

  ghost predicate Held(trace: Trace, record: Record, part: Part, node: NodeId, identity: Identity) {
    exists i, c, j :: HeldAt(trace, record, part, node, identity, i, c, j)
  }

  /** Event `p` found this identity at a name. */
  predicate PathShows(trace: Trace, p: int, dir: NodeId, name: Name, identity: Identity) {
    && 0 <= p < |trace| && trace[p].call.PathStat?
    && trace[p].call.dir == dir && trace[p].call.name == name
    && trace[p].call.found.Some? && trace[p].call.found.value.identity == identity
  }

  /** Between these two events a held descriptor and the captured name in the directory showed the identity. */
  predicate RereadAt(trace: Trace, q: int, b: int, dir: NodeId, part: Part, node: NodeId, identity: Identity, l: int,
                     p: int) {
    && q < l < p < b
    && FstatShows(trace, l, node, identity) && PathShows(trace, p, dir, CapturedName(part), identity)
  }

  ghost predicate Reread(trace: Trace, q: int, b: int, dir: NodeId, part: Part, node: NodeId, identity: Identity) {
    exists l, p :: RereadAt(trace, q, b, dir, part, node, identity, l, p)
  }

  /** The events that clear one half of a pair: read, moved, read as captured, and read again by handle and by path. */
  datatype Half = Half(node: NodeId, identity: Identity, i: int, c: int, j: int, l: int, p: int)

  /** What clears a pair: its barrier, and both halves. */
  datatype Clearance = Clearance(record: Record, dir: NodeId, q: int, b: int, manifest: Half, artifact: Half)

  /** The inode was captured before the barrier began, and read again inside it with the captured identity. */
  predicate IsConfirmed(trace: Trace, record: Record, part: Part, half: Half, dir: NodeId, q: int, b: int) {
    && HeldAt(trace, record, part, half.node, half.identity, half.i, half.c, half.j) && half.j < q
    && RereadAt(trace, q, b, dir, part, half.node, half.identity, half.l, half.p)
  }

  /** The barrier of the record, from the checkpoint before it to the one that declares it passed, is the last one. */
  predicate BarrierAt(trace: Trace, record: Record, q: int, b: int) {
    && 0 <= q < b < |trace|
    && trace[q].call == Checkpoint(BeforeBarrier, record.name)
    && trace[b].call == Checkpoint(BarrierComplete, record.name)
    && forall m :: b < m < |trace| ==> !IsBarrier(trace[m].call)
  }

  /** Both halves of the pair were read again inside one and the same barrier, and it has passed. */
  predicate IsCleared(trace: Trace, pair: Clearance) {
    && BarrierAt(trace, pair.record, pair.q, pair.b)
    && IsConfirmed(trace, pair.record, Manifest, pair.manifest, pair.dir, pair.q, pair.b)
    && IsConfirmed(trace, pair.record, Artifact, pair.artifact, pair.dir, pair.q, pair.b)
  }

  predicate Covers(pair: Clearance, node: NodeId) {
    node == pair.manifest.node || node == pair.artifact.node
  }

  /** The record under way is a listed one, names this inode, and its pair barrier has passed. */
  ghost predicate Authorized(trace: Trace, listed: seq<Record>, node: NodeId) {
    exists pair :: IsCleared(trace, pair) && pair.record in listed && Covers(pair, node)
  }

  /**
   A handle and after it the path showed the recorded identity, and then came the checkpoint before the capture. Since
   the look at the handle the helper has done nothing else.
   */
  predicate PreparedAt(trace: Trace, record: Record, part: Part, dir: NodeId, node: NodeId, i: int, p: int, c: int) {
    && i < p < c < |trace|
    && FstatShows(trace, i, node, Expected(record, part))
    && PathShows(trace, p, dir, SourceName(record, part), Expected(record, part))
    && trace[c].call == Checkpoint(BeforeCapture(part), record.name)
    && forall m :: i < m < |trace| && m != p && m != c ==> trace[m].call.Interference?
  }

  ghost predicate Prepared(trace: Trace, record: Record, part: Part, dir: NodeId) {
    exists node, i, p, c :: PreparedAt(trace, record, part, dir, node, i, p, c)
  }

  predicate IsCapture(call: Call, record: Record, part: Part) {
    call.Rename? && call.name == SourceName(record, part) && call.newName == CapturedName(part)
  }

  /** The move is the capture of a file of a listed record that was found as recorded immediately before. */
  ghost predicate MayMove(trace: Trace, listed: seq<Record>, call: Call) {
    && call.Rename?
    && exists record, part ::
         record in listed && IsCapture(call, record, part) && Prepared(trace, record, part, call.dir)
  }

  lemma PreparedMayMove(trace: Trace, e: Event, listed: seq<Record>, record: Record, part: Part, call: Call)
    requires IsCapture(call, record, part) && Prepared(trace, record, part, call.dir) && record in listed
    requires e.call.Interference?
    ensures MayMove(trace + [e], listed, call)
  {
    var node, i, p, c :| PreparedAt(trace, record, part, call.dir, node, i, p, c);
    assert PreparedAt(trace + [e], record, part, call.dir, node, i, p, c);
  }

  /** An event is interference, or one successful call; what precedes it authorizes a truncation or a move. */
  ghost predicate Lawful(trace: Trace, listed: seq<Record>, k: nat)
    requires k < |trace|
  {
    var e := trace[k];
    && (e.call.Interference? || (Enabled(e.call, e.before) && e.after == Apply(e.call, e.before)))
    && (e.call.Truncate? ==> Authorized(trace[..k], listed, e.call.node))
    && (e.call.Rename? ==> MayMove(trace[..k], listed, e.call))
    && (0 < k ==> trace[k - 1].after == e.before)
  }

  ghost predicate Conforms(trace: Trace, listed: seq<Record>) {
    forall k :: 0 <= k < |trace| ==> Lawful(trace, listed, k)
  }

  lemma ConformsAppend(trace: Trace, listed: seq<Record>, e: Event)
    requires Conforms(trace, listed)
    requires trace != [] ==> trace[|trace| - 1].after == e.before
    requires e.call.Interference? || (Enabled(e.call, e.before) && e.after == Apply(e.call, e.before))
    requires e.call.Truncate? ==> Authorized(trace, listed, e.call.node)
    requires e.call.Rename? ==> MayMove(trace, listed, e.call)
    ensures Conforms(trace + [e], listed)
  {
    forall k | 0 <= k < |trace|
      ensures Lawful(trace + [e], listed, k)
    {
      LawfulStays(trace, listed, e, k);
    }
    assert (trace + [e])[..|trace|] == trace;
  }

  lemma LawfulStays(trace: Trace, listed: seq<Record>, e: Event, k: nat)
    requires k < |trace| && Lawful(trace, listed, k)
    ensures Lawful(trace + [e], listed, k)
  {
    assert (trace + [e])[..k] == trace[..k];
  }

  lemma HeldExtends(trace: Trace, longer: Trace, record: Record, part: Part, node: NodeId, identity: Identity)
    requires Held(trace, record, part, node, identity) && trace <= longer
    ensures Held(longer, record, part, node, identity)
  {
    var i, c, j :| HeldAt(trace, record, part, node, identity, i, c, j);
    assert HeldAt(longer, record, part, node, identity, i, c, j);
  }

  lemma RereadExtends(trace: Trace, longer: Trace, q: int, b: int, dir: NodeId, part: Part, node: NodeId,
                      identity: Identity)
    requires Reread(trace, q, b, dir, part, node, identity) && trace <= longer
    ensures Reread(longer, q, b, dir, part, node, identity)
  {
    var l, p :| RereadAt(trace, q, b, dir, part, node, identity, l, p);
    assert RereadAt(longer, q, b, dir, part, node, identity, l, p);
  }

  /** A half that was held when the barrier began and read again in it is confirmed. */
  lemma HeldIsConfirmed(start: Trace, trace: Trace, record: Record, part: Part, node: NodeId, identity: Identity,
                        dir: NodeId, b: int) returns (half: Half)
    requires Held(start, record, part, node, identity) && start <= trace
    requires Reread(trace, |start|, b, dir, part, node, identity)
    ensures half.node == node && IsConfirmed(trace, record, part, half, dir, |start|, b)
  {
    var i, c, j :| HeldAt(start, record, part, node, identity, i, c, j);
    assert HeldAt(trace, record, part, node, identity, i, c, j);
    var l, p :| RereadAt(trace, |start|, b, dir, part, node, identity, l, p);
    half := Half(node, identity, i, c, j, l, p);
  }

  lemma ClearedExtends(trace: Trace, longer: Trace, pair: Clearance)
    requires IsCleared(trace, pair) && trace <= longer
    requires forall k :: |trace| <= k < |longer| ==> !IsBarrier(longer[k].call)
    ensures IsCleared(longer, pair)
  {
  }

  lemma ClearedAuthorizes(trace: Trace, pause: Event, listed: seq<Record>, pair: Clearance, node: NodeId)
    requires IsCleared(trace, pair) && pair.record in listed && Covers(pair, node) && pause.call.Interference?
    ensures Authorized(trace + [pause], listed, node)
  {
    ClearedExtends(trace, trace + [pause], pair);
  }

  /** What precedes it allows the call: a truncation and a move need leave. */
  ghost predicate IsPermitted(trace: Trace, listed: seq<Record>, call: Call) {
    (call.Truncate? ==> Authorized(trace, listed, call.node)) && (call.Rename? ==> MayMove(trace, listed, call))
  }

  /** What gives leave: nothing is needed, a file was found as recorded, or a pair was cleared. */
  datatype Leave = Free | ForMove(record: Record, part: Part) | ForReclaim(pair: Clearance)

  ghost predicate HasLeave(trace: Trace, listed: seq<Record>, call: Call, leave: Leave) {
    match leave
    case Free => !call.Rename? && !call.Truncate?
    case ForMove(record, part) =>
      IsCapture(call, record, part) && Prepared(trace, record, part, call.dir) && record in listed
    case ForReclaim(pair) =>
      call.Truncate? && IsCleared(trace, pair) && pair.record in listed && Covers(pair, call.node)
  }

  /** What other processes do takes no leave away. */
  lemma LeaveStays(trace: Trace, pause: Event, listed: seq<Record>, call: Call, leave: Leave)
    requires HasLeave(trace, listed, call, leave) && pause.call.Interference?
    ensures IsPermitted(trace + [pause], listed, call)
  {
    match leave
    case Free =>
    case ForMove(record, part) => PreparedMayMove(trace, pause, listed, record, part, call);
    case ForReclaim(pair) => ClearedAuthorizes(trace, pause, listed, pair, call.node);
  }

  // ---------- The protocol over a trace ----------

  /** The event is one that the protocol lets come next, and it leads from its spot to the next one. */
  ghost predicate Permits(trace: Trace, spots: seq<Spot>, listed: seq<Record>, uid: int, k: nat)
    requires k < |trace| && |spots| == |trace| + 1
  {
    MayFollow(spots[k], listed, uid, trace[k].call) && spots[k + 1] == Advance(spots[k], trace[k].call)
  }

  /** The helper went through these spots, one before every event and one at the end, and kept the protocol. */
  ghost predicate KeepsProtocol(trace: Trace, spots: seq<Spot>, listed: seq<Record>, uid: int) {
    && |spots| == |trace| + 1 && spots[0] == START
    && forall k :: 0 <= k < |trace| ==> Permits(trace, spots, listed, uid, k)
  }

  /** The helper kept the protocol, and this is where it is now. */
  ghost predicate LeadsTo(trace: Trace, spots: seq<Spot>, listed: seq<Record>, uid: int, spot: Spot) {
    KeepsProtocol(trace, spots, listed, uid) && spots[|trace|] == spot
  }

  lemma ProtocolGoesOn(trace: Trace, spots: seq<Spot>, listed: seq<Record>, uid: int, spot: Spot, e: Event)
    requires LeadsTo(trace, spots, listed, uid, spot) && Allows(spot, listed, uid, e.call)
    ensures LeadsTo(trace + [e], spots + [Advance(spot, e.call)], listed, uid, Advance(spot, e.call))
  {
    var next := spots + [Advance(spot, e.call)];
    forall k | 0 <= k <= |trace|
      ensures Permits(trace + [e], next, listed, uid, k)
    {
      assert k < |trace| ==> Permits(trace, spots, listed, uid, k);
    }
  }

  // ---------- What every conforming trace guarantees ----------

  lemma ConfirmedIsPinned(trace: Trace, listed: seq<Record>, record: Record, part: Part, half: Half, dir: NodeId,
                          q: int, b: int)
    requires Conforms(trace, listed) && IsConfirmed(trace, record, part, half, dir, q, b)
    ensures Pins(record, part, half.node)
  {
    assert Lawful(trace, listed, half.i);
  }

  /** A file that was captured is the recorded one. */
  lemma HeldIsRecorded(trace: Trace, listed: seq<Record>, record: Record, part: Part, node: NodeId, identity: Identity)
    requires Conforms(trace, listed) && Held(trace, record, part, node, identity)
    ensures Pins(record, part, node) && SameButCtime(Expected(record, part), identity)
  {
    var i, c, j :| HeldAt(trace, record, part, node, identity, i, c, j);
    assert Lawful(trace, listed, i);
  }

  lemma PrefixConforms(trace: Trace, listed: seq<Record>, n: nat)
    requires Conforms(trace, listed) && n <= |trace|
    ensures Conforms(trace[..n], listed)
  {
    forall k | 0 <= k < n
      ensures Lawful(trace[..n], listed, k)
    {
      assert Lawful(trace, listed, k);
      assert trace[..n][..k] == trace[..k];
    }
  }

  lemma TruncationIsCleared(trace: Trace, listed: seq<Record>, k: nat) returns (pair: Clearance)
    requires Conforms(trace, listed)
    requires k < |trace| && trace[k].call.Truncate?
    ensures IsCleared(trace[..k], pair) && pair.record in listed && Covers(pair, trace[k].call.node)
    ensures Pins(pair.record, Manifest, pair.manifest.node) && Pins(pair.record, Artifact, pair.artifact.node)
  {
    assert Lawful(trace, listed, k);
    PrefixConforms(trace, listed, k);
    pair :| IsCleared(trace[..k], pair) && pair.record in listed && Covers(pair, trace[k].call.node);
    ConfirmedIsPinned(trace[..k], listed, pair.record, Manifest, pair.manifest, pair.dir, pair.q, pair.b);
    ConfirmedIsPinned(trace[..k], listed, pair.record, Artifact, pair.artifact, pair.dir, pair.q, pair.b);
  }

  /**
   Whatever other processes do, an inode that the helper truncates is one of the two that the record under way names
   by device and inode number. Both of them, the other one too, were read through a descriptor with their full
   recorded identity before their capture, and inside the pair barrier of that record, the last one before the
   truncation, with their captured identity by descriptor and under their captured name. So dropping `ctime_ns` from
   the comparison lets no other file in, and neither half goes before the barrier has passed for both.
   */
  lemma TruncatesOnlyRecordedInodes(trace: Trace, listed: seq<Record>, k: nat)
    requires Conforms(trace, listed)
    requires k < |trace| && trace[k].call.Truncate?
    ensures exists pair ::
              && IsCleared(trace[..k], pair) && pair.record in listed && Covers(pair, trace[k].call.node)
              && Pins(pair.record, Manifest, pair.manifest.node) && Pins(pair.record, Artifact, pair.artifact.node)
  {
    var pair := TruncationIsCleared(trace, listed, k);
  }

  /**
   Whatever other processes do, the helper moves only the two files of listed records. Immediately before, a handle
   and then the path in the same directory showed the recorded identity, and since then the helper has only announced
   the capture.
   */
  lemma MovesOnlyVerifiedNames(trace: Trace, listed: seq<Record>, k: nat)
    requires Conforms(trace, listed)
    requires k < |trace| && trace[k].call.Rename?
    ensures exists record, part, node, i, p, c ::
              && record in listed && IsCapture(trace[k].call, record, part) && Pins(record, part, node)
              && PreparedAt(trace[..k], record, part, trace[k].call.dir, node, i, p, c)
  {
    assert Lawful(trace, listed, k);
    var call := trace[k].call;
    var record, part :|
      record in listed && IsCapture(call, record, part) && Prepared(trace[..k], record, part, call.dir);
    var node, i, p, c :| PreparedAt(trace[..k], record, part, call.dir, node, i, p, c);
    assert Lawful(trace, listed, i);
    assert Pins(record, part, node);
  }

  /** A step of the helper that changes the bytes of an inode comes after a barrier that names it. */
  lemma BytesChangeOnlyPastTheBarrier(trace: Trace, listed: seq<Record>, k: nat, node: NodeId)
    requires Conforms(trace, listed)
    requires k < |trace| && !trace[k].call.Interference?
    requires !SameBytes(trace[k].before, trace[k].after, node)
    ensures trace[k].call.Truncate? && trace[k].call.node == node
    ensures exists record, part, b ::
              && record in listed && Pins(record, part, node)
              && 0 <= b < k && trace[b].call == Checkpoint(BarrierComplete, record.name)
  {
    assert Lawful(trace, listed, k);
    CallsAreGentle(trace[k].call, trace[k].before);
    var pair := TruncationIsCleared(trace, listed, k);
    var part := if node == pair.manifest.node then Manifest else Artifact;
    assert Pins(pair.record, part, node) && trace[pair.b].call == Checkpoint(BarrierComplete, pair.record.name);
  }

  /**
   No step of the helper takes a name away: each one that a step finds is still there after it, or was
   moved by it to a name that was free, so an inode that had a name has one.
   */
  lemma NoStepUnlinks(trace: Trace, listed: seq<Record>, k: nat)
    requires Conforms(trace, listed)
    requires k < |trace| && !trace[k].call.Interference?
    ensures forall dir, name :: name in Live(trace[k].before, dir) ==>
              NameKept(trace[k].call, trace[k].before, trace[k].after, dir, name)
    ensures forall node :: Linked(trace[k].before, node) ==> Linked(trace[k].after, node)
    ensures trace[k].before.nodes.Keys <= trace[k].after.nodes.Keys
  {
    assert Lawful(trace, listed, k);
    CallsAreGentle(trace[k].call, trace[k].before);
  }

  predicate Undisturbed(trace: Trace) {
    forall k :: 0 <= k < |trace| && trace[k].call.Interference? ==> trace[k].after == trace[k].before
  }

  /** Over a whole run that nobody disturbs, every inode that starts with a name ends with one. */
  lemma {:induction false} UndisturbedRunUnlinksNothing(trace: Trace, listed: seq<Record>, node: NodeId)
    requires Conforms(trace, listed) && Undisturbed(trace) && trace != []
    requires Linked(trace[0].before, node)
    ensures Linked(trace[|trace| - 1].after, node)
  {
    var last := |trace| - 1;
    assert Lawful(trace, listed, last);
    if last > 0 {
      PrefixConforms(trace, listed, last);
      UndisturbedRunUnlinksNothing(trace[..last], listed, node);
    }
    if !trace[last].call.Interference? {
      NoStepUnlinks(trace, listed, last);
    }
  }
}
