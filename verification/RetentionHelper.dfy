/**
 The retention helper itself: each system call with what other processes may do around it, and the
 protocol that captures a pair, passes one barrier and reclaims its bytes.
 */
module RetentionHelper {
  import opened Outcomes
  import opened Filesystem
  import opened IdentityRecord
  import opened RetentionProtocol
  import opened RetentionTrace
  import opened RetentionStages
  import opened RetentionCrash
  import opened RetentionSpec
  import opened RetentionSurvival
  import opened RetentionWorld

  const MAX_RECORDS: nat := 64
  const NAME_ATTEMPTS: nat := 16

  class Helper {
    const env: Environment
    const uid: int
    var disk: Disk
    var ticks: nat
    ghost var trace: Trace
    ghost var listed: seq<Record>
    ghost var spots: seq<Spot>
    ghost var spot: Spot

    ghost predicate Valid()
      reads this
    {
      && Conforms(trace, listed) && (trace != [] ==> trace[|trace| - 1].after == disk)
      && LeadsTo(trace, spots, listed, uid, spot)
    }

    constructor (env: Environment, uid: int, disk: Disk)
      ensures Valid() && trace == [] && this.disk == disk && this.env == env && this.uid == uid
    {
      this.env, this.uid, this.disk, this.ticks := env, uid, disk, 0;
      trace, listed, spots, spot := [], [], [START], START;
    }

    // ---------- System calls ----------

    /** Other processes act, and the next call may turn out to fail. */
    method Yield() returns (failed: bool)
      requires Valid()
      modifies `disk, `ticks, `trace, `spots
      ensures Valid() && ticks == old(ticks) + 1
      ensures trace == old(trace) + [Event(Interference, old(disk), disk)]
      ensures env.Alone() ==> disk == old(disk)
      ensures env.Faultless() ==> !failed
    {
      ghost var before := disk;
      disk := env.act(ticks, disk);
      failed := env.fault(ticks);
      ticks := ticks + 1;
      ConformsAppend(trace, listed, Event(Interference, before, disk));
      ProtocolGoesOn(trace, spots, listed, uid, spot, Event(Interference, before, disk));
      trace, spots := trace + [Event(Interference, before, disk)], spots + [spot];
    }

    /** One successful call. */
    method Perform(call: Call)
      requires Valid() && Enabled(call, disk)
      requires IsPermitted(trace, listed, call)
      requires Allows(spot, listed, uid, call)
      modifies `disk, `trace, `spots, `spot
      ensures Valid() && disk == Apply(call, old(disk))
      ensures trace == old(trace) + [Event(call, old(disk), disk)]
      ensures spot == Advance(old(spot), call)
    {
      ghost var before := disk;
      disk := Apply(call, disk);
      ConformsAppend(trace, listed, Event(call, before, disk));
      ProtocolGoesOn(trace, spots, listed, uid, spot, Event(call, before, disk));
      spot := Advance(spot, call);
      trace, spots := trace + [Event(call, before, disk)], spots + [spot];
    }

    /** One successful look. */
    method Observe(call: Call)
      requires Valid() && Enabled(call, disk) && IsLook(call)
      modifies `disk, `trace, `spots, `spot
      ensures Valid() && disk == old(disk)
      ensures trace == old(trace) + [Event(call, disk, disk)]
      ensures spot == Look(old(spot), call)
    {
      LooksAreAllowed(spot, listed, uid, call);
      Perform(call);
    }

    /** Other processes act, and then the call is made if it can succeed and does not fail by itself. */
    method PauseThen(call: Call, ghost leave: Leave) returns (r: Outcome<(), Failure>)
      requires Valid() && !call.Checkpoint? && HasLeave(trace, listed, call, leave)
      requires Allows(spot, listed, uid, call)
      modifies `disk, `ticks, `trace, `spots, `spot
      ensures Valid() && Grows(old(trace), trace)
      ensures r.Ok? ==> |trace| == |old(trace)| + 2 && trace[|old(trace)| + 1].call == call
      ensures env.Decides(r.Ok?, Enabled(call, old(disk)))
      ensures env.Alone() && r.Ok? ==> Enabled(call, old(disk)) && disk == Apply(call, old(disk))
      ensures env.Alone() && r.Err? ==> disk == old(disk)
      ensures env.Alone() ==> Visits(|old(trace)|, trace, {old(disk), disk})
      ensures r.Ok? ==> spot == Act(old(spot), call)
    {
      var failed := YieldBefore(call, leave);
      ghost var pause := Event(Interference, old(disk), disk);
      r := Attempt(call, failed);
      PausedThen(old(trace), pause, call, trace, disk, r.Ok?);
    }

    /** Other processes act, which takes no leave away. */
    method YieldBefore(ghost call: Call, ghost leave: Leave) returns (failed: bool)
      requires Valid() && HasLeave(trace, listed, call, leave)
      modifies `disk, `ticks, `trace, `spots
      ensures Valid() && IsPermitted(trace, listed, call)
      ensures trace == old(trace) + [Event(Interference, old(disk), disk)]
      ensures env.Alone() ==> disk == old(disk)
      ensures env.Faultless() ==> !failed
    {
      failed := Yield();
      LeaveStays(old(trace), Event(Interference, old(disk), disk), listed, call, leave);
    }

    /** What a pause and an attempt leave of the trace. */
    lemma PausedThen(before: Trace, pause: Event, call: Call, after: Trace, disk: Disk, ok: bool)
      requires pause.call.Interference? && !IsBarrier(call)
      requires after == before + [pause] + if ok then [Event(call, pause.after, disk)] else []
      ensures Grows(before, after)
      ensures ok ==> |after| == |before| + 2 && after[|before| + 1].call == call
      ensures pause.after == pause.before && (!ok ==> disk == pause.after) ==>
        Visits(|before|, after, {pause.before, disk})
    {
      OneMore(before, pause);
      if ok {
        TwoMore(before, pause, Event(call, pause.after, disk));
      } else {
        assert after == before + [pause];
      }
    }

    /** The call if it can succeed and does not fail by itself. */
    method Attempt(call: Call, failed: bool) returns (r: Outcome<(), Failure>)
      requires Valid() && !call.Checkpoint? && IsPermitted(trace, listed, call)
      requires Allows(spot, listed, uid, call)
      modifies `disk, `trace, `spots, `spot
      ensures Valid()
      ensures r.Ok? <==> !failed && Enabled(call, old(disk))
      ensures r.Ok? ==> disk == Apply(call, old(disk)) && trace == old(trace) + [Event(call, old(disk), disk)]
      ensures r.Err? ==> disk == old(disk) && trace == old(trace)
      ensures r.Ok? ==> spot == Act(old(spot), call)
    {
      if failed || !Enabled(call, disk) { return Err(OsError); }
      Perform(call);
      return Ok(());
    }

    method Checkpoint(step: Step, name: Name, ghost since: Mark) returns (r: Outcome<(), Failure>)
      requires Valid() && OnlyLooked(env, since, trace, disk)
      requires step != BarrierComplete
      requires Allows(spot, listed, uid, Call.Checkpoint(step, name))
      modifies `disk, `ticks, `trace, `spots, `spot
      ensures Valid() && OnlyLooked(env, since, trace, disk) && Grows(old(trace), trace)
      ensures |trace| == |old(trace)| + 2 && trace[|old(trace)|].call == Call.Checkpoint(step, name)
      ensures trace[|old(trace)| + 1].call.Interference?
      ensures env.Faultless() ==> r.Ok?
      ensures spot == Spot(Turned(old(spot.place), step), Some(step), name, [])
    {
      Perform(Call.Checkpoint(step, name));
      var asked := ticks;
      var failed := Yield();
      return if failed || !env.goOn(asked) then Err(Aborted) else Ok(());
    }

    /** `os.fstat` through a held descriptor; a descriptor is the inode it was opened on. */
    method Fstat(fd: NodeId, ghost since: Mark) returns (r: Outcome<Stat, Failure>)
      requires Valid() && OnlyLooked(env, since, trace, disk)
      modifies `disk, `ticks, `trace, `spots, `spot
      ensures Valid() && OnlyLooked(env, since, trace, disk) && Grows(old(trace), trace)
      ensures r.Ok? ==> |old(trace)| < |trace| && FstatShows(trace, |trace| - 1, fd, r.value.identity)
      ensures r.Ok? ==> r.value.identity.dev == fd.dev && r.value.identity.ino == fd.ino
      ensures env.Decides(r.Ok?, fd in disk.nodes)
      ensures env.Alone() && r.Ok? ==> StatNode(disk, fd) == Some(r.value)
      ensures r.Ok? ==> spot == Look(old(spot), Call.Fstat(fd, r.value))
    {
      var failed := Yield();
      var found := StatNode(disk, fd);
      if failed || found.None? {
        return Err(OsError);
      }
      Observe(Call.Fstat(fd, found.value));
      return Ok(found.value);
    }

    /** `os.stat` of a name in a held directory; `None` is a missing name. */
    method PathStat(dir: NodeId, name: Name, ghost since: Mark) returns (r: Outcome<Option<Stat>, Failure>)
      requires Valid() && OnlyLooked(env, since, trace, disk)
      modifies `disk, `ticks, `trace, `spots, `spot
      ensures Valid() && OnlyLooked(env, since, trace, disk) && Grows(old(trace), trace)
      ensures r.Ok? ==> |trace| == |old(trace)| + 2 && trace[|old(trace)|].call.Interference?
      ensures r.Ok? && r.value.Some? ==> PathShows(trace, |trace| - 1, dir, name, r.value.value.identity)
      ensures env.Alone() && r.Ok? ==> r.value == StatAt(disk, dir, name)
      ensures env.Faultless() ==> r.Ok?
      ensures r.Ok? ==> spot == Look(old(spot), Call.PathStat(dir, name, r.value))
    {
      var failed := Yield();
      if failed {
        return Err(OsError);
      }
      var found := StatAt(disk, dir, name);
      Observe(Call.PathStat(dir, name, found));
      return Ok(found);
    }

    /** A no-follow open of a name in a held directory. */
    method OpenAt(dir: NodeId, name: Name, writable: bool, ghost since: Mark) returns (r: Outcome<NodeId, Failure>)
      requires Valid() && OnlyLooked(env, since, trace, disk)
      modifies `disk, `ticks, `trace, `spots, `spot
      ensures Valid() && OnlyLooked(env, since, trace, disk) && Grows(old(trace), trace)
      ensures env.Alone() && env.Faultless() && StatAt(disk, dir, name).Some?
              && StatAt(disk, dir, name).value.kind == Regular ==>
                r.Ok?
      ensures env.Alone() && r.Ok? ==> Names(disk, dir, name, r.value) && r.value in disk.nodes
      ensures r.Ok? ==> spot == Look(old(spot), Open(dir, name, r.value))
    {
      var failed := Yield();
      var found := StatAt(disk, dir, name);
      if failed || found.None? || found.value.kind == Other || (writable && found.value.kind == Directory) {
        return Err(OsError);
      }
      Observe(Open(dir, name, Live(disk, dir)[name]));
      return Ok(Live(disk, dir)[name]);
    }

    /** An exact-identity check of a held descriptor. */
    method AssertHandle(fd: NodeId, expected: Identity, part: Part, ghost since: Mark) returns (r: Outcome<(), Failure>)
      requires Valid() && OnlyLooked(env, since, trace, disk)
      modifies `disk, `ticks, `trace, `spots, `spot
      ensures Valid() && OnlyLooked(env, since, trace, disk) && Grows(old(trace), trace)
      ensures r.Ok? ==> |old(trace)| < |trace| && FstatShows(trace, |trace| - 1, fd, expected)
      ensures r.Ok? ==> expected.dev == fd.dev && expected.ino == fd.ino
      ensures env.Decides(r.Ok?, IsExactFile(StatNode(disk, fd), expected, part))
      ensures r.Ok? ==> Looks(old(spot), spot, 1) && ShowsHandle(spot.did[|old(spot).did|], fd, expected, part)
    {
      var stat :- Fstat(fd, since);
      if !IsSafeFile(stat, part) {
        return Err(UnsafeFile);
      }
      return if stat.identity == expected then Ok(()) else Err(IdentityChanged);
    }

    /** An exact-identity check of a path. */
    method AssertPath(dir: NodeId, name: Name, expected: Identity, part: Part, ghost since: Mark)
      returns (r: Outcome<(), Failure>)
      requires Valid() && OnlyLooked(env, since, trace, disk)
      modifies `disk, `ticks, `trace, `spots, `spot
      ensures Valid() && OnlyLooked(env, since, trace, disk) && Grows(old(trace), trace)
      ensures r.Ok? ==> |trace| == |old(trace)| + 2 && trace[|old(trace)|].call.Interference?
      ensures r.Ok? ==> PathShows(trace, |trace| - 1, dir, name, expected)
      ensures env.Decides(r.Ok?, IsExactFile(StatAt(disk, dir, name), expected, part))
      ensures r.Ok? ==> Looks(old(spot), spot, 1) && ShowsPath(spot.did[|old(spot).did|], dir, name, expected, part)
    {
      var found :- PathStat(dir, name, since);
      if found.None? {
        return Err(OsError);
      }
      if !IsSafeFile(found.value, part) {
        return Err(UnsafeFile);
      }
      return if found.value.identity == expected then Ok(()) else Err(IdentityChanged);
    }

    /** The directory behind a descriptor and the directory behind a path are one private directory. */
    predicate MatchesPrivately(handle: Stat, path: Option<Stat>) {
      && IsPrivateDirectory(handle, uid)
      && path.Some? && IsPrivateDirectory(path.value, uid) && handle.identity == path.value.identity
    }

    predicate RootIsLive(d: Disk, root: NodeId) {
      d.top == Some(root) && root in d.nodes && IsPrivateDirectory(StatOf(root, d.nodes[root]), uid)
    }

    predicate DirectoryIsLive(d: Disk, root: NodeId, name: Name, dir: NodeId) {
      && name in Live(d, root) && Live(d, root)[name] == dir
      && dir in d.nodes && IsPrivateDirectory(StatOf(dir, d.nodes[dir]), uid)
    }

    method AssertRootLive(root: NodeId, ghost since: Mark) returns (r: Outcome<(), Failure>)
      requires Valid() && OnlyLooked(env, since, trace, disk)
      modifies `disk, `ticks, `trace, `spots, `spot
      ensures Valid() && OnlyLooked(env, since, trace, disk) && Grows(old(trace), trace)
      ensures env.Decides(r.Ok?, RootIsLive(disk, root))
      ensures r.Ok? ==> Looks(old(spot), spot, 2) && RootAgrees(spot.did, |old(spot).did|, root, uid)
    {
      var handle :- Fstat(root, since);
      var found :- StatRoot(since);
      if env.Alone() {
        TopIdentity(disk, root);
      }
      return if MatchesPrivately(handle, found) then Ok(()) else Err(UnsafeDirectory);
    }

    /** `os.stat` of the root's path; `None` is a missing one. */
    method StatRoot(ghost since: Mark) returns (r: Outcome<Option<Stat>, Failure>)
      requires Valid() && OnlyLooked(env, since, trace, disk)
      modifies `disk, `ticks, `trace, `spots, `spot
      ensures Valid() && OnlyLooked(env, since, trace, disk) && Grows(old(trace), trace)
      ensures env.Alone() && r.Ok? ==> r.value == TopStat(disk)
      ensures env.Faultless() ==> r.Ok?
      ensures r.Ok? ==> spot == Look(old(spot), RootStat(r.value))
    {
      var failed := Yield();
      if failed {
        return Err(OsError);
      }
      var found := TopStat(disk);
      Observe(RootStat(found));
      return Ok(found);
    }

    function TopStat(d: Disk): Option<Stat> {
      if d.top.Some? then StatNode(d, d.top.value) else None
    }

    /** Device and inode number tell directories apart. */
    lemma TopIdentity(d: Disk, root: NodeId)
      ensures root in d.nodes && d.top.Some? && d.top.value in d.nodes
              && StatOf(root, d.nodes[root]).identity == StatOf(d.top.value, d.nodes[d.top.value]).identity
              ==> d.top == Some(root)
    {
      if d.top.Some? {
        assert d.top.value == NodeId(d.top.value.dev, d.top.value.ino);
        assert root == NodeId(root.dev, root.ino);
      }
    }

    lemma SameIdentityIsNamed(d: Disk, dir: NodeId, name: Name, node: NodeId)
      ensures StatAt(d, dir, name).Some? && StatNode(d, node).Some?
              && StatAt(d, dir, name).value.identity == StatNode(d, node).value.identity ==>
                Names(d, dir, name, node)
    {
      assert node == NodeId(node.dev, node.ino);
      if StatAt(d, dir, name).Some? {
        var found := Live(d, dir)[name];
        assert found == NodeId(found.dev, found.ino);
      }
    }

    method AssertDirectoryLive(root: NodeId, dir: NodeId, name: Name, ghost since: Mark)
      returns (r: Outcome<(), Failure>)
      requires Valid() && OnlyLooked(env, since, trace, disk)
      modifies `disk, `ticks, `trace, `spots, `spot
      ensures Valid() && OnlyLooked(env, since, trace, disk) && Grows(old(trace), trace)
      ensures env.Decides(r.Ok?, DirectoryIsLive(disk, root, name, dir))
      ensures r.Ok? ==>
        Looks(old(spot), spot, 2) && DirectoryAgrees(spot.did, |old(spot).did|, root, Home(name, dir), uid)
    {
      var handle :- Fstat(dir, since);
      var found :- PathStat(root, name, since);
      if env.Alone() {
        SameIdentityIsNamed(disk, root, name, dir);
      }
      return if MatchesPrivately(handle, found) then Ok(()) else Err(UnsafeDirectory);
    }

    // ---------- The protocol ----------

    /** Opens both files of a pair and checks each, by handle and by path, against its record. */
    method VerifyPair(root: NodeId, record: Record, deleting: bool, ghost since: Mark) returns (r: Outcome<(), Failure>)
      requires Valid() && OnlyLooked(env, since, trace, disk)
      requires IsNext(spot.place, listed, root, record) && MayTurn(spot, listed, uid, deleting)
      modifies `disk, `ticks, `trace, `spots, `spot
      ensures Valid() && OnlyLooked(env, since, trace, disk)
      ensures env.Decides(r.Ok?, PairMatches(disk, root, record))
      ensures r.Ok? ==>
        HasVerified(spot, listed, deleting) && spot.place == Next(old(spot.place)) && spot.name == record.name
    {
      var handles :- OpenPair(root, record, since);
      MayOpenNow(old(spot), spot, listed, uid, root, record, deleting);
      var _ :- Checkpoint(HandlesOpened(deleting), record.name, since);
      r := RereadPair(root, record, handles.0, handles.1, since);
    }

    /** Opens both files of a pair, the artifact first, and checks them by handle. */
    method OpenPair(root: NodeId, record: Record, ghost since: Mark) returns (r: Outcome<(NodeId, NodeId), Failure>)
      requires Valid() && OnlyLooked(env, since, trace, disk)
      modifies `disk, `ticks, `trace, `spots, `spot
      ensures Valid() && OnlyLooked(env, since, trace, disk)
      ensures r.Ok? ==> Looks(old(spot), spot, 4) && OpensPair(spot.did, |old(spot).did|, root, record)
      ensures env.Alone() && r.Ok? ==> StandsFor(disk, root, record, r.value.0, r.value.1)
      ensures env.Alone() && env.Faultless() && PairMatches(disk, root, record) ==> r.Ok?
    {
      var artifact :- OpenAt(root, record.name, false, since);
      var manifest :- OpenAt(root, ManifestName(record.name), false, since);
      var _ :- AssertHandle(artifact, record.artifact, Artifact, since);
      var _ :- AssertHandle(manifest, record.manifest, Manifest, since);
      return Ok((artifact, manifest));
    }

    /** The two names lead to these inodes, which are as recorded. */
    predicate StandsFor(d: Disk, root: NodeId, record: Record, artifact: NodeId, manifest: NodeId) {
      && Names(d, root, record.name, artifact) && Names(d, root, ManifestName(record.name), manifest)
      && IsExactFile(StatNode(d, artifact), record.artifact, Artifact)
      && IsExactFile(StatNode(d, manifest), record.manifest, Manifest)
    }

    /** Checks both files of a pair again, by handle and then by path. */
    method RereadPair(root: NodeId, record: Record, artifact: NodeId, manifest: NodeId, ghost since: Mark)
      returns (r: Outcome<(), Failure>)
      requires Valid() && OnlyLooked(env, since, trace, disk) && spot.did == []
      modifies `disk, `ticks, `trace, `spots, `spot
      ensures Valid() && OnlyLooked(env, since, trace, disk)
      ensures r.Ok? ==> Looks(old(spot), spot, 4) && RereadsPair(spot.did, root, record)
      ensures env.Alone() && r.Ok? ==> PairMatches(disk, root, record)
      ensures env.Alone() && env.Faultless() && StandsFor(disk, root, record, artifact, manifest) ==> r.Ok?
    {
      var _ :- AssertHandle(artifact, record.artifact, Artifact, since);
      var _ :- AssertHandle(manifest, record.manifest, Manifest, since);
      var _ :- AssertPath(root, record.name, record.artifact, Artifact, since);
      r := AssertPath(root, ManifestName(record.name), record.manifest, Manifest, since);
    }

    function Flushed(d: Disk, fd: NodeId): Disk {
      if fd in d.nodes then Apply(Fsync(fd), d) else d
    }

    /** `fsync` of a held descriptor. */
    method SyncNow(fd: NodeId) returns (r: Outcome<(), Failure>)
      requires Valid()
      requires Allows(spot, listed, uid, Fsync(fd))
      modifies `disk, `ticks, `trace, `spots, `spot
      ensures Valid() && Grows(old(trace), trace)
      ensures env.Alone() ==> Visits(|old(trace)|, trace, {old(disk), Flushed(old(disk), fd)})
      ensures env.Alone() && r.Ok? ==> disk == Flushed(old(disk), fd)
      ensures env.Decides(r.Ok?, fd in old(disk).nodes)
      ensures r.Ok? ==> spot == Look(old(spot), Fsync(fd))
    {
      var failed := Yield();
      if failed || fd !in disk.nodes {
        return Err(OsError);
      }
      Perform(Fsync(fd));
      return Ok(());
    }

    /** `fsync` of a held descriptor between its two checkpoints. */
    method Sync(fd: NodeId, name: Name, phase: Phase, ofRoot: bool) returns (r: Outcome<(), Failure>)
      requires Valid()
      requires Allows(spot, listed, uid, Call.Checkpoint(BeforeSync(phase, ofRoot), name))
      requires fd == SyncTarget(spot.place, ofRoot)
      modifies `disk, `ticks, `trace, `spots, `spot
      ensures Valid() && Grows(old(trace), trace)
      ensures env.Alone() ==> Visits(|old(trace)|, trace, {old(disk), Flushed(old(disk), fd)})
      ensures env.Alone() && r.Ok? ==> disk == Flushed(old(disk), fd)
      ensures env.Alone() && env.Faultless() && fd in old(disk).nodes ==> r.Ok?
      ensures r.Ok? ==> spot == Spot(old(spot.place), Some(Synced(phase, ofRoot)), name, [])
    {
      ghost var states := {old(disk), Flushed(old(disk), fd)};
      AllowedIsNamed(spot, listed, uid, Call.Checkpoint(BeforeSync(phase, ofRoot), name));
      r := Checkpoint(BeforeSync(phase, ofRoot), name, Mark(trace, disk));
      ghost var asked := trace;
      if env.Alone() {
        VisitsMore(|old(trace)|, asked, {old(disk)}, states);
      }
      if r.Err? { return; }
      r := SyncAndReport(fd, name, phase, ofRoot);
      GrowsTwice(old(trace), asked, trace);
      if env.Alone() {
        VisitsTwice(|old(trace)|, asked, trace, states);
      }
    }

    /** `fsync` of a held descriptor, and the checkpoint after it. */
    method SyncAndReport(fd: NodeId, name: Name, phase: Phase, ofRoot: bool) returns (r: Outcome<(), Failure>)
      requires Valid() && fd == SyncTarget(spot.place, ofRoot)
      requires spot == Spot(spot.place, Some(BeforeSync(phase, ofRoot)), name, []) && IsNamed(spot.place, listed, name)
      modifies `disk, `ticks, `trace, `spots, `spot
      ensures Valid() && Grows(old(trace), trace)
      ensures env.Alone() ==> Visits(|old(trace)|, trace, {old(disk), Flushed(old(disk), fd)})
      ensures env.Alone() && r.Ok? ==> disk == Flushed(old(disk), fd)
      ensures env.Alone() && env.Faultless() && fd in old(disk).nodes ==> r.Ok?
      ensures r.Ok? ==> spot == Spot(old(spot.place), Some(Synced(phase, ofRoot)), name, [])
    {
      ghost var states := {old(disk), Flushed(old(disk), fd)};
      SyncIsAllowed(spot, listed, uid);
      r := SyncNow(fd);
      if r.Err? { return; }
      ghost var synced := Mark(trace, disk);
      r := Checkpoint(Synced(phase, ofRoot), name, synced);
      GrowsTwice(old(trace), synced.trace, trace);
      if env.Alone() {
        VisitsMore(|synced.trace|, trace, {disk}, states);
        VisitsTwice(|old(trace)|, synced.trace, trace, states);
      }
    }

    /** A capture that is free to succeed. */
    predicate CanCapture(d: Disk, root: NodeId, quarantine: NodeId, record: Record, part: Part) {
      && IsExactFile(StatAt(d, root, SourceName(record, part)), Expected(record, part), part)
      && IsDir(d, root) && IsDir(d, quarantine) && root != quarantine
      && CapturedName(part) !in Live(d, quarantine)
      && Live(d, root)[SourceName(record, part)] != root && Live(d, root)[SourceName(record, part)] != quarantine
    }

    lemma MovedStats(d: Disk, root: NodeId, quarantine: NodeId, record: Record, part: Part, time: int)
      requires CanCapture(d, root, quarantine, record, part)
      ensures var call := Rename(root, SourceName(record, part), quarantine, CapturedName(part), time);
              var node := Live(d, root)[SourceName(record, part)];
              && Enabled(call, d)
              && StatNode(Apply(call, d), node).Some?
              && Names(Apply(call, d), quarantine, CapturedName(part), node)
              && StatAt(Apply(call, d), root, SourceName(record, part)) == None
              && IsSafeFile(StatNode(Apply(call, d), node).value, part)
              && SameButCtime(Expected(record, part), StatNode(Apply(call, d), node).value.identity)
    {
      var call := Rename(root, SourceName(record, part), quarantine, CapturedName(part), time);
      LiveAfter(call, d, root);
      LiveAfter(call, d, quarantine);
    }

    /** The first half of a capture: the source, open for writing, has exactly the recorded identity. */
    method OpenSource(root: NodeId, record: Record, part: Part, ghost since: Mark)
      returns (r: Outcome<NodeId, Failure>, ghost i: int)
      requires Valid() && OnlyLooked(env, since, trace, disk)
      requires Stands(spot, listed, root, record, MadeDurable(if part.Manifest? then Creating else Capturing(Manifest)))
      modifies `disk, `ticks, `trace, `spots, `spot
      ensures Valid() && OnlyLooked(env, since, trace, disk)
      ensures r.Ok? ==> FstatShows(trace, i, r.value, Expected(record, part)) && Prepared(trace, record, part, root)
      ensures r.Ok? ==> r.value.dev == Expected(record, part).dev && r.value.ino == Expected(record, part).ino
      ensures env.Alone() && r.Ok? ==> Names(disk, root, SourceName(record, part), r.value)
      ensures env.Decides(r.Ok?,
                          IsExactFile(StatAt(disk, root, SourceName(record, part)), Expected(record, part), part))
      ensures r.Ok? ==> spot == Spot(old(spot.place), Some(BeforeCapture(part)), record.name, [])
    {
      i := -1;
      var handle := OpenAt(root, SourceName(record, part), true, since);
      if handle.Err? { r := handle; return; }
      var checked;
      checked, i := AnnounceCapture(root, handle.value, record, part, since);
      r := if checked.Err? then Err(checked.error) else handle;
    }

    /** Checks the source, by handle and by path, and announces the capture. */
    method AnnounceCapture(root: NodeId, source: NodeId, record: Record, part: Part, ghost since: Mark)
      returns (r: Outcome<(), Failure>, ghost i: int)
      requires Valid() && OnlyLooked(env, since, trace, disk)
      requires HasOpened(spot, listed, root, record, part, source)
      modifies `disk, `ticks, `trace, `spots, `spot
      ensures Valid() && OnlyLooked(env, since, trace, disk)
      ensures r.Ok? ==> FstatShows(trace, i, source, Expected(record, part)) && Prepared(trace, record, part, root)
      ensures r.Ok? ==> source.dev == Expected(record, part).dev && source.ino == Expected(record, part).ino
      ensures env.Decides(r.Ok?,
                          && IsExactFile(StatNode(disk, source), Expected(record, part), part)
                          && IsExactFile(StatAt(disk, root, SourceName(record, part)), Expected(record, part), part))
      ensures r.Ok? ==> spot == Spot(old(spot.place), Some(BeforeCapture(part)), record.name, [])
    {
      r, i := CheckSource(root, source, record, part, since);
      if r.Err? { return; }
      ghost var looked := trace;
      CaptureIsAllowed(spot, listed, uid, root, record, part);
      r := Checkpoint(BeforeCapture(part), record.name, since);
      AnnouncedIsPrepared(looked, trace, record, part, root, source, i);
    }

    /** Once the capture is announced it is prepared. */
    lemma AnnouncedIsPrepared(before: Trace, after: Trace, record: Record, part: Part, root: NodeId, source: NodeId,
                              i: int)
      requires i + 3 == |before| && FstatShows(before, i, source, Expected(record, part))
      requires before[i + 1].call.Interference?
      requires PathShows(before, i + 2, root, SourceName(record, part), Expected(record, part))
      requires Continues(before, after) && |after| == |before| + 2 && after[|before| + 1].call.Interference?
      requires after[|before|].call == Call.Checkpoint(BeforeCapture(part), record.name)
      ensures FstatShows(after, i, source, Expected(record, part)) && Prepared(after, record, part, root)
    {
      assert forall k :: 0 <= k < |before| ==> after[k] == before[k];
      assert PreparedAt(after, record, part, root, source, i, i + 2, i + 3);
    }

    /** Checks the source by handle and by path. */
    method CheckSource(root: NodeId, source: NodeId, record: Record, part: Part, ghost since: Mark)
      returns (r: Outcome<(), Failure>, ghost i: int)
      requires Valid() && OnlyLooked(env, since, trace, disk)
      requires HasOpened(spot, listed, root, record, part, source)
      modifies `disk, `ticks, `trace, `spots, `spot
      ensures Valid() && OnlyLooked(env, since, trace, disk)
      ensures r.Ok? ==> i + 3 == |trace| && FstatShows(trace, i, source, Expected(record, part))
      ensures r.Ok? ==>
        && trace[i + 1].call.Interference?
        && PathShows(trace, i + 2, root, SourceName(record, part), Expected(record, part))
      ensures r.Ok? ==> source.dev == Expected(record, part).dev && source.ino == Expected(record, part).ino
      ensures r.Ok? ==> Looks(old(spot), spot, 2) && FindsSource(spot.did, root, record, part)
      ensures env.Decides(r.Ok?,
                          && IsExactFile(StatNode(disk, source), Expected(record, part), part)
                          && IsExactFile(StatAt(disk, root, SourceName(record, part)), Expected(record, part), part))
    {
      i := -1;
      r := AssertHandle(source, Expected(record, part), part, since);
      if r.Err? { return; }
      i := |trace| - 1;
      r := AssertPath(root, SourceName(record, part), Expected(record, part), part, since);
    }

    /** The no-replace rename of a file that was just found as recorded. */
    method MoveNow(ghost root: NodeId, ghost record: Record, ghost part: Part, call: Call)
      returns (r: Outcome<(), Failure>)
      requires Valid() && record in listed && Prepared(trace, record, part, root)
      requires Stands(spot, listed, root, record, BeforeCapture(part))
      requires IsCapture(call, record, part) && call.dir == root && call.destination == spot.place.home.dir
      modifies `disk, `ticks, `trace, `spots, `spot
      ensures Valid() && Grows(old(trace), trace)
      ensures r.Ok? ==> |trace| == |old(trace)| + 2 && trace[|old(trace)| + 1].call == call
      ensures env.Decides(r.Ok?, Enabled(call, old(disk)))
      ensures env.Alone() && r.Ok? ==> Enabled(call, old(disk)) && disk == Apply(call, old(disk))
      ensures env.Alone() && r.Err? ==> disk == old(disk)
      ensures env.Alone() ==> Visits(|old(trace)|, trace, {old(disk), disk})
      ensures r.Ok? ==> HasMoved(spot, listed, root, record, part) && spot.place == old(spot.place)
    {
      MoveIsAllowed(spot, listed, uid, root, record, part, call);
      r := PauseThen(call, ForMove(record, part));
    }

    method Move(root: NodeId, quarantine: NodeId, record: Record, part: Part)
      returns (r: Outcome<(), Failure>, ghost time: int, ghost c: int)
      requires Valid() && record in listed && Prepared(trace, record, part, root)
      requires Stands(spot, listed, root, record, BeforeCapture(part)) && spot.place.home.dir == quarantine
      modifies `disk, `ticks, `trace, `spots, `spot
      ensures Valid() && Grows(old(trace), trace)
      ensures r.Ok? ==> |old(trace)| <= c && MovesAt(trace, c, record, part)
      ensures env.Alone() && r.Ok? ==> IsCaptureOf(old(disk), disk, root, quarantine, record, part, time)
      ensures env.Alone() && r.Err? ==> disk == old(disk)
      ensures env.Alone() ==> Visits(|old(trace)|, trace, {old(disk), disk})
      ensures env.Alone() && env.Faultless() && CanCapture(old(disk), root, quarantine, record, part) ==> r.Ok?
      ensures r.Ok? ==> HasMoved(spot, listed, root, record, part) && spot.place == old(spot.place)
    {
      time, c := env.clock(ticks + 1), |trace| + 1;
      r := MoveNow(root, record, part, CaptureCall(root, quarantine, record, part, env.clock(ticks + 1)));
      if env.Alone() && CanCapture(old(disk), root, quarantine, record, part) {
        MovedStats(old(disk), root, quarantine, record, part, time);
      }
    }

    function CaptureCall(root: NodeId, quarantine: NodeId, record: Record, part: Part, time: int): Call {
      Rename(root, SourceName(record, part), quarantine, CapturedName(part), time)
    }

    predicate IsCaptureOf(before: Disk, after: Disk, root: NodeId, quarantine: NodeId, record: Record, part: Part,
                          time: int) {
      var call := CaptureCall(root, quarantine, record, part, time);
      Enabled(call, before) && after == Apply(call, before)
    }

    /** What a confirmed capture shows on the disk. */
    predicate ShowsCaptured(d: Disk, root: NodeId, quarantine: NodeId, record: Record, part: Part, node: NodeId) {
      && StatNode(d, node).Some?
      && Names(d, quarantine, CapturedName(part), node)
      && StatAt(d, root, SourceName(record, part)) == None
      && IsSafeFile(StatNode(d, node).value, part)
      && SameButCtime(Expected(record, part), StatNode(d, node).value.identity)
    }

    /** Moves one file of the pair into the quarantine, and shows that it moved the recorded inode. */
    method Capture(root: NodeId, quarantine: NodeId, record: Record, part: Part)
      returns (r: Outcome<(NodeId, Identity), Failure>, ghost time: int)
      requires Valid() && record in listed
      requires Stands(spot, listed, root, record, MadeDurable(if part.Manifest? then Creating else Capturing(Manifest)))
      requires spot.place.home.dir == quarantine
      modifies `disk, `ticks, `trace, `spots, `spot
      ensures Valid() && Grows(old(trace), trace)
      ensures r.Ok? ==> Held(trace, record, part, r.value.0, r.value.1)
      ensures env.Alone() ==> disk == old(disk) || IsCaptureOf(old(disk), disk, root, quarantine, record, part, time)
      ensures env.Alone() ==> Visits(|old(trace)|, trace, {old(disk), disk})
      ensures env.Alone() && r.Ok? ==>
                && IsCaptureOf(old(disk), disk, root, quarantine, record, part, time)
                && Names(old(disk), root, SourceName(record, part), r.value.0)
                && IsExactFile(StatNode(disk, r.value.0), r.value.1, part)
      ensures env.Alone() && env.Faultless() && CanCapture(old(disk), root, quarantine, record, part) ==> r.Ok?
      ensures r.Ok? ==>
        HasConfirmed(spot, listed, root, record, part, r.value.0, r.value.1) && spot.place == old(spot.place)
    {
      var source;
      ghost var i, c;
      source, i, c, time := TakeSource(root, quarantine, record, part);
      if source.Err? { r := Err(source.error); return; }
      if env.Alone() && CanCapture(old(disk), root, quarantine, record, part) {
        CaptureShows(old(disk), disk, root, quarantine, record, part, time);
      }
      ghost var there := trace;
      r := ConfirmCapture(root, quarantine, source.value, record, part, i, c);
      GrowsTwice(old(trace), there, trace);
      if env.Alone() {
        VisitsMore(|there|, trace, {disk}, {old(disk), disk});
        VisitsTwice(|old(trace)|, there, trace, {old(disk), disk});
      }
    }

    /** Opens the source of a capture and moves it. */
    method TakeSource(root: NodeId, quarantine: NodeId, record: Record, part: Part)
      returns (r: Outcome<NodeId, Failure>, ghost i: int, ghost c: int, ghost time: int)
      requires Valid() && record in listed
      requires Stands(spot, listed, root, record, MadeDurable(if part.Manifest? then Creating else Capturing(Manifest)))
      requires spot.place.home.dir == quarantine
      modifies `disk, `ticks, `trace, `spots, `spot
      ensures Valid() && Grows(old(trace), trace)
      ensures r.Ok? ==> i < c && MovesAt(trace, c, record, part)
      ensures r.Ok? ==> FstatShows(trace, i, r.value, Expected(record, part))
      ensures r.Ok? ==> r.value.dev == Expected(record, part).dev && r.value.ino == Expected(record, part).ino
      ensures env.Alone() ==> Visits(|old(trace)|, trace, {old(disk), disk})
      ensures env.Alone() && r.Err? ==> disk == old(disk)
      ensures env.Alone() && r.Ok? ==> IsCaptureOf(old(disk), disk, root, quarantine, record, part, time)
      ensures env.Alone() && r.Ok? ==> Names(old(disk), root, SourceName(record, part), r.value)
      ensures env.Alone() && env.Faultless() && CanCapture(old(disk), root, quarantine, record, part) ==> r.Ok?
      ensures r.Ok? ==> HasMoved(spot, listed, root, record, part) && spot.place == old(spot.place)
    {
      time, c := 0, 0;
      r, i := OpenSource(root, record, part, Mark(trace, disk));
      ghost var looked := trace;
      if r.Err? { return; }
      var moved;
      moved, time, c := Move(root, quarantine, record, part);
      GrowsTwice(old(trace), looked, trace);
      if env.Alone() {
        VisitsMore(|old(trace)|, looked, {old(disk)}, {old(disk), disk});
        VisitsTwice(|old(trace)|, looked, trace, {old(disk), disk});
      }
      if moved.Err? { r := Err(moved.error); return; }
      FstatStays(looked, trace, i, r.value, Expected(record, part));
    }

    lemma CaptureShows(before: Disk, after: Disk, root: NodeId, quarantine: NodeId, record: Record, part: Part,
                       time: int)
      requires CanCapture(before, root, quarantine, record, part)
      requires IsCaptureOf(before, after, root, quarantine, record, part, time)
      ensures ShowsCaptured(after, root, quarantine, record, part, Live(before, root)[SourceName(record, part)])
    {
      MovedStats(before, root, quarantine, record, part, time);
    }

    /** The second half of a capture: what was moved is what was opened. */
    method ConfirmCapture(root: NodeId, quarantine: NodeId, source: NodeId, record: Record, part: Part, ghost i: int,
                          ghost c: int)
      returns (r: Outcome<(NodeId, Identity), Failure>)
      requires Valid()
      requires FstatShows(trace, i, source, Expected(record, part)) && MovesAt(trace, c, record, part) && i < c
      requires source.dev == Expected(record, part).dev && source.ino == Expected(record, part).ino
      requires HasMoved(spot, listed, root, record, part) && spot.place.home.dir == quarantine
      modifies `disk, `ticks, `trace, `spots, `spot
      ensures Valid() && OnlyLooked(env, Mark(old(trace), old(disk)), trace, disk)
      ensures r.Ok? ==> Held(trace, record, part, r.value.0, r.value.1)
      ensures r.Ok? ==> r.value.0 == source
      ensures env.Alone() && r.Ok? ==> IsExactFile(StatNode(disk, source), r.value.1, part)
      ensures env.Alone() && env.Faultless() && ShowsCaptured(disk, root, quarantine, record, part, source) ==> r.Ok?
      ensures r.Ok? ==>
        HasConfirmed(spot, listed, root, record, part, r.value.0, r.value.1) && spot.place == old(spot.place)
    {
      ghost var moved := Mark(trace, disk);
      var identity :- OpenCaptured(quarantine, source, record, part, i, c, moved);
      ghost var found := trace;
      var _ :- AssertMoved(root, quarantine, source, identity, record, part, moved);
      HeldExtends(found, trace, record, part, source, identity);
      return Ok((source, identity));
    }

    /** The captured name and the source handle show this identity, and the old name is gone. */
    method AssertMoved(root: NodeId, quarantine: NodeId, source: NodeId, identity: Identity, record: Record, part: Part,
                       ghost since: Mark)
      returns (r: Outcome<(), Failure>)
      requires Valid() && OnlyLooked(env, since, trace, disk)
      requires FindsCaptured(spot, quarantine, record, part, source, identity)
      modifies `disk, `ticks, `trace, `spots, `spot
      ensures Valid() && OnlyLooked(env, since, trace, disk) && Grows(old(trace), trace)
      ensures env.Decides(r.Ok?,
                          && IsExactFile(StatAt(disk, quarantine, CapturedName(part)), identity, part)
                          && IsExactFile(StatNode(disk, source), identity, part)
                          && StatAt(disk, root, SourceName(record, part)) == None)
      ensures r.Ok? ==> Looks(old(spot), spot, 3) && ConfirmsCapture(spot.did, root, quarantine, record, part)
    {
      var _ :- AssertPath(quarantine, CapturedName(part), identity, part, since);
      var _ :- AssertHandle(source, identity, part, since);
      var gone :- PathStat(root, SourceName(record, part), since);
      return if gone.Some? then Err(PathReplaced) else Ok(());
    }

    /** The captured name opens the inode that the source handle holds. */
    method OpenCaptured(quarantine: NodeId, source: NodeId, record: Record, part: Part, ghost i: int, ghost c: int,
                        ghost since: Mark)
      returns (r: Outcome<Identity, Failure>)
      requires Valid() && since == Mark(trace, disk)
      requires FstatShows(trace, i, source, Expected(record, part)) && MovesAt(trace, c, record, part) && i < c
      requires source.dev == Expected(record, part).dev && source.ino == Expected(record, part).ino
      requires HasMoved(spot, listed, spot.place.root, record, part)
      modifies `disk, `ticks, `trace, `spots, `spot
      ensures Valid() && OnlyLooked(env, since, trace, disk) && Grows(old(trace), trace)
      ensures r.Ok? ==> Held(trace, record, part, source, r.value)
      ensures env.Alone() && r.Ok? ==> IsExactFile(StatNode(disk, source), r.value, part)
      ensures env.Alone() && env.Faultless() && Names(disk, quarantine, CapturedName(part), source)
              && StatNode(disk, source).Some?
              && IsSafeFile(StatNode(disk, source).value, part)
              && SameButCtime(Expected(record, part), StatNode(disk, source).value.identity) ==>
                r.Ok?
      ensures r.Ok? ==> FindsCaptured(spot, quarantine, record, part, source, r.value)
      ensures r.Ok? ==> spot == Spot(old(spot.place), Some(Captured(part)), record.name, spot.did)
    {
      CapturedIsAllowed(spot, listed, uid, record, part);
      var _ :- Checkpoint(Captured(part), record.name, since);
      var captured :- OpenAt(quarantine, CapturedName(part), true, since);
      var stat :- Fstat(captured, since);
      if !IsSafeFile(stat, part) {
        return Err(UnsafeFile);
      }
      if !SameButCtime(Expected(record, part), stat.identity) {
        return Err(IdentityChanged);
      }
      assert captured == source by {
        assert captured == NodeId(captured.dev, captured.ino) && source == NodeId(source.dev, source.ino);
      }
      assert HeldAt(trace, record, part, source, stat.identity, i, c, |trace| - 1);
      return Ok(stat.identity);
    }

    /** After one capture: the directories are live and the captured file is the held one. */
    method AssertSingleCapture(root: NodeId, home: Home, fd: NodeId, identity: Identity, part: Part, ghost since: Mark)
      returns (r: Outcome<(), Failure>)
      requires Valid() && OnlyLooked(env, since, trace, disk)
      modifies `disk, `ticks, `trace, `spots, `spot
      ensures Valid() && OnlyLooked(env, since, trace, disk)
      ensures env.Decides(r.Ok?,
                          && RootIsLive(disk, root) && DirectoryIsLive(disk, root, home.name, home.dir)
                          && Names(disk, home.dir, CapturedName(part), fd)
                          && IsExactFile(StatNode(disk, fd), identity, part))
      ensures r.Ok? ==> Looks(old(spot), spot, 8)
      ensures r.Ok? ==> PassesSingleBarrier(spot.did, |old(spot).did|, root, home, uid, fd, identity, part)
    {
      var _ :- AssertBothLive(root, home, since);
      r := AssertCapturedFile(home.dir, fd, identity, part, since);
    }

    /** The held inode, a new handle on the captured name and the name show the captured identity. */
    method AssertCapturedFile(dir: NodeId, fd: NodeId, identity: Identity, part: Part, ghost since: Mark)
      returns (r: Outcome<(), Failure>)
      requires Valid() && OnlyLooked(env, since, trace, disk)
      modifies `disk, `ticks, `trace, `spots, `spot
      ensures Valid() && OnlyLooked(env, since, trace, disk)
      ensures env.Decides(r.Ok?,
                          && Names(disk, dir, CapturedName(part), fd)
                          && IsExactFile(StatNode(disk, fd), identity, part))
      ensures r.Ok? ==> Looks(old(spot), spot, 4)
      ensures r.Ok? ==> RereadsFile(spot.did, |old(spot).did|, dir, fd, identity, part)
    {
      if env.Alone() {
        SameIdentityIsNamed(disk, dir, CapturedName(part), fd);
      }
      var _ :- AssertHandle(fd, identity, part, since);
      var live :- OpenAt(dir, CapturedName(part), false, since);
      var _ :- AssertHandle(live, identity, part, since);
      r := AssertPath(dir, CapturedName(part), identity, part, since);
    }

    /** Both held inodes have their captured identities under their captured names, in live private directories. */
    predicate PairIsCaptured(d: Disk, root: NodeId, home: Home, m: (NodeId, Identity), a: (NodeId, Identity)) {
      && RootIsLive(d, root) && DirectoryIsLive(d, root, home.name, home.dir)
      && Names(d, home.dir, "manifest", m.0) && IsExactFile(StatNode(d, m.0), m.1, Manifest)
      && Names(d, home.dir, "artifact", a.0) && IsExactFile(StatNode(d, a.0), a.1, Artifact)
    }

    /** Both held inodes still have their captured identities. */
    method AssertHeldPair(m: (NodeId, Identity), a: (NodeId, Identity), ghost since: Mark)
      returns (r: Outcome<(), Failure>, ghost i: int, ghost j: int)
      requires Valid() && OnlyLooked(env, since, trace, disk)
      modifies `disk, `ticks, `trace, `spots, `spot
      ensures Valid() && OnlyLooked(env, since, trace, disk) && Grows(old(trace), trace)
      ensures r.Ok? ==> |old(trace)| <= i < |trace| && FstatShows(trace, i, m.0, m.1)
      ensures r.Ok? ==> |old(trace)| <= j < |trace| && FstatShows(trace, j, a.0, a.1)
      ensures env.Decides(r.Ok?,
                          && IsExactFile(StatNode(disk, m.0), m.1, Manifest)
                          && IsExactFile(StatNode(disk, a.0), a.1, Artifact))
      ensures r.Ok? ==> Looks(old(spot), spot, 2)
      ensures r.Ok? ==>
        ShowsHandle(spot.did[|old(spot).did|], m.0, m.1, Manifest)
          && ShowsHandle(spot.did[|old(spot).did| + 1], a.0, a.1, Artifact)
    {
      i, j := -1, -1;
      r := AssertHandle(m.0, m.1, Manifest, since);
      if r.Err? { return; }
      ghost var first := trace;
      i := |first| - 1;
      r := AssertHandle(a.0, a.1, Artifact, since);
      j := |trace| - 1;
      GrowsTwice(old(trace), first, trace);
      FstatStays(first, trace, i, m.0, m.1);
    }

    /** Both captured names still show the captured identities. */
    method AssertNamedPair(dir: NodeId, m: Identity, a: Identity, ghost since: Mark)
      returns (r: Outcome<(), Failure>, ghost i: int, ghost j: int)
      requires Valid() && OnlyLooked(env, since, trace, disk)
      modifies `disk, `ticks, `trace, `spots, `spot
      ensures Valid() && OnlyLooked(env, since, trace, disk) && Grows(old(trace), trace)
      ensures r.Ok? ==> |old(trace)| <= i < |trace| && PathShows(trace, i, dir, "manifest", m)
      ensures r.Ok? ==> |old(trace)| <= j < |trace| && PathShows(trace, j, dir, "artifact", a)
      ensures env.Decides(r.Ok?,
                          && IsExactFile(StatAt(disk, dir, "manifest"), m, Manifest)
                          && IsExactFile(StatAt(disk, dir, "artifact"), a, Artifact))
      ensures r.Ok? ==> Looks(old(spot), spot, 2)
      ensures r.Ok? ==> ShowsPath(spot.did[|old(spot).did|], dir, "manifest", m, Manifest)
      ensures r.Ok? ==> ShowsPath(spot.did[|old(spot).did| + 1], dir, "artifact", a, Artifact)
    {
      i, j := -1, -1;
      r := AssertPath(dir, "manifest", m, Manifest, since);
      if r.Err? { return; }
      ghost var first := trace;
      i := |first| - 1;
      r := AssertPath(dir, "artifact", a, Artifact, since);
      j := |trace| - 1;
      GrowsTwice(old(trace), first, trace);
      assert trace[i] == trace[..|first|][i];
    }

    /** Both inodes and both captured names have the captured identities. */
    predicate PairIsKept(d: Disk, dir: NodeId, m: (NodeId, Identity), a: (NodeId, Identity)) {
      && IsExactFile(StatNode(d, m.0), m.1, Manifest) && IsExactFile(StatNode(d, a.0), a.1, Artifact)
      && IsExactFile(StatAt(d, dir, "manifest"), m.1, Manifest)
      && IsExactFile(StatAt(d, dir, "artifact"), a.1, Artifact)
    }

    lemma KeptIsCaptured(d: Disk, root: NodeId, home: Home, m: (NodeId, Identity), a: (NodeId, Identity))
      ensures PairIsCaptured(d, root, home, m, a) <==>
              RootIsLive(d, root) && DirectoryIsLive(d, root, home.name, home.dir) && PairIsKept(d, home.dir, m, a)
    {
      SameIdentityIsNamed(d, home.dir, "manifest", m.0);
      SameIdentityIsNamed(d, home.dir, "artifact", a.0);
    }

    /** The handles and then the names of the pair. */
    method AssertPairKept(dir: NodeId, m: (NodeId, Identity), a: (NodeId, Identity), ghost since: Mark, ghost q: int)
      returns (r: Outcome<(), Failure>)
      requires Valid() && OnlyLooked(env, since, trace, disk) && q < |since.trace|
      modifies `disk, `ticks, `trace, `spots, `spot
      ensures Valid() && OnlyLooked(env, since, trace, disk)
      ensures r.Ok? ==> Reread(trace, q, |trace|, dir, Manifest, m.0, m.1)
      ensures r.Ok? ==> Reread(trace, q, |trace|, dir, Artifact, a.0, a.1)
      ensures env.Decides(r.Ok?, PairIsKept(disk, dir, m, a))
      ensures r.Ok? ==> Looks(old(spot), spot, 4) && RereadsCaptured(spot.did, |old(spot).did|, dir, m, a)
    {
      ghost var i, j, k, l;
      r, i, j := AssertHeldPair(m, a, since);
      if r.Err? { return; }
      ghost var held := trace;
      r, k, l := AssertNamedPair(dir, m.1, a.1, since);
      if r.Err? { return; }
      FstatStays(held, trace, i, m.0, m.1);
      FstatStays(held, trace, j, a.0, a.1);
      assert RereadAt(trace, q, |trace|, dir, Manifest, m.0, m.1, i, k);
      assert RereadAt(trace, q, |trace|, dir, Artifact, a.0, a.1, j, l);
    }

    /** The pair-wide barrier: both held inodes still have their captured identities, by handle and by path. */
    method AssertPairCaptured(root: NodeId, home: Home, m: (NodeId, Identity), a: (NodeId, Identity),
                              ghost since: Mark, ghost q: int) returns (r: Outcome<(), Failure>)
      requires Valid() && OnlyLooked(env, since, trace, disk) && q < |since.trace|
      requires spot.did == []
      modifies `disk, `ticks, `trace, `spots, `spot
      ensures Valid() && OnlyLooked(env, since, trace, disk)
      ensures r.Ok? ==> Reread(trace, q, |trace|, home.dir, Manifest, m.0, m.1)
      ensures r.Ok? ==> Reread(trace, q, |trace|, home.dir, Artifact, a.0, a.1)
      ensures env.Decides(r.Ok?, PairIsCaptured(disk, root, home, m, a))
      ensures r.Ok? ==> Looks(old(spot), spot, 8) && RereadsCaptured(spot.did, 4, home.dir, m, a)
      ensures r.Ok? ==> RootAgrees(spot.did, 0, root, uid) && DirectoryAgrees(spot.did, 2, root, home, uid)
    {
      if env.Alone() {
        KeptIsCaptured(disk, root, home, m, a);
      }
      var _ :- AssertBothLive(root, home, since);
      r := AssertPairKept(home.dir, m, a, since, q);
    }

    method AssertBothLive(root: NodeId, home: Home, ghost since: Mark) returns (r: Outcome<(), Failure>)
      requires Valid() && OnlyLooked(env, since, trace, disk)
      modifies `disk, `ticks, `trace, `spots, `spot
      ensures Valid() && OnlyLooked(env, since, trace, disk)
      ensures env.Decides(r.Ok?, RootIsLive(disk, root) && DirectoryIsLive(disk, root, home.name, home.dir))
      ensures r.Ok? ==> Looks(old(spot), spot, 4) && RootAgrees(spot.did, |old(spot).did|, root, uid)
      ensures r.Ok? ==> DirectoryAgrees(spot.did, |old(spot).did| + 2, root, home, uid)
    {
      var _ :- AssertRootLive(root, since);
      r := AssertDirectoryLive(root, home.dir, home.name, since);
    }

    /** The held inode is a zero-byte file of this identity. */
    method AssertHeldTombstone(fd: NodeId, identity: Identity, ghost since: Mark) returns (r: Outcome<(), Failure>)
      requires Valid() && OnlyLooked(env, since, trace, disk)
      modifies `disk, `ticks, `trace, `spots, `spot
      ensures Valid() && OnlyLooked(env, since, trace, disk)
      ensures env.Decides(r.Ok?,
                          && fd in disk.nodes && IsTombstone(StatOf(fd, disk.nodes[fd]))
                          && identity == StatOf(fd, disk.nodes[fd]).identity)
      ensures r.Ok? ==> Looks(old(spot), spot, 1) && ShowsEmpty(spot.did[|old(spot).did|], fd, identity)
    {
      var held :- Fstat(fd, since);
      return if IsTombstone(held) && held.identity == identity then Ok(()) else Err(IdentityChanged);
    }

    /** A zero-byte file of this identity is at this name. */
    method AssertNamedTombstone(dir: NodeId, name: Name, identity: Identity, ghost since: Mark)
      returns (r: Outcome<(), Failure>)
      requires Valid() && OnlyLooked(env, since, trace, disk)
      modifies `disk, `ticks, `trace, `spots, `spot
      ensures Valid() && OnlyLooked(env, since, trace, disk)
      ensures env.Decides(r.Ok?,
                          && StatAt(disk, dir, name).Some? && IsTombstone(StatAt(disk, dir, name).value)
                          && identity == StatAt(disk, dir, name).value.identity)
      ensures r.Ok? ==> Looks(old(spot), spot, 1) && ShowsEmptyAt(spot.did[|old(spot).did|], dir, name, identity)
    {
      var found :- PathStat(dir, name, since);
      var same := found.Some? && IsTombstone(found.value) && found.value.identity == identity;
      return if same then Ok(()) else Err(IdentityChanged);
    }

    method AssertPairTombstones(root: NodeId, home: Home, ghost record: Record, m: NodeId, a: NodeId, ghost since: Mark)
      returns (r: Outcome<(), Failure>)
      requires Valid() && OnlyLooked(env, since, trace, disk)
      requires spot.did == [] && Pins(record, Manifest, m) && Pins(record, Artifact, a)
      modifies `disk, `ticks, `trace, `spots, `spot
      ensures Valid() && OnlyLooked(env, since, trace, disk)
      ensures env.Decides(r.Ok?,
                          && RootIsLive(disk, root) && DirectoryIsLive(disk, root, home.name, home.dir)
                          && Names(disk, home.dir, "manifest", m) && m in disk.nodes
                          && IsTombstone(StatOf(m, disk.nodes[m]))
                          && Names(disk, home.dir, "artifact", a) && a in disk.nodes
                          && IsTombstone(StatOf(a, disk.nodes[a])))
      ensures r.Ok? ==> Looks(old(spot), spot, 10) && KeepsTombstones(spot.did, root, home, uid, record)
    {
      if env.Alone() {
        SameIdentityIsNamed(disk, home.dir, "manifest", m);
        SameIdentityIsNamed(disk, home.dir, "artifact", a);
      }
      var _ :- AssertBothLive(root, home, since);
      var identities :- ReadTombstones(m, a, since);
      r := AssertNamedTombstones(home.dir, identities.0, identities.1, since);
    }

    /** Both held inodes are zero-byte files, with the identities just read. */
    method ReadTombstones(m: NodeId, a: NodeId, ghost since: Mark) returns (r: Outcome<(Identity, Identity), Failure>)
      requires Valid() && OnlyLooked(env, since, trace, disk)
      modifies `disk, `ticks, `trace, `spots, `spot
      ensures Valid() && OnlyLooked(env, since, trace, disk)
      ensures r.Ok? ==> Looks(old(spot), spot, 4)
      ensures r.Ok? ==> ReadsEmpty(spot.did, |old(spot).did|, m, a, r.value.0, r.value.1)
      ensures env.Alone() && r.Ok? ==> IsEmptyNode(disk, m, r.value.0) && IsEmptyNode(disk, a, r.value.1)
      ensures env.Alone() && env.Faultless() && StatNode(disk, m).Some? && IsTombstone(StatNode(disk, m).value)
              && StatNode(disk, a).Some? && IsTombstone(StatNode(disk, a).value) ==>
                r.Ok?
    {
      var manifest :- Fstat(m, since);
      var artifact :- Fstat(a, since);
      var _ :- AssertHeldTombstone(m, manifest.identity, since);
      var _ :- AssertHeldTombstone(a, artifact.identity, since);
      return Ok((manifest.identity, artifact.identity));
    }

    predicate IsEmptyNode(d: Disk, node: NodeId, identity: Identity) {
      StatNode(d, node).Some? && IsTombstone(StatNode(d, node).value) && StatNode(d, node).value.identity == identity
    }

    /** Zero-byte files of these identities are at the captured names. */
    method AssertNamedTombstones(dir: NodeId, m: Identity, a: Identity, ghost since: Mark)
      returns (r: Outcome<(), Failure>)
      requires Valid() && OnlyLooked(env, since, trace, disk)
      modifies `disk, `ticks, `trace, `spots, `spot
      ensures Valid() && OnlyLooked(env, since, trace, disk)
      ensures r.Ok? ==> Looks(old(spot), spot, 2) && ShowsEmptyAt(spot.did[|old(spot).did|], dir, "manifest", m)
      ensures r.Ok? ==> ShowsEmptyAt(spot.did[|old(spot).did| + 1], dir, "artifact", a)
      ensures env.Decides(r.Ok?, IsEmptyAt(disk, dir, "manifest", m) && IsEmptyAt(disk, dir, "artifact", a))
    {
      var _ :- AssertNamedTombstone(dir, "manifest", m, since);
      r := AssertNamedTombstone(dir, "artifact", a, since);
    }

    predicate IsEmptyAt(d: Disk, dir: NodeId, name: Name, identity: Identity) {
      && StatAt(d, dir, name).Some? && IsTombstone(StatAt(d, dir, name).value)
      && StatAt(d, dir, name).value.identity == identity
    }

    /** Empties a held inode whose barrier has passed. */
    method Reclaim(fd: NodeId, record: Record, part: Part, ghost pair: Clearance)
      returns (r: Outcome<(), Failure>, ghost time: int)
      requires Valid() && IsCleared(trace, pair) && pair.record in listed && Covers(pair, fd)
      requires Stands(spot, listed, spot.place.root, record, if part.Manifest? then BarrierComplete
                      else Reclaimed(Manifest)) && Pins(record, part, fd)
      modifies `disk, `ticks, `trace, `spots, `spot
      ensures Valid() && Grows(old(trace), trace)
      ensures env.Alone() && IsFile(old(disk), fd) ==> Visits(|old(trace)|, trace, {old(disk), disk})
      ensures env.Alone() && IsFile(old(disk), fd) ==> disk == old(disk) || disk == Apply(Truncate(fd, time), old(disk))
      ensures env.Alone() && IsFile(old(disk), fd) && r.Ok? ==> disk == Apply(Truncate(fd, time), old(disk))
      ensures env.Alone() && env.Faultless() && IsFile(old(disk), fd) ==> r.Ok?
      ensures r.Ok? ==> spot == Spot(old(spot.place), Some(Reclaimed(part)), record.name, [])
    {
      r, time := Empty(fd, record, part, pair);
      if r.Err? { return; }
      ghost var emptied := Mark(trace, disk);
      r := Flush(fd, record, part, emptied);
      GrowsTwice(old(trace), emptied.trace, trace);
      if env.Alone() && IsFile(old(disk), fd) {
        VisitsMore(|emptied.trace|, trace, {disk}, {old(disk), disk});
        VisitsTwice(|old(trace)|, emptied.trace, trace, {old(disk), disk});
      }
    }

    predicate IsFile(d: Disk, node: NodeId) {
      node in d.nodes && d.nodes[node].kind == Regular
    }

    method Empty(fd: NodeId, ghost record: Record, ghost part: Part, ghost pair: Clearance)
      returns (r: Outcome<(), Failure>, ghost time: int)
      requires Valid() && IsCleared(trace, pair) && pair.record in listed && Covers(pair, fd)
      requires Stands(spot, listed, spot.place.root, record, if part.Manifest? then BarrierComplete
                      else Reclaimed(Manifest)) && Pins(record, part, fd)
      modifies `disk, `ticks, `trace, `spots, `spot
      ensures Valid() && Grows(old(trace), trace)
      ensures env.Decides(r.Ok?, IsFile(old(disk), fd))
      ensures env.Alone() ==> Visits(|old(trace)|, trace, {old(disk), disk})
      ensures env.Alone() && r.Ok? ==> disk == Apply(Truncate(fd, time), old(disk))
      ensures env.Alone() && r.Err? ==> disk == old(disk)
      ensures r.Ok? ==> HasEmptied(spot, listed, record, part, fd) && spot.place == old(spot.place)
    {
      time := env.clock(ticks + 1);
      TruncateIsAllowed(spot, listed, uid, record, part, Truncate(fd, time));
      r := PauseThen(Truncate(fd, env.clock(ticks + 1)), ForReclaim(pair));
    }

    /** `fsync` of a file, and the checkpoint after it. */
    method Flush(fd: NodeId, record: Record, part: Part, ghost since: Mark) returns (r: Outcome<(), Failure>)
      requires Valid() && since == Mark(trace, disk)
      requires HasEmptied(spot, listed, record, part, fd)
      modifies `disk, `ticks, `trace, `spots, `spot
      ensures Valid() && Grows(old(trace), trace)
      ensures env.Alone() && IsFile(old(disk), fd) ==>
        disk == since.disk && Visits(|since.trace|, trace, {since.disk})
      ensures env.Alone() && env.Faultless() && IsFile(old(disk), fd) ==> r.Ok?
      ensures r.Ok? ==> spot == Spot(old(spot.place), Some(Reclaimed(part)), record.name, [])
    {
      FlushIsAllowed(spot, listed, uid, record, part, fd);
      r := SyncNow(fd);
      if r.Err? { return; }
      ghost var synced := Mark(trace, disk);
      r := Checkpoint(Reclaimed(part), record.name, synced);
      GrowsTwice(since.trace, synced.trace, trace);
      if env.Alone() && IsFile(since.disk, fd) {
        VisitsTwice(|since.trace|, synced.trace, trace, {since.disk});
      }
    }

    predicate IsNewDirectory(before: Disk, after: Disk, root: NodeId, home: Home, time: int) {
      var call := Mkdir(root, home.name, home.dir, env.mkdirMode, uid, time);
      Enabled(call, before) && after == Apply(call, before)
    }

    predicate IsMadePrivate(before: Disk, after: Disk, dir: NodeId, time: int) {
      Enabled(Chmod(dir, PRIVATE_MODE, time), before) && after == Apply(Chmod(dir, PRIVATE_MODE, time), before)
    }

    /** `mkdir` of one random name; `None` when the name is taken. */
    method TryMkdir(root: NodeId, ghost record: Record, ghost since: Mark)
      returns (r: Outcome<Option<Home>, Failure>, ghost time: int)
      requires Valid() && OnlyLooked(env, since, trace, disk)
      requires Stands(spot, listed, root, record, BeforeDelete)
      modifies `disk, `ticks, `trace, `spots, `spot
      ensures Valid() && Grows(since.trace, trace)
      ensures env.Alone() && env.Faultless() && IsDir(since.disk, root) ==> r.Ok?
      ensures r.Err? || r.value.None? ==> OnlyLooked(env, since, trace, disk)
      ensures env.Alone() && r.Ok? && r.value.Some? ==>
                && IsQuarantineName(r.value.value.name) && r.value.value.dir.dev == root.dev
                && IsNewDirectory(since.disk, disk, root, r.value.value, time)
                && Visits(|since.trace|, trace, {since.disk, disk})
      ensures r.Ok? && r.value.None? ==> spot == old(spot)
      ensures r.Ok? && r.value.Some? ==> HasMade(spot, listed, root, record, r.value.value.name)
      ensures spot.place.count == old(spot.place).count
    {
      time := 0;
      var name := QUARANTINE_PREFIX + env.token(ticks);
      var failed := Yield();
      if failed || !IsDir(disk, root) { r := Err(OsError); return; }
      if name in Live(disk, root) { r := Ok(None); return; }
      var home;
      ghost var looked := trace;
      home, time := MakeDirectory(root, name, record);
      GrowsTwice(since.trace, looked, trace);
      if home.Err? { r := Err(home.error); return; }
      if env.Alone() {
        VisitsMore(|since.trace|, looked, {since.disk}, {since.disk, disk});
        VisitsTwice(|since.trace|, looked, trace, {since.disk, disk});
      }
      r := Ok(Some(home.value));
    }

    /** `mkdir` of a free name. */
    method MakeDirectory(root: NodeId, name: Name, ghost record: Record)
      returns (r: Outcome<Home, Failure>, ghost time: int)
      requires Valid() && IsQuarantineName(name) && IsDir(disk, root) && name !in Live(disk, root)
      requires Stands(spot, listed, root, record, BeforeDelete)
      modifies `disk, `trace, `spots, `spot
      ensures Valid() && Grows(old(trace), trace)
      ensures r.Err? ==> disk == old(disk) && trace == old(trace) && spot == old(spot)
      ensures env.Alone() ==> r.Ok?
      ensures env.Alone() ==> Visits(|old(trace)|, trace, {old(disk), disk})
      ensures r.Ok? ==> r.value.name == name && r.value.dir.dev == root.dev
      ensures r.Ok? ==> IsNewDirectory(old(disk), disk, root, r.value, time)
      ensures r.Ok? ==> HasMade(spot, listed, root, record, name) && spot.place.count == old(spot.place).count
    {
      time := env.clock(ticks);
      var dir := NodeId(root.dev, env.newIno(ticks, disk));
      var call := Mkdir(root, name, dir, env.mkdirMode, uid, env.clock(ticks));
      if !Enabled(call, disk) { r := Err(OsError); return; }
      MkdirIsAllowed(spot, listed, uid, root, record, call);
      Perform(call);
      r := Ok(Home(name, dir));
    }

    /** Makes a directory under a name that nobody uses, trying up to sixteen random names. */
    method CreateQuarantine(root: NodeId, ghost record: Record)
      returns (r: Outcome<Home, Failure>, ghost home: Home, ghost between: Disk, ghost made: int, ghost closed: int)
      requires Valid()
      requires Stands(spot, listed, root, record, BeforeDelete)
      modifies `disk, `ticks, `trace, `spots, `spot
      ensures Valid() && Grows(old(trace), trace)
      ensures env.Alone() ==> Visits(|old(trace)|, trace, {old(disk), between, disk})
      ensures env.Alone() ==>
        between == old(disk) || (IsQuarantineName(home.name) && IsNewDirectory(old(disk), between, root, home, made))
      ensures env.Alone() && r.Err? ==> disk == between
      ensures env.Alone() && r.Ok? ==>
                && r.value == home && IsQuarantineName(home.name) && home.dir.dev == root.dev
                && IsNewDirectory(old(disk), between, root, home, made)
                && IsMadePrivate(between, disk, home.dir, closed)
      ensures env.Alone() && env.Faultless() && IsDir(old(disk), root) && r.Err? ==>
        r.error == NoQuarantineName && disk == old(disk)
      ensures r.Ok? ==> HasClosed(spot, listed, root, record, r.value) && spot.place.count == old(spot.place).count
    {
      home, between, made, closed := Home("", root), disk, 0, 0;
      ghost var start := Mark(trace, disk);
      for attempt := 0 to NAME_ATTEMPTS
        invariant Valid() && OnlyLooked(env, start, trace, disk) && spot == old(spot)
      {
        var tried;
        tried, made := TryMkdir(root, record, start);
        if tried.Err? { r := Err(tried.error); return; }
        if tried.value.Some? {
          home, between := tried.value.value, disk;
          ghost var there := trace;
          if env.Alone() {
            NewDirectoryShows(start.disk, disk, root, home, made);
          }
          r, closed := FinishQuarantine(root, tried.value.value.name, record, home.dir);
          GrowsTwice(start.trace, there, trace);
          if env.Alone() {
            VisitsMore(|start.trace|, there, {start.disk, between}, {start.disk, between, disk});
            VisitsMore(|there|, trace, {between, disk}, {start.disk, between, disk});
            VisitsTwice(|start.trace|, there, trace, {start.disk, between, disk});
          }
          return;
        }
      }
      r := Err(NoQuarantineName);
    }

    lemma NewDirectoryShows(before: Disk, after: Disk, root: NodeId, home: Home, time: int)
      requires IsNewDirectory(before, after, root, home, time)
      ensures Names(after, root, home.name, home.dir) && home.dir in after.nodes
        && after.nodes[home.dir].kind == Directory
    {
      LiveAfter(Mkdir(root, home.name, home.dir, env.mkdirMode, uid, time), before, root);
    }

    method FinishQuarantine(root: NodeId, name: Name, ghost record: Record, ghost dir: NodeId)
      returns (r: Outcome<Home, Failure>, ghost time: int)
      requires Valid()
      requires HasMade(spot, listed, root, record, name)
      modifies `disk, `ticks, `trace, `spots, `spot
      ensures Valid() && Grows(old(trace), trace)
      ensures env.Alone() ==> Visits(|old(trace)|, trace, {old(disk), disk})
      ensures env.Alone() && r.Err? ==> disk == old(disk)
      ensures env.Alone() && Names(old(disk), root, name, dir) && r.Ok? ==>
                r == Ok(Home(name, dir)) && IsMadePrivate(old(disk), disk, dir, time)
      ensures env.Alone() && env.Faultless() && Names(old(disk), root, name, dir) && dir in old(disk).nodes
              && old(disk).nodes[dir].kind == Directory ==>
                r.Ok?
      ensures r.Ok? ==> HasClosed(spot, listed, root, record, r.value) && spot.place.count == old(spot.place).count
    {
      time := 0;
      var failed := Yield();
      var found := StatAt(disk, root, name);
      if failed || found.None? || found.value.kind != Directory { r := Err(OsError); return; }
      var fd := Live(disk, root)[name];
      Observe(Open(root, name, fd));
      ghost var looked := trace;
      var closed;
      closed, time := CloseQuarantine(root, name, fd, record);
      GrowsTwice(old(trace), looked, trace);
      if env.Alone() {
        VisitsTwice(|old(trace)|, looked, trace, {old(disk), disk});
      }
      r := if closed.Err? then Err(closed.error) else Ok(Home(name, fd));
    }

    /** `fchmod` of the new directory. */
    method CloseQuarantine(root: NodeId, name: Name, fd: NodeId, ghost record: Record)
      returns (r: Outcome<(), Failure>, ghost time: int)
      requires Valid() && HasOpenedHome(spot, listed, root, record, name, fd)
      modifies `disk, `ticks, `trace, `spots, `spot
      ensures Valid() && Grows(old(trace), trace)
      ensures r.Ok? ==> HasClosed(spot, listed, root, record, Home(name, fd))
      ensures r.Ok? ==> spot.place.count == old(spot.place).count
      ensures env.Decides(r.Ok?, fd in old(disk).nodes)
      ensures env.Alone() ==> Visits(|old(trace)|, trace, {old(disk), disk})
      ensures env.Alone() && r.Ok? ==> IsMadePrivate(old(disk), disk, fd, time)
      ensures env.Alone() && r.Err? ==> disk == old(disk)
    {
      time := env.clock(ticks + 1);
      ChmodIsAllowed(spot, listed, uid, root, record, name, Chmod(fd, PRIVATE_MODE, time));
      r := PauseThen(Chmod(fd, PRIVATE_MODE, env.clock(ticks + 1)), Free);
    }

    // ---------- One record ----------

    /** What an undisturbed record starts from; the states to come are orderly stages of it. */
    ghost predicate Follows(plan: Plan, record: Record) {
      && env.Alone() && Ready(plan.d, plan.site, record) && RootIsLive(plan.d, plan.site.root)
      && forall stage :: Orderly(plan.d, plan.site, record, stage) ==> plan.holds(At(plan.d, plan.site, stage))
    }

    /** The disk is at this stage of the record, and satisfies what it should. */
    predicate AtStage(s: Disk, plan: Plan, stage: Stage) {
      s == At(plan.d, plan.site, stage) && plan.holds(s)
    }

    /** The quarantine is made and named in the root, but the root is not yet synced. */
    predicate IsMade(plan: Plan, record: Record, stage: Stage)
      requires Ready(plan.d, plan.site, record)
    {
      && stage.rootViews == plan.d.dirs[plan.site.root] + [RootWithQuarantine(plan.d, plan.site)]
      && stage.quarantineViews == [map[]]
      && NodesStand(plan.d, plan.site, record, stage, 0, uid)
    }

    lemma MadeHolds(plan: Plan, record: Record, stage: Stage)
      requires Follows(plan, record) && IsMade(plan, record, stage)
      ensures AtStage(At(plan.d, plan.site, stage), plan, stage)
      ensures CanSync(plan, stage)
      ensures Reached(plan.d, plan.site, record, RootSynced(QuarantineSynced(stage)), 0, uid)
    {
      SetUpIsOrderly(plan.d, plan.site, record, stage);
      SetUpIsOrderly(plan.d, plan.site, record, QuarantineSynced(stage));
      SetUpIsOrderly(plan.d, plan.site, record, RootSynced(QuarantineSynced(stage)));
    }

    lemma MakingStages(plan: Plan, record: Record, between: Disk, after: Disk, made: int, closed: int)
      returns (stage: Stage)
      requires Follows(plan, record)
      requires IsNewDirectory(plan.d, between, plan.site.root, Home(plan.site.name, plan.site.quarantine), made)
      requires IsMadePrivate(between, after, plan.site.quarantine, closed)
      ensures IsMade(plan, record, stage) && after == At(plan.d, plan.site, stage)
      ensures plan.holds(between)
    {
      var d, site := plan.d, plan.site;
      ReadyIsDistinct(d, site, record);
      var first := Created(d, site, record, env.mkdirMode, uid, made);
      MkdirStage(d, site, record, env.mkdirMode, uid, made);
      ChmodStage(d, site, first, PRIVATE_MODE, closed);
      stage := first.(quarantineNode := first.quarantineNode.(perm := PRIVATE_MODE, ctime := closed));
      SetUpIsOrderly(d, site, record, first);
    }

    /** The state between `mkdir` and `chmod` is one of the stages. */
    lemma NewDirectoryHolds(plan: Plan, record: Record, between: Disk, made: int)
      requires Follows(plan, record)
      requires IsNewDirectory(plan.d, between, plan.site.root, Home(plan.site.name, plan.site.quarantine), made)
      ensures plan.holds(between)
    {
      var d, site := plan.d, plan.site;
      ReadyIsDistinct(d, site, record);
      MkdirStage(d, site, record, env.mkdirMode, uid, made);
      SetUpIsOrderly(d, site, record, Created(d, site, record, env.mkdirMode, uid, made));
    }

    /** The new quarantine is where its name leads, private, and on the root's filesystem. */
    method CheckQuarantine(root: NodeId, home: Home, ghost since: Mark) returns (r: Outcome<(), Failure>)
      requires Valid() && OnlyLooked(env, since, trace, disk)
      modifies `disk, `ticks, `trace, `spots, `spot
      ensures Valid() && OnlyLooked(env, since, trace, disk)
      ensures env.Decides(r.Ok?,
                          && DirectoryIsLive(disk, root, home.name, home.dir) && root in disk.nodes
                          && root.dev == home.dir.dev)
      ensures r.Ok? ==> Looks(old(spot), spot, 4) && DirectoryAgrees(spot.did, |old(spot).did|, root, home, uid)
      ensures r.Ok? ==> SharesDevice(spot.did, |old(spot).did| + 2, root, home.dir)
    {
      var _ :- AssertDirectoryLive(root, home.dir, home.name, since);
      var inside :- Fstat(home.dir, since);
      var outside :- Fstat(root, since);
      return if inside.identity.dev == outside.identity.dev then Ok(()) else Err(WrongFilesystem);
    }

    /** Checks the new quarantine and syncs it, then the root. */
    method SettleQuarantine(root: NodeId, record: Record, home: Home, ghost still: bool, ghost plan: Plan,
                            ghost stage: Stage)
      returns (r: Outcome<(), Failure>)
      requires Valid()
      requires still ==> Follows(plan, record) && IsMade(plan, record, stage) && AtStage(disk, plan, stage)
      requires still ==> plan.site.root == root && plan.site.name == home.name && plan.site.quarantine == home.dir
      requires HasClosed(spot, listed, root, record, home)
      modifies `disk, `ticks, `trace, `spots, `spot
      ensures Valid() && Grows(old(trace), trace)
      ensures still && r.Ok? ==> AtStage(disk, plan, RootSynced(QuarantineSynced(stage)))
      ensures still ==> AllHold(|old(trace)|, trace, plan.holds)
      ensures still && env.Faultless() && root.dev == home.dir.dev ==> r.Ok?
      ensures r.Ok? ==> spot == Spot(old(spot.place), Some(MadeDurable(Creating)), record.name, [])
    {
      ghost var start := Mark(trace, disk);
      if still {
        StageLookups(plan.d, plan.site, record, stage);
        MadeHolds(plan, record, stage);
      }
      r := CheckQuarantine(root, home, start);
      ghost var checked := trace;
      if still {
        VisitsHold(|start.trace|, checked, {start.disk}, plan.holds);
      }
      if r.Err? { return; }
      QuarantineMaySync(old(spot), spot, listed, uid, root, record, home);
      r := SyncStaged(root, home.dir, record, Creating, still, plan, stage);
      GrowsTwice(start.trace, checked, trace);
      if still {
        HoldTwice(|start.trace|, checked, trace, plan.holds);
      }
    }

    /** The two syncs, on a stage of an undisturbed record. */
    method SyncStaged(root: NodeId, dir: NodeId, record: Record, phase: Phase, ghost still: bool, ghost plan: Plan,
                      ghost stage: Stage)
      returns (r: Outcome<(), Failure>)
      requires Valid()
      requires still ==> Follows(plan, record) && AtStage(disk, plan, stage) && CanSync(plan, stage)
      requires still ==> plan.site.root == root && plan.site.quarantine == dir
      requires Allows(spot, listed, uid, Call.Checkpoint(BeforeSync(phase, false), record.name))
      requires spot.place.root == root && spot.place.home.dir == dir
      modifies `disk, `ticks, `trace, `spots, `spot
      ensures Valid() && Grows(old(trace), trace)
      ensures still && r.Ok? ==> AtStage(disk, plan, RootSynced(QuarantineSynced(stage)))
      ensures still ==> AllHold(|old(trace)|, trace, plan.holds)
      ensures still && env.Faultless() ==> r.Ok?
      ensures r.Ok? ==> spot == Spot(old(spot.place), Some(MadeDurable(phase)), record.name, [])
    {
      ghost var start := Mark(trace, disk);
      if still {
        SyncedStages(plan, record, stage);
      }
      r := SyncBoth(root, dir, record, phase);
      if still {
        ghost var inner := Flushed(start.disk, dir);
        VisitsHold(|start.trace|, trace, {start.disk, inner, Flushed(inner, root)}, plan.holds);
      }
    }

    lemma SyncedStages(plan: Plan, record: Record, stage: Stage)
      requires Follows(plan, record) && CanSync(plan, stage)
      ensures var s := At(plan.d, plan.site, stage);
              && plan.site.root in s.nodes && plan.site.quarantine in s.nodes
              && Flushed(s, plan.site.quarantine) == At(plan.d, plan.site, QuarantineSynced(stage))
              && Flushed(Flushed(s, plan.site.quarantine), plan.site.root)
                == At(plan.d, plan.site, RootSynced(QuarantineSynced(stage)))
    {
      ReadyIsDistinct(plan.d, plan.site, record);
      SyncStage(plan.d, plan.site, stage);
      SyncStage(plan.d, plan.site, QuarantineSynced(stage));
    }

    /** The two syncs of a stage lead to states that hold. */
    predicate CanSync(plan: Plan, stage: Stage) {
      && stage.rootViews != [] && stage.quarantineViews != []
      && stage.rootNode.kind == Directory && stage.quarantineNode.kind == Directory
      && plan.holds(At(plan.d, plan.site, QuarantineSynced(stage)))
      && plan.holds(At(plan.d, plan.site, RootSynced(QuarantineSynced(stage))))
    }

    /** Syncs the quarantine, then the root, then reports. */
    method SyncBoth(root: NodeId, dir: NodeId, record: Record, phase: Phase) returns (r: Outcome<(), Failure>)
      requires Valid()
      requires Allows(spot, listed, uid, Call.Checkpoint(BeforeSync(phase, false), record.name))
      requires spot.place.root == root && spot.place.home.dir == dir
      modifies `disk, `ticks, `trace, `spots, `spot
      ensures Valid() && Grows(old(trace), trace)
      ensures env.Alone() ==>
                var inner := Flushed(old(disk), dir);
                && Visits(|old(trace)|, trace, {old(disk), inner, Flushed(inner, root)})
                && (r.Ok? ==> disk == Flushed(inner, root))
      ensures env.Alone() && env.Faultless() && dir in old(disk).nodes && root in old(disk).nodes ==> r.Ok?
      ensures r.Ok? ==> spot == Spot(old(spot.place), Some(MadeDurable(phase)), record.name, [])
    {
      AllowedIsNamed(spot, listed, uid, Call.Checkpoint(BeforeSync(phase, false), record.name));
      ghost var between := Flushed(old(disk), dir);
      ghost var states := {old(disk), between, Flushed(between, root)};
      r := Sync(dir, record.name, phase, false);
      ghost var inner := trace;
      if env.Alone() {
        VisitsMore(|old(trace)|, inner, {old(disk), between}, states);
      }
      if r.Err? { return; }
      r := SyncRoot(root, record.name, phase);
      GrowsTwice(old(trace), inner, trace);
      if env.Alone() {
        VisitsMore(|inner|, trace, {between, Flushed(between, root)}, states);
        VisitsTwice(|old(trace)|, inner, trace, states);
      }
    }

    /** Syncs the root, then reports that the phase is durable. */
    method SyncRoot(root: NodeId, name: Name, phase: Phase) returns (r: Outcome<(), Failure>)
      requires Valid() && root == spot.place.root
      requires spot == Spot(spot.place, Some(Synced(phase, false)), name, []) && IsNamed(spot.place, listed, name)
      modifies `disk, `ticks, `trace, `spots, `spot
      ensures Valid() && Grows(old(trace), trace)
      ensures env.Alone() ==> Visits(|old(trace)|, trace, {old(disk), Flushed(old(disk), root)})
      ensures env.Alone() && r.Ok? ==> disk == Flushed(old(disk), root)
      ensures env.Alone() && env.Faultless() && root in old(disk).nodes ==> r.Ok?
      ensures r.Ok? ==> spot == Spot(old(spot.place), Some(MadeDurable(phase)), name, [])
    {
      ghost var states := {old(disk), Flushed(old(disk), root)};
      SyncedAllows(spot, listed, uid);
      r := Sync(root, name, phase, true);
      if r.Err? { return; }
      ghost var synced := Mark(trace, disk);
      SyncedAllows(spot, listed, uid);
      r := Checkpoint(MadeDurable(phase), name, synced);
      GrowsTwice(old(trace), synced.trace, trace);
      if env.Alone() {
        VisitsMore(|synced.trace|, trace, {disk}, states);
        VisitsTwice(|old(trace)|, synced.trace, trace, states);
      }
    }

    /** A new quarantine in an undisturbed root is where the record will be pruned. */
    ghost predicate Poised(d0: Disk, d: Disk, root: NodeId, record: Record, holds: Disk -> bool) {
      && env.Alone() && IsDir(d, root) && ListsPair(d0, root, record) && holds(d)
      && forall home :: IsSiteOf(d0, d, root, record, SiteFor(d0, root, record, home)) ==>
           Follows(Plan(d, SiteFor(d0, root, record, home), holds), record)
    }

    ghost function SiteFor(d0: Disk, root: NodeId, record: Record, home: Home): Site
      requires ListsPair(d0, root, record)
    {
      Site(root, home.name, home.dir, NodeFor(d0, root, record, Manifest), NodeFor(d0, root, record, Artifact))
    }

    /** Creates the quarantine of a record and makes it durable. */
    method SetUp(root: NodeId, record: Record, ghost still: bool, ghost d0: Disk, ghost holds: Disk -> bool)
      returns (r: Outcome<Home, Failure>, ghost plan: Plan, ghost stage: Stage)
      requires Valid()
      requires still ==> Poised(d0, disk, root, record, holds)
      requires Stands(spot, listed, root, record, BeforeDelete)
      modifies `disk, `ticks, `trace, `spots, `spot
      ensures Valid() && Grows(old(trace), trace)
      ensures still ==> AllHold(|old(trace)|, trace, holds)
      ensures still && env.Faultless() && r.Err? ==> r.error == NoQuarantineName && disk == old(disk)
      ensures still && r.Ok? ==>
                && plan == Plan(old(disk), SiteFor(d0, root, record, r.value), holds)
                && IsSiteOf(d0, old(disk), root, record, plan.site)
                && Follows(plan, record) && Reached(plan.d, plan.site, record, stage, 0, uid)
                && AtStage(disk, plan, stage)
      ensures r.Ok? ==> StandsIn(spot, listed, root, r.value, record, MadeDurable(Creating))
      ensures r.Ok? ==> spot.place.count == old(spot.place).count
    {
      ghost var start := Mark(trace, disk);
      ghost var nothing := Inode(Other, 0, [], 0, 0, 0, 0, 0);
      stage := Stage([], [], nothing, nothing, nothing, nothing);
      plan := Plan(disk, Site(root, "", root, root, root), holds);
      var home;
      ghost var place, between, made, closed;
      home, place, between, made, closed := CreateQuarantine(root, record);
      ghost var created := trace;
      if still {
        if between != start.disk {
          NewPlaceHolds(d0, start.disk, root, record, holds, place, between, made);
        }
        if home.Ok? {
          plan, stage := MadePlan(d0, start.disk, root, record, holds, place, between, disk, made, closed);
        }
        VisitsHold(|start.trace|, created, {start.disk, between, disk}, holds);
      }
      if home.Err? { r := home; return; }
      var settled := SettleQuarantine(root, record, home.value, still, plan, stage);
      GrowsTwice(start.trace, created, trace);
      if still {
        HoldTwice(|start.trace|, created, trace, holds);
        stage := RootSynced(QuarantineSynced(stage));
      }
      r := if settled.Err? then Err(settled.error) else home;
    }

    /** The plan of a record whose quarantine was just made, and the stage that it is at. */
    lemma MadePlan(d0: Disk, d: Disk, root: NodeId, record: Record, holds: Disk -> bool, home: Home, between: Disk,
                   after: Disk, made: int, closed: int)
      returns (plan: Plan, stage: Stage)
      requires Poised(d0, d, root, record, holds)
      requires IsQuarantineName(home.name) && IsNewDirectory(d, between, root, home, made)
      requires IsMadePrivate(between, after, home.dir, closed)
      ensures plan == Plan(d, SiteFor(d0, root, record, home), holds)
      ensures IsSiteOf(d0, d, root, record, plan.site) && Follows(plan, record)
      ensures IsMade(plan, record, stage) && AtStage(after, plan, stage)
      ensures Reached(d, plan.site, record, RootSynced(QuarantineSynced(stage)), 0, uid)
    {
      plan := Plan(d, SiteFor(d0, root, record, home), holds);
      assert IsSiteOf(d0, d, root, record, plan.site);
      stage := MakingStages(plan, record, between, after, made, closed);
      MadeHolds(plan, record, stage);
    }

    lemma NewPlaceHolds(d0: Disk, d: Disk, root: NodeId, record: Record, holds: Disk -> bool, home: Home,
                        between: Disk, made: int)
      requires Poised(d0, d, root, record, holds)
      requires IsQuarantineName(home.name) && IsNewDirectory(d, between, root, home, made)
      ensures holds(between)
    {
      var plan := Plan(d, SiteFor(d0, root, record, home), holds);
      assert IsSiteOf(d0, d, root, record, plan.site);
      NewDirectoryHolds(plan, record, between, made);
    }

    /** Captures one file of the pair and makes its removal from the root durable. */
    method CaptureDurably(root: NodeId, home: Home, record: Record, part: Part, ghost still: bool, ghost plan: Plan,
                          ghost stage: Stage)
      returns (r: Outcome<(NodeId, Identity), Failure>, ghost next: Stage)
      requires Valid() && record in listed
      requires still ==> Follows(plan, record) && AtStage(disk, plan, stage)
      requires still ==> Reached(plan.d, plan.site, record, stage, if part.Manifest? then 0 else 1, uid)
      requires still ==> plan.site.root == root && plan.site.name == home.name && plan.site.quarantine == home.dir
      requires StandsIn(spot, listed, root, home, record,
                        MadeDurable(if part.Manifest? then Creating else Capturing(Manifest)))
      modifies `disk, `ticks, `trace, `spots, `spot
      ensures Valid() && Grows(old(trace), trace)
      ensures r.Ok? ==> Held(trace, record, part, r.value.0, r.value.1)
      ensures still ==> AllHold(|old(trace)|, trace, plan.holds)
      ensures still && r.Ok? ==> AtStage(disk, plan, next)
      ensures still && r.Ok? ==> Reached(plan.d, plan.site, record, next, if part.Manifest? then 1 else 2, uid)
      ensures still && r.Ok? && part.Artifact? ==> next.manifestNode == stage.manifestNode
      ensures still && r.Ok? ==>
        r.value.0 == NodeOf(plan.site, part) && IsExactFile(StatNode(disk, r.value.0), r.value.1, part)
      ensures still && env.Faultless() ==> r.Ok?
      ensures r.Ok? ==> spot == Spot(old(spot.place), Some(MadeDurable(Capturing(part))), record.name, [])
    {
      ghost var start := trace;
      next := stage;
      r, next := CaptureChecked(root, home, record, part, still, plan, stage);
      if r.Err? { return; }
      ghost var verified := trace;
      var synced := SyncStaged(root, home.dir, record, Capturing(part), still, plan, next);
      GrowsTwice(start, verified, trace);
      HeldExtends(verified, trace, record, part, r.value.0, r.value.1);
      if still {
        HoldTwice(|start|, verified, trace, plan.holds);
      }
      if synced.Err? { r := Err(synced.error); return; }
      if still {
        StageLookups(plan.d, plan.site, record, next);
        next := RootSynced(QuarantineSynced(next));
        StageLookups(plan.d, plan.site, record, next);
      }
    }

    /** Captures one file of the pair and checks the capture. */
    method CaptureChecked(root: NodeId, home: Home, record: Record, part: Part, ghost still: bool, ghost plan: Plan,
                          ghost stage: Stage)
      returns (r: Outcome<(NodeId, Identity), Failure>, ghost next: Stage)
      requires Valid() && record in listed
      requires still ==> Follows(plan, record) && AtStage(disk, plan, stage)
      requires still ==> Reached(plan.d, plan.site, record, stage, if part.Manifest? then 0 else 1, uid)
      requires still ==> plan.site.root == root && plan.site.name == home.name && plan.site.quarantine == home.dir
      requires StandsIn(spot, listed, root, home, record,
                        MadeDurable(if part.Manifest? then Creating else Capturing(Manifest)))
      modifies `disk, `ticks, `trace, `spots, `spot
      ensures Valid() && Grows(old(trace), trace)
      ensures r.Ok? ==> Held(trace, record, part, r.value.0, r.value.1)
      ensures still ==> AllHold(|old(trace)|, trace, plan.holds)
      ensures still && r.Ok? ==> AtStage(disk, plan, next) && CanSync(plan, next)
      ensures still && r.Ok? ==>
        Reached(plan.d, plan.site, record, RootSynced(QuarantineSynced(next)), if part.Manifest? then 1 else 2, uid)
      ensures still && r.Ok? && part.Artifact? ==> next.manifestNode == stage.manifestNode
      ensures still && r.Ok? ==>
        r.value.0 == NodeOf(plan.site, part) && IsExactFile(StatNode(disk, r.value.0), r.value.1, part)
      ensures still && env.Faultless() ==> r.Ok?
      ensures r.Ok? ==> Allows(spot, listed, uid, Call.Checkpoint(BeforeSync(Capturing(part), false), record.name))
      ensures r.Ok? ==> spot.place == old(spot.place)
    {
      ghost var start := trace;
      var held;
      held, next := CaptureStaged(root, home, record, part, still, plan, stage);
      if held.Err? { r := held; return; }
      ghost var captured := trace;
      var checked := CheckCapture(root, home, held.value, record, part, still, plan.holds);
      GrowsTwice(start, captured, trace);
      if still {
        HoldTwice(|start|, captured, trace, plan.holds);
      }
      r := if checked.Err? then Err(checked.error) else held;
    }

    method CheckCapture(root: NodeId, home: Home, held: (NodeId, Identity), ghost record: Record, part: Part,
                        ghost still: bool, ghost holds: Disk -> bool) returns (r: Outcome<(), Failure>)
      requires Valid() && Held(trace, record, part, held.0, held.1)
      requires still ==> env.Alone() && holds(disk)
      requires HasConfirmed(spot, listed, root, record, part, held.0, held.1) && spot.place.home == home
      modifies `disk, `ticks, `trace, `spots, `spot
      ensures Valid() && Grows(old(trace), trace) && Held(trace, record, part, held.0, held.1)
      ensures still ==> disk == old(disk) && AllHold(|old(trace)|, trace, holds)
      ensures env.Decides(r.Ok?,
                          && RootIsLive(disk, root) && DirectoryIsLive(disk, root, home.name, home.dir)
                          && Names(disk, home.dir, CapturedName(part), held.0)
                          && IsExactFile(StatNode(disk, held.0), held.1, part))
      ensures r.Ok? ==> Allows(spot, listed, uid, Call.Checkpoint(BeforeSync(Capturing(part), false), record.name))
      ensures r.Ok? ==> spot.place == old(spot.place)
    {
      ghost var start := Mark(trace, disk);
      r := AssertSingleCapture(root, home, held.0, held.1, part, start);
      HeldExtends(start.trace, trace, record, part, held.0, held.1);
      if r.Ok? {
        CaptureMaySync(old(spot), spot, listed, uid, root, home, record, part, held);
      }
      if still {
        VisitsHold(|start.trace|, trace, {disk}, holds);
      }
    }

    /** Captures one file of the pair, on a stage of an undisturbed record. */
    method CaptureStaged(root: NodeId, home: Home, record: Record, part: Part, ghost still: bool, ghost plan: Plan,
                         ghost stage: Stage)
      returns (r: Outcome<(NodeId, Identity), Failure>, ghost next: Stage)
      requires Valid() && record in listed
      requires still ==> Follows(plan, record) && AtStage(disk, plan, stage)
      requires still ==> Reached(plan.d, plan.site, record, stage, if part.Manifest? then 0 else 1, uid)
      requires still ==> plan.site.root == root && plan.site.name == home.name && plan.site.quarantine == home.dir
      requires StandsIn(spot, listed, root, home, record,
                        MadeDurable(if part.Manifest? then Creating else Capturing(Manifest)))
      modifies `disk, `ticks, `trace, `spots, `spot
      ensures Valid() && Grows(old(trace), trace)
      ensures r.Ok? ==> Held(trace, record, part, r.value.0, r.value.1)
      ensures still ==> AllHold(|old(trace)|, trace, plan.holds)
      ensures still && r.Ok? ==> AtStage(disk, plan, next) && CanSync(plan, next)
      ensures still && r.Ok? ==>
        Reached(plan.d, plan.site, record, RootSynced(QuarantineSynced(next)), if part.Manifest? then 1 else 2, uid)
      ensures still && r.Ok? && part.Artifact? ==> next.manifestNode == stage.manifestNode
      ensures still && r.Ok? ==>
        r.value.0 == NodeOf(plan.site, part) && IsExactFile(StatNode(disk, r.value.0), r.value.1, part)
      ensures still && env.Faultless() ==> r.Ok?
      ensures still && r.Ok? ==> RootIsLive(disk, root) && DirectoryIsLive(disk, root, home.name, home.dir)
      ensures still && r.Ok? ==> Names(disk, home.dir, CapturedName(part), r.value.0)
      ensures r.Ok? ==>
        HasConfirmed(spot, listed, root, record, part, r.value.0, r.value.1) && spot.place == old(spot.place)
    {
      ghost var start := trace;
      next := stage;
      ghost var moved := if part.Manifest? then 0 else 1;
      if still {
        CaptureIsFree(plan, record, stage, moved);
      }
      ghost var time;
      r, time := Capture(root, home.dir, record, part);
      if still {
        if IsCaptureOf(At(plan.d, plan.site, stage), disk, root, home.dir, record, part, time) {
          next := Moved(stage, plan.site, record, part, time);
          CaptureMoves(plan, record, stage, moved, time, disk);
        }
        VisitsHold(|start|, trace, {At(plan.d, plan.site, stage), disk}, plan.holds);
      }
    }

    lemma CaptureIsFree(plan: Plan, record: Record, stage: Stage, moved: nat)
      requires Follows(plan, record) && moved <= 1 && Reached(plan.d, plan.site, record, stage, moved, uid)
      ensures CanCapture(At(plan.d, plan.site, stage), plan.site.root, plan.site.quarantine, record, PartAt(moved))
      ensures Live(At(plan.d, plan.site, stage), plan.site.root)[SourceName(record, PartAt(moved))]
        == NodeOf(plan.site, PartAt(moved))
    {
      StageLookups(plan.d, plan.site, record, stage);
      ReadyIsDistinct(plan.d, plan.site, record);
      MoveReaches(plan.d, plan.site, record, stage, moved, uid, 0);
    }

    /** The capture of a file reaches a stage that holds. */
    lemma CaptureMoves(plan: Plan, record: Record, stage: Stage, moved: nat, time: int, s: Disk)
      requires Follows(plan, record) && moved <= 1 && Reached(plan.d, plan.site, record, stage, moved, uid)
      requires IsCaptureOf(At(plan.d, plan.site, stage), s, plan.site.root, plan.site.quarantine, record,
                           PartAt(moved), time)
      ensures var out := Moved(stage, plan.site, record, PartAt(moved), time);
              && AtStage(s, plan, out)
              && RootIsLive(s, plan.site.root)
              && DirectoryIsLive(s, plan.site.root, plan.site.name, plan.site.quarantine)
              && Names(s, plan.site.quarantine, CapturedName(PartAt(moved)), NodeOf(plan.site, PartAt(moved)))
              && CanSync(plan, out)
              && Reached(plan.d, plan.site, record, RootSynced(QuarantineSynced(out)), moved + 1, uid)
    {
      MoveReaches(plan.d, plan.site, record, stage, moved, uid, time);
      MoveStage(plan.d, plan.site, record, stage, PartAt(moved), time);
      MoveIsOrderly(plan.d, plan.site, record, stage, moved, uid, time);
      MovedIsLive(plan, record, stage, moved, time);
    }

    lemma MovedIsLive(plan: Plan, record: Record, stage: Stage, moved: nat, time: int)
      requires Ready(plan.d, plan.site, record) && RootIsLive(plan.d, plan.site.root)
      requires moved <= 1 && Reached(plan.d, plan.site, record, stage, moved, uid)
      ensures var s := At(plan.d, plan.site, Moved(stage, plan.site, record, PartAt(moved), time));
              && RootIsLive(s, plan.site.root)
              && DirectoryIsLive(s, plan.site.root, plan.site.name, plan.site.quarantine)
              && Names(s, plan.site.quarantine, CapturedName(PartAt(moved)), NodeOf(plan.site, PartAt(moved)))
    {
      MoveReaches(plan.d, plan.site, record, stage, moved, uid, time);
      ReadyIsDistinct(plan.d, plan.site, record);
      StageLookups(plan.d, plan.site, record, Moved(stage, plan.site, record, PartAt(moved), time));
    }

    /** The pair-wide barrier, and the checkpoint that declares it passed. */
    method PassBarrier(root: NodeId, home: Home, record: Record, m: (NodeId, Identity), a: (NodeId, Identity))
      returns (r: Outcome<(), Failure>, ghost pair: Clearance)
      requires Valid()
      requires Held(trace, record, Manifest, m.0, m.1) && Held(trace, record, Artifact, a.0, a.1)
      requires StandsIn(spot, listed, root, home, record, MadeDurable(Capturing(Artifact)))
      requires SameButCtime(record.manifest, m.1) && SameButCtime(record.artifact, a.1)
      modifies `disk, `ticks, `trace, `spots, `spot
      ensures Valid() && Continues(old(trace), trace)
      ensures r.Ok? ==> IsCleared(trace, pair) && pair.record == record && Covers(pair, m.0) && Covers(pair, a.0)
      ensures ChangesNothing(|old(trace)|, trace)
      ensures env.Alone() ==> disk == old(disk) && Visits(|old(trace)|, trace, {disk})
      ensures env.Decides(r.Ok?, PairIsCaptured(disk, root, home, m, a))
      ensures r.Ok? ==> spot == Spot(old(spot.place), Some(BarrierComplete), record.name, [])
    {
      ghost var start := Mark(trace, disk);
      ghost var none := Half(root, m.1, -1, -1, -1, -1, -1);
      pair := Clearance(record, root, -1, -1, none, none);
      r := CheckBarrier(root, home, record, m, a, start);
      if r.Err? { return; }
      ghost var read := trace;
      r := DeclareBarrier(record);
      pair := BarrierClears(start.trace, read, trace, record, home.dir, m, a);
      ChangesTwice(|start.trace|, read, trace);
      if env.Alone() {
        VisitsTwice(|start.trace|, read, trace, {disk});
      }
    }

    /** The checkpoint before the barrier, and the barrier. */
    method CheckBarrier(root: NodeId, home: Home, record: Record, m: (NodeId, Identity), a: (NodeId, Identity),
                        ghost since: Mark)
      returns (r: Outcome<(), Failure>)
      requires Valid() && since == Mark(trace, disk)
      requires StandsIn(spot, listed, root, home, record, MadeDurable(Capturing(Artifact)))
      requires SameButCtime(record.manifest, m.1) && SameButCtime(record.artifact, a.1)
      modifies `disk, `ticks, `trace, `spots, `spot
      ensures Valid() && OnlyLooked(env, since, trace, disk)
      ensures r.Ok? ==>
        |old(trace)| < |trace| && trace[|old(trace)|].call == Call.Checkpoint(BeforeBarrier, record.name)
      ensures r.Ok? ==> Reread(trace, |old(trace)|, |trace|, home.dir, Manifest, m.0, m.1)
      ensures r.Ok? ==> Reread(trace, |old(trace)|, |trace|, home.dir, Artifact, a.0, a.1)
      ensures env.Decides(r.Ok?, PairIsCaptured(disk, root, home, m, a))
      ensures r.Ok? ==> Allows(spot, listed, uid, Call.Checkpoint(BarrierComplete, record.name))
      ensures r.Ok? ==> spot.place == old(spot.place)
    {
      var _ :- BeginBarrier(root, record, since);
      ghost var asked := Mark(trace, disk);
      r := ReadBarrier(root, home, record, m, a, asked, |since.trace|);
      LookedTwice(env, since, asked, trace, disk);
      assert trace[|since.trace|] == trace[..|asked.trace|][|since.trace|];
    }

    /** The checkpoint before the barrier. */
    method BeginBarrier(root: NodeId, record: Record, ghost since: Mark) returns (r: Outcome<(), Failure>)
      requires Valid() && OnlyLooked(env, since, trace, disk)
      requires Stands(spot, listed, root, record, MadeDurable(Capturing(Artifact)))
      modifies `disk, `ticks, `trace, `spots, `spot
      ensures Valid() && OnlyLooked(env, since, trace, disk) && Grows(old(trace), trace)
      ensures |old(trace)| < |trace| && trace[|old(trace)|].call == Call.Checkpoint(BeforeBarrier, record.name)
      ensures env.Faultless() ==> r.Ok?
      ensures Stands(spot, listed, root, record, BeforeBarrier) && spot.place == old(spot.place)
    {
      BarrierMayBegin(spot, listed, uid, root, record);
      r := Checkpoint(BeforeBarrier, record.name, since);
    }

    /** The reads of the barrier, which let it be declared passed. */
    method ReadBarrier(root: NodeId, home: Home, record: Record, m: (NodeId, Identity), a: (NodeId, Identity),
                       ghost since: Mark, ghost q: int)
      returns (r: Outcome<(), Failure>)
      requires Valid() && OnlyLooked(env, since, trace, disk) && q < |since.trace|
      requires StandsIn(spot, listed, root, home, record, BeforeBarrier)
      requires SameButCtime(record.manifest, m.1) && SameButCtime(record.artifact, a.1)
      modifies `disk, `ticks, `trace, `spots, `spot
      ensures Valid() && OnlyLooked(env, since, trace, disk)
      ensures r.Ok? ==> Reread(trace, q, |trace|, home.dir, Manifest, m.0, m.1)
      ensures r.Ok? ==> Reread(trace, q, |trace|, home.dir, Artifact, a.0, a.1)
      ensures env.Decides(r.Ok?, PairIsCaptured(disk, root, home, m, a))
      ensures r.Ok? ==> Allows(spot, listed, uid, Call.Checkpoint(BarrierComplete, record.name))
      ensures r.Ok? ==> spot.place == old(spot.place)
    {
      r := AssertPairCaptured(root, home, m, a, since, q);
      if r.Ok? {
        BarrierMayEnd(old(spot), spot, listed, uid, root, home, record, m, a);
      }
    }

    method DeclareBarrier(record: Record) returns (r: Outcome<(), Failure>)
      requires Valid()
      requires Allows(spot, listed, uid, Call.Checkpoint(BarrierComplete, record.name))
      modifies `disk, `ticks, `trace, `spots, `spot
      ensures Valid() && |trace| == |old(trace)| + 2 && Continues(old(trace), trace)
      ensures trace[|old(trace)|].call == Call.Checkpoint(BarrierComplete, record.name)
      ensures trace[|old(trace)| + 1].call.Interference?
      ensures ChangesNothing(|old(trace)|, trace)
      ensures env.Alone() ==> disk == old(disk) && Visits(|old(trace)|, trace, {disk})
      ensures env.Faultless() ==> r.Ok?
      ensures spot == Spot(old(spot.place), Some(BarrierComplete), record.name, [])
    {
      Perform(Call.Checkpoint(BarrierComplete, record.name));
      var asked := ticks;
      var failed := Yield();
      return if failed || !env.goOn(asked) then Err(Aborted) else Ok(());
    }

    /** Both halves are cleared once the barrier has read them again and has been declared passed. */
    lemma BarrierClears(start: Trace, read: Trace, after: Trace, record: Record, dir: NodeId,
                        m: (NodeId, Identity), a: (NodeId, Identity)) returns (pair: Clearance)
      requires Held(start, record, Manifest, m.0, m.1) && Held(start, record, Artifact, a.0, a.1)
      requires Surrounds(start, read, after, record)
      requires Reread(read, |start|, |read|, dir, Manifest, m.0, m.1)
      requires Reread(read, |start|, |read|, dir, Artifact, a.0, a.1)
      ensures IsCleared(after, pair) && pair.record == record && Covers(pair, m.0) && Covers(pair, a.0)
    {
      var manifest := HalfIsConfirmed(start, read, after, record, Manifest, dir, m);
      var artifact := HalfIsConfirmed(start, read, after, record, Artifact, dir, a);
      SurroundsIsBarrier(start, read, after, record);
      pair := Clearance(record, dir, |start|, |read|, manifest, artifact);
    }

    /** The checkpoint before the barrier follows the first trace, the one that declares it passed the second. */
    ghost predicate Surrounds(start: Trace, read: Trace, after: Trace, record: Record) {
      && Continues(start, read) && |start| < |read| && |after| == |read| + 2 && Continues(read, after)
      && read[|start|].call == Call.Checkpoint(BeforeBarrier, record.name)
      && after[|read|].call == Call.Checkpoint(BarrierComplete, record.name) && after[|read| + 1].call.Interference?
    }

    lemma SurroundsIsBarrier(start: Trace, read: Trace, after: Trace, record: Record)
      requires Surrounds(start, read, after, record)
      ensures BarrierAt(after, record, |start|, |read|)
    {
      assert after[|start|] == after[..|read|][|start|];
    }

    lemma HalfIsConfirmed(start: Trace, read: Trace, after: Trace, record: Record, part: Part, dir: NodeId,
                          found: (NodeId, Identity)) returns (half: Half)
      requires Held(start, record, part, found.0, found.1) && Continues(start, read) && Continues(read, after)
      requires Reread(read, |start|, |read|, dir, part, found.0, found.1)
      ensures half.node == found.0 && IsConfirmed(after, record, part, half, dir, |start|, |read|)
    {
      ContinuesTwice(start, read, after);
      RereadExtends(read, after, |start|, |read|, dir, part, found.0, found.1);
      half := HeldIsConfirmed(start, after, record, part, found.0, found.1, dir, |read|);
    }

    /** Empties both held inodes, the manifest first. */
    method ReclaimBoth(record: Record, m: NodeId, a: NodeId, ghost pair: Clearance,
                       ghost still: bool, ghost plan: Plan, ghost stage: Stage)
      returns (r: Outcome<(), Failure>, ghost next: Stage)
      requires Valid() && IsCleared(trace, pair) && pair.record in listed && Covers(pair, m) && Covers(pair, a)
      requires still ==>
        Follows(plan, record) && AtStage(disk, plan, stage) && Reached(plan.d, plan.site, record, stage, 2, uid)
      requires still ==> m == plan.site.manifest && a == plan.site.artifact
      requires Stands(spot, listed, spot.place.root, record, BarrierComplete)
      requires Pins(record, Manifest, m) && Pins(record, Artifact, a)
      modifies `disk, `ticks, `trace, `spots, `spot
      ensures Valid() && Grows(old(trace), trace)
      ensures still ==> AllHold(|old(trace)|, trace, plan.holds)
      ensures still && r.Ok? ==> AtStage(disk, plan, next) && IsReclaimed(plan, record, next)
      ensures still && env.Faultless() ==> r.Ok?
      ensures r.Ok? ==> spot == Spot(old(spot.place), Some(Reclaimed(Artifact)), record.name, [])
    {
      next := stage;
      ghost var start := trace;
      ghost var time;
      r, time := ReclaimStaged(m, record, Manifest, pair, still, plan, stage);
      if r.Err? { return; }
      next := Emptied(stage, Manifest, time);
      ghost var halfway := trace;
      ClearedExtends(start, trace, pair);
      r, time := ReclaimStaged(a, record, Artifact, pair, still, plan, next);
      GrowsTwice(start, halfway, trace);
      next := Emptied(next, Artifact, time);
      if still {
        HoldTwice(|start|, halfway, trace, plan.holds);
      }
    }

    /** Empties one held inode, on a stage of an undisturbed record. */
    method ReclaimStaged(fd: NodeId, record: Record, part: Part, ghost pair: Clearance,
                         ghost still: bool, ghost plan: Plan, ghost stage: Stage)
      returns (r: Outcome<(), Failure>, ghost time: int)
      requires Valid() && IsCleared(trace, pair) && pair.record in listed && Covers(pair, fd)
      requires still ==> Follows(plan, record) && AtStage(disk, plan, stage) && IsOut(plan, record, stage)
      requires still ==> fd == NodeOf(plan.site, part)
      requires Stands(spot, listed, spot.place.root, record, if part.Manifest? then BarrierComplete
                      else Reclaimed(Manifest)) && Pins(record, part, fd)
      modifies `disk, `ticks, `trace, `spots, `spot
      ensures Valid() && Grows(old(trace), trace)
      ensures still ==> AllHold(|old(trace)|, trace, plan.holds)
      ensures still && r.Ok? ==>
        AtStage(disk, plan, Emptied(stage, part, time)) && IsOut(plan, record, Emptied(stage, part, time))
      ensures still && env.Faultless() ==> r.Ok?
      ensures r.Ok? ==> spot == Spot(old(spot.place), Some(Reclaimed(part)), record.name, [])
    {
      ghost var start := trace;
      if still {
        StageLookups(plan.d, plan.site, record, stage);
      }
      r, time := Reclaim(fd, record, part, pair);
      if still {
        TruncateStage(plan.d, plan.site, record, stage, part, time);
        EmptiedHolds(plan, record, stage, part, time);
        VisitsHold(|start|, trace, {At(plan.d, plan.site, stage), disk}, plan.holds);
      }
    }

    /** Both names durably gone, both inodes durably held, kept or emptied. */
    predicate IsOut(plan: Plan, record: Record, stage: Stage)
      requires Ready(plan.d, plan.site, record)
    {
      ReadyIsDistinct(plan.d, plan.site, record);
      && stage.rootViews == [RootWithoutPair(plan.d, plan.site, record)]
      && stage.quarantineViews == [HeldAfter(plan.site, 2)]
      && IsTouched(plan.d.nodes[plan.site.root], stage.rootNode) && stage.quarantineNode.kind == Directory
      && IsKept(plan.d.nodes[plan.site.manifest], stage.manifestNode)
      && IsKept(plan.d.nodes[plan.site.artifact], stage.artifactNode)
    }

    /** Both names durably gone, both inodes durably held and emptied. */
    predicate IsReclaimed(plan: Plan, record: Record, stage: Stage)
      requires Ready(plan.d, plan.site, record)
    {
      ReadyIsDistinct(plan.d, plan.site, record);
      && stage.rootViews == [RootWithoutPair(plan.d, plan.site, record)]
      && stage.quarantineViews == [HeldAfter(plan.site, 2)]
      && IsTouched(plan.d.nodes[plan.site.root], stage.rootNode)
      && stage.quarantineNode.kind == Directory && stage.quarantineNode.perm == PRIVATE_MODE
      && stage.quarantineNode.uid == uid
      && IsEmptiedCopy(plan.d.nodes[plan.site.manifest], stage.manifestNode)
      && IsEmptiedCopy(plan.d.nodes[plan.site.artifact], stage.artifactNode)
    }

    lemma EmptiedHolds(plan: Plan, record: Record, stage: Stage, part: Part, time: int)
      requires Follows(plan, record) && IsOut(plan, record, stage)
      ensures IsOut(plan, record, Emptied(stage, part, time))
      ensures plan.holds(At(plan.d, plan.site, Emptied(stage, part, time)))
    {
      ReadyIsDistinct(plan.d, plan.site, record);
      ReclaimIsOrderly(plan.d, plan.site, record, Emptied(stage, part, time));
    }

    /** Barrier, reclamation and tombstones of a captured pair. */
    method FinishRecord(root: NodeId, home: Home, record: Record, m: (NodeId, Identity), a: (NodeId, Identity),
                        ghost still: bool, ghost plan: Plan, ghost stage: Stage)
      returns (r: Outcome<(), Failure>, ghost next: Stage)
      requires Valid() && record in listed
      requires Held(trace, record, Manifest, m.0, m.1) && Held(trace, record, Artifact, a.0, a.1)
      requires still ==>
        Follows(plan, record) && AtStage(disk, plan, stage) && Reached(plan.d, plan.site, record, stage, 2, uid)
      requires still ==> plan.site.root == root && plan.site.name == home.name && plan.site.quarantine == home.dir
      requires still ==> m.0 == plan.site.manifest && IsExactFile(StatNode(disk, m.0), m.1, Manifest)
      requires still ==> a.0 == plan.site.artifact && IsExactFile(StatNode(disk, a.0), a.1, Artifact)
      requires StandsIn(spot, listed, root, home, record, MadeDurable(Capturing(Artifact)))
      modifies `disk, `ticks, `trace, `spots, `spot
      ensures Valid() && Continues(old(trace), trace)
      ensures still ==> AllHold(|old(trace)|, trace, plan.holds)
      ensures still && r.Ok? ==> AtStage(disk, plan, next) && IsReclaimed(plan, record, next)
      ensures still && env.Faultless() ==> r.Ok?
      ensures r.Ok? ==> spot == Spot(old(spot.place), Some(MadeDurable(Retaining)), record.name, [])
    {
      next := stage;
      ghost var start := trace;
      if still {
        CapturedShows(plan, record, stage);
      }
      HeldIsRecorded(trace, listed, record, Manifest, m.0, m.1);
      HeldIsRecorded(trace, listed, record, Artifact, a.0, a.1);
      ghost var pair;
      r, pair := PassBarrier(root, home, record, m, a);
      if still {
        VisitsHold(|start|, trace, {disk}, plan.holds);
      }
      if r.Err? { return; }
      ghost var passed := trace;
      r, next := ReclaimBoth(record, m.0, a.0, pair, still, plan, stage);
      ContinuesTwice(start, passed, trace);
      if still {
        HoldTwice(|start|, passed, trace, plan.holds);
      }
      if r.Err? { return; }
      passed := trace;
      r := KeepTombstones(root, home, record, m.0, a.0, still, plan, next);
      ContinuesTwice(start, passed, trace);
      if still {
        HoldTwice(|start|, passed, trace, plan.holds);
      }
    }

    lemma ContinuesTwice(first: Trace, second: Trace, third: Trace)
      requires Continues(first, second) && Continues(second, third)
      ensures Continues(first, third)
    {
      assert third[..|first|] == second[..|first|];
    }

    lemma CapturedShows(plan: Plan, record: Record, stage: Stage)
      requires Follows(plan, record)
      requires stage.rootViews == [RootWithoutPair(plan.d, plan.site, record)]
        && stage.quarantineViews == [HeldAfter(plan.site, 2)]
      requires IsTouched(plan.d.nodes[plan.site.root], stage.rootNode)
      requires stage.quarantineNode.kind == Directory && stage.quarantineNode.perm == PRIVATE_MODE
        && stage.quarantineNode.uid == uid
      ensures var s := At(plan.d, plan.site, stage);
              && RootIsLive(s, plan.site.root)
              && DirectoryIsLive(s, plan.site.root, plan.site.name, plan.site.quarantine)
              && Names(s, plan.site.quarantine, "manifest", plan.site.manifest)
              && Names(s, plan.site.quarantine, "artifact", plan.site.artifact)
    {
      ReadyIsDistinct(plan.d, plan.site, record);
      StageLookups(plan.d, plan.site, record, stage);
    }

    /** Checks the tombstones and makes them durable. */
    method KeepTombstones(root: NodeId, home: Home, record: Record, m: NodeId, a: NodeId,
                          ghost still: bool, ghost plan: Plan, ghost stage: Stage) returns (r: Outcome<(), Failure>)
      requires Valid()
      requires still ==> Follows(plan, record) && AtStage(disk, plan, stage) && IsReclaimed(plan, record, stage)
      requires still ==> plan.site.root == root && plan.site.name == home.name && plan.site.quarantine == home.dir
      requires still ==> m == plan.site.manifest && a == plan.site.artifact
      requires StandsIn(spot, listed, root, home, record, Reclaimed(Artifact))
      requires Pins(record, Manifest, m) && Pins(record, Artifact, a)
      modifies `disk, `ticks, `trace, `spots, `spot
      ensures Valid() && Continues(old(trace), trace)
      ensures still ==> AllHold(|old(trace)|, trace, plan.holds)
      ensures still && r.Ok? ==> AtStage(disk, plan, stage)
      ensures still && env.Faultless() ==> r.Ok?
      ensures r.Ok? ==> spot == Spot(old(spot.place), Some(MadeDurable(Retaining)), record.name, [])
    {
      ghost var start := Mark(trace, disk);
      if still {
        CapturedShows(plan, record, stage);
        StageLookups(plan.d, plan.site, record, stage);
        ReadyIsDistinct(plan.d, plan.site, record);
        assert RootSynced(QuarantineSynced(stage)) == stage && QuarantineSynced(stage) == stage;
      }
      r := AssertPairTombstones(root, home, record, m, a, start);
      if still {
        VisitsHold(|start.trace|, trace, {disk}, plan.holds);
      }
      if r.Err? { return; }
      ghost var checked := trace;
      TombstonesMaySync(old(spot), spot, listed, uid, root, home, record);
      r := SyncStaged(root, home.dir, record, Retaining, still, plan, stage);
      ContinuesTwice(start.trace, checked, trace);
      if still {
        HoldTwice(|start.trace|, checked, trace, plan.holds);
      }
    }

    /** Captures both files of a pair, the manifest first. */
    method CapturePair(root: NodeId, home: Home, record: Record, ghost still: bool, ghost plan: Plan,
                       ghost stage: Stage)
      returns (r: Outcome<((NodeId, Identity), (NodeId, Identity)), Failure>, ghost next: Stage)
      requires Valid() && record in listed
      requires still ==>
        Follows(plan, record) && AtStage(disk, plan, stage) && Reached(plan.d, plan.site, record, stage, 0, uid)
      requires still ==> plan.site.root == root && plan.site.name == home.name && plan.site.quarantine == home.dir
      requires StandsIn(spot, listed, root, home, record, MadeDurable(Creating))
      modifies `disk, `ticks, `trace, `spots, `spot
      ensures Valid() && Grows(old(trace), trace)
      ensures r.Ok? ==>
        Held(trace, record, Manifest, r.value.0.0, r.value.0.1)
          && Held(trace, record, Artifact, r.value.1.0, r.value.1.1)
      ensures still ==> AllHold(|old(trace)|, trace, plan.holds)
      ensures still && r.Ok? ==> AtStage(disk, plan, next) && Reached(plan.d, plan.site, record, next, 2, uid)
      ensures still && r.Ok? ==>
        r.value.0.0 == plan.site.manifest && IsExactFile(StatNode(disk, r.value.0.0), r.value.0.1, Manifest)
      ensures still && r.Ok? ==>
        r.value.1.0 == plan.site.artifact && IsExactFile(StatNode(disk, r.value.1.0), r.value.1.1, Artifact)
      ensures still && env.Faultless() ==> r.Ok?
      ensures r.Ok? ==> spot == Spot(old(spot.place), Some(MadeDurable(Capturing(Artifact))), record.name, [])
    {
      ghost var start := trace;
      var m, a;
      m, next := CaptureDurably(root, home, record, Manifest, still, plan, stage);
      if m.Err? { r := Err(m.error); return; }
      ghost var halfway := Mark(trace, disk);
      ghost var between := next;
      a, next := CaptureDurably(root, home, record, Artifact, still, plan, between);
      GrowsTwice(start, halfway.trace, trace);
      HeldExtends(halfway.trace, trace, record, Manifest, m.value.0, m.value.1);
      if still {
        HoldTwice(|start|, halfway.trace, trace, plan.holds);
      }
      if a.Err? { r := Err(a.error); return; }
      if still {
        ManifestKeeps(plan, record, between, next);
      }
      r := Ok((m.value, a.value));
    }

    /** Capturing the artifact leaves the captured manifest as it is. */
    lemma ManifestKeeps(plan: Plan, record: Record, between: Stage, next: Stage)
      requires Follows(plan, record)
      requires between.rootViews != [] && between.quarantineViews != [] && next.rootViews != []
        && next.quarantineViews != []
      requires between.manifestNode == next.manifestNode
      ensures StatNode(At(plan.d, plan.site, between), plan.site.manifest)
        == StatNode(At(plan.d, plan.site, next), plan.site.manifest)
    {
      StageLookups(plan.d, plan.site, record, between);
      StageLookups(plan.d, plan.site, record, next);
    }

    /** Prunes one pair: quarantine, two captures, barrier, reclamation, tombstones. */
    method PruneRecord(root: NodeId, record: Record, ghost still: bool, ghost d0: Disk, ghost holds: Disk -> bool)
      returns (r: Outcome<(), Failure>, ghost plan: Plan, ghost stage: Stage)
      requires Valid() && record in listed
      requires still ==> Poised(d0, disk, root, record, holds)
      requires Stands(spot, listed, root, record, BeforeDelete)
      modifies `disk, `ticks, `trace, `spots, `spot
      ensures Valid() && Continues(old(trace), trace)
      ensures still ==> AllHold(|old(trace)|, trace, holds)
      ensures still && env.Faultless() && r.Err? ==> r.error == NoQuarantineName && disk == old(disk)
      ensures still && r.Ok? ==>
                && plan.d == old(disk) && plan.site.root == root && IsSiteOf(d0, old(disk), root, record, plan.site)
                && Ready(plan.d, plan.site, record) && Finished(plan.d, plan.site, record, stage)
                && disk == At(plan.d, plan.site, stage)
      ensures r.Ok? ==>
        Stands(spot, listed, root, record, MadeDurable(Retaining)) && spot.place.count == old(spot.place).count
    {
      ghost var start := trace;
      var home;
      home, plan, stage := SetUp(root, record, still, d0, holds);
      if home.Err? { r := Err(home.error); return; }
      ghost var passed := trace;
      var pair;
      pair, stage := CapturePair(root, home.value, record, still, plan, stage);
      ContinuesTwice(start, passed, trace);
      if still {
        HoldTwice(|start|, passed, trace, holds);
      }
      if pair.Err? { r := Err(pair.error); return; }
      passed := trace;
      r, stage := FinishRecord(root, home.value, record, pair.value.0, pair.value.1, still, plan, stage);
      ContinuesTwice(start, passed, trace);
      if still {
        HoldTwice(|start|, passed, trace, holds);
      }
    }

    // ---------- The whole run ----------

    /** The tombstone directories leave room for the request and are all private. */
    predicate BudgetAllows(d: Disk, root: NodeId, requested: nat) {
      && |Quarantines(Live(d, root))| + requested <= MAX_TOMBSTONES
      && forall name :: name in Quarantines(Live(d, root)) ==> IsPrivateAt(d, root, name)
    }

    predicate IsPrivateAt(d: Disk, dir: NodeId, name: Name) {
      StatAt(d, dir, name).Some? && IsPrivateDirectory(StatAt(d, dir, name).value, uid)
    }

    method ValidateBudget(root: NodeId, requested: nat, ghost since: Mark) returns (r: Outcome<(), Failure>)
      requires Valid() && OnlyLooked(env, since, trace, disk)
      requires HasRoot(spot, root, uid)
      modifies `disk, `ticks, `trace, `spots, `spot
      ensures Valid() && OnlyLooked(env, since, trace, disk)
      ensures env.Decides(r.Ok?, IsDir(disk, root) && BudgetAllows(disk, root, requested))
      ensures r.Ok? ==> HasAdmitted(spot, root, uid) && spot.place == old(spot.place)
    {
      var names :- ListQuarantines(root, since);
      if |names| + requested > MAX_TOMBSTONES {
        return Err(BudgetExceeded);
      }
      var rest := names;
      while rest != {}
        invariant Valid() && OnlyLooked(env, since, trace, disk)
        invariant rest <= names && (env.Alone() ==> IsDir(disk, root) && names == Quarantines(Live(disk, root)))
        invariant env.Alone() ==> forall name :: name in names - rest ==> IsPrivateAt(disk, root, name)
        invariant HasAdmitted(spot, root, uid) && spot.place == old(spot.place)
        decreases rest
      {
        var name :| name in rest;
        rest := rest - {name};
        var _ :- AssertPrivateAt(root, name, since);
      }
      return Ok(());
    }

    method ListQuarantines(root: NodeId, ghost since: Mark) returns (r: Outcome<set<Name>, Failure>)
      requires Valid() && OnlyLooked(env, since, trace, disk)
      requires HasRoot(spot, root, uid)
      modifies `disk, `ticks, `trace, `spots, `spot
      ensures Valid() && OnlyLooked(env, since, trace, disk)
      ensures env.Decides(r.Ok?, IsDir(disk, root))
      ensures env.Alone() && r.Ok? ==> r.value == Quarantines(Live(disk, root))
      ensures r.Ok? ==> HasAdmitted(spot, root, uid) && spot.place == old(spot.place)
    {
      var failed := Yield();
      if failed || !IsDir(disk, root) {
        return Err(OsError);
      }
      Observe(List(root));
      return Ok(Quarantines(Live(disk, root)));
    }

    method AssertPrivateAt(root: NodeId, name: Name, ghost since: Mark) returns (r: Outcome<(), Failure>)
      requires Valid() && OnlyLooked(env, since, trace, disk)
      requires HasAdmitted(spot, root, uid)
      modifies `disk, `ticks, `trace, `spots, `spot
      ensures Valid() && OnlyLooked(env, since, trace, disk)
      ensures env.Decides(r.Ok?, IsPrivateAt(disk, root, name))
      ensures r.Ok? ==> HasAdmitted(spot, root, uid) && spot.place == old(spot.place)
    {
      var found :- PathStat(root, name, since);
      if found.None? {
        return Err(OsError);
      }
      return if IsPrivateDirectory(found.value, uid) then Ok(()) else Err(UnsafeDirectory);
    }

    /** Verifies the next record of the preflight. */
    method VerifyNext(root: NodeId, record: Record, ghost since: Mark) returns (r: Outcome<(), Failure>)
      requires Valid() && OnlyLooked(env, since, trace, disk)
      requires IsNext(spot.place, listed, root, record) && HasChecked(spot, listed, uid, root, spot.place.count)
      modifies `disk, `ticks, `trace, `spots, `spot
      ensures Valid() && OnlyLooked(env, since, trace, disk)
      ensures env.Decides(r.Ok?, PairMatches(disk, root, record))
      ensures r.Ok? ==> HasChecked(spot, listed, uid, root, old(spot.place).count + 1)
    {
      r := VerifyPair(root, record, false, since);
      if r.Ok? {
        VerifiedIsChecked(spot, listed, uid, root, spot.place.count);
      }
    }

    method VerifyAll(root: NodeId, records: seq<Record>, ghost since: Mark) returns (r: Outcome<(), Failure>)
      requires Valid() && OnlyLooked(env, since, trace, disk)
      requires listed == records && HasChecked(spot, listed, uid, root, 0)
      modifies `disk, `ticks, `trace, `spots, `spot
      ensures Valid() && OnlyLooked(env, since, trace, disk)
      ensures env.Decides(r.Ok?, forall i :: 0 <= i < |records| ==> PairMatches(disk, root, records[i]))
      ensures r.Ok? ==> HasChecked(spot, listed, uid, root, |records|)
    {
      for i := 0 to |records|
        invariant Valid() && OnlyLooked(env, since, trace, disk)
        invariant HasChecked(spot, listed, uid, root, i)
        invariant env.Alone() ==> forall j :: 0 <= j < i ==> PairMatches(disk, root, records[j])
      {
        var _ :- VerifyNext(root, records[i], since);
      }
      return Ok(());
    }

    /** Checks every pair before anything is touched. */
    method Preflight(root: NodeId, records: seq<Record>, ghost since: Mark)
      returns (r: Outcome<(), Failure>, ghost p: int)
      requires Valid() && OnlyLooked(env, since, trace, disk)
      requires listed == records && HoldsRoot(spot, root)
      modifies `disk, `ticks, `trace, `spots, `spot
      ensures Valid() && OnlyLooked(env, since, trace, disk)
      ensures r.Ok? ==> |since.trace| <= p == |trace| - 2 && trace[p].call == Call.Checkpoint(PreflightComplete, "")
      ensures env.Decides(r.Ok?,
                          && IsDir(disk, root) && RootIsLive(disk, root) && BudgetAllows(disk, root, |records|)
                          && forall i :: 0 <= i < |records| ==> PairMatches(disk, root, records[i]))
      ensures r.Ok? ==> IsReady(spot, root, 0)
    {
      p := 0;
      var _ :- Inspect(root, records, since);
      p := |trace|;
      PreflightMayEnd(spot, listed, uid);
      r := Checkpoint(PreflightComplete, "", since);
    }

    /** The root is live, the budget allows the request, and every pair is as recorded. */
    method Inspect(root: NodeId, records: seq<Record>, ghost since: Mark) returns (r: Outcome<(), Failure>)
      requires Valid() && OnlyLooked(env, since, trace, disk)
      requires listed == records && HoldsRoot(spot, root)
      modifies `disk, `ticks, `trace, `spots, `spot
      ensures Valid() && OnlyLooked(env, since, trace, disk)
      ensures env.Decides(r.Ok?,
                          && IsDir(disk, root) && RootIsLive(disk, root) && BudgetAllows(disk, root, |records|)
                          && forall i :: 0 <= i < |records| ==> PairMatches(disk, root, records[i]))
      ensures r.Ok? ==> HasChecked(spot, listed, uid, root, |records|)
    {
      var _ :- AssertRootLive(root, since);
      var _ :- ValidateBudget(root, |records|, since);
      r := VerifyAll(root, records, since);
    }

    /** What is known of a disk on which so many records are done, and how it carries over. */
    ghost predicate Inductive(done: (Disk, nat) -> bool, d0: Disk, root: NodeId, holds: Disk -> bool)
      reads `listed
    {
      && (forall d, k: nat :: k < |listed| && done(d, k) ==>
            PairMatches(d, root, listed[k]) && Poised(d0, d, root, listed[k], holds))
      && (forall d, k: nat, site, stage ::
          k < |listed| && done(d, k) && Completes(d0, d, root, listed[k], site, stage) ==>
            done(At(d, site, stage), k + 1))
    }

    /** Checks a pair once more and prunes it. */
    method PruneNext(root: NodeId, record: Record, ghost still: bool, ghost d0: Disk, ghost holds: Disk -> bool,
                     ghost done: (Disk, nat) -> bool, ghost k: nat) returns (r: Outcome<(), Failure>)
      requires Valid() && k < |listed| && record == listed[k]
      requires still ==> env.Alone() && Inductive(done, d0, root, holds) && done(disk, k)
      requires IsReady(spot, root, k)
      modifies `disk, `ticks, `trace, `spots, `spot
      ensures Valid() && Continues(old(trace), trace)
      ensures still ==> AllHold(|old(trace)|, trace, holds)
      ensures still && r.Ok? ==> done(disk, k + 1)
      ensures still && env.Faultless() && r.Err? ==> r.error == NoQuarantineName && done(disk, k)
      ensures r.Ok? ==> IsReady(spot, root, k + 1)
    {
      ghost var here := Mark(trace, disk);
      r := LookAgain(root, record, here);
      ghost var looked := Mark(trace, disk);
      if still {
        VisitsHold(|here.trace|, trace, {here.disk}, holds);
      }
      if r.Err? { return; }
      ghost var plan, stage;
      r, plan, stage := PruneRecord(root, record, still, d0, holds);
      ContinuesTwice(here.trace, looked.trace, trace);
      if still {
        HoldTwice(|here.trace|, looked.trace, trace, holds);
        assert r.Ok? ==> Completes(d0, looked.disk, root, record, plan.site, stage);
      }
    }

    /** The check right before a pair is pruned. */
    method LookAgain(root: NodeId, record: Record, ghost since: Mark) returns (r: Outcome<(), Failure>)
      requires Valid() && OnlyLooked(env, since, trace, disk)
      requires IsNext(spot.place, listed, root, record) && MayTurn(spot, listed, uid, true)
      modifies `disk, `ticks, `trace, `spots, `spot
      ensures Valid() && OnlyLooked(env, since, trace, disk)
      ensures env.Decides(r.Ok?, PairMatches(disk, root, record))
      ensures r.Ok? ==>
        Stands(spot, listed, root, record, BeforeDelete) && spot.place.count == old(spot.place).count + 1
    {
      var _ :- VerifyPair(root, record, true, since);
      DeletionIsAllowed(spot, listed, uid, record);
      r := Checkpoint(BeforeDelete, record.name, since);
    }

    /** Prunes the records in order. */
    method PruneAll(root: NodeId, records: seq<Record>, ghost still: bool, ghost d0: Disk, ghost holds: Disk -> bool,
                    ghost done: (Disk, nat) -> bool) returns (r: Outcome<(), Failure>, ghost count: nat)
      requires Valid() && listed == records
      requires still ==> env.Alone() && Inductive(done, d0, root, holds) && done(disk, 0)
      requires IsReady(spot, root, 0)
      modifies `disk, `ticks, `trace, `spots, `spot
      ensures Valid() && Continues(old(trace), trace)
      ensures still ==> AllHold(|old(trace)|, trace, holds)
      ensures still && r.Ok? ==> done(disk, |records|)
      ensures still && env.Faultless() && r.Err? ==>
        r.error == NoQuarantineName && count < |records| && done(disk, count)
      ensures r.Ok? ==> IsReady(spot, root, |records|)
    {
      count := 0;
      ghost var start := trace;
      for k := 0 to |records|
        invariant Valid() && Continues(start, trace) && count == k && IsReady(spot, root, k)
        invariant still ==> done(disk, k) && AllHold(|start|, trace, holds)
      {
        ghost var here := trace;
        r := PruneNext(root, records[k], still, d0, holds, done, k);
        ContinuesTwice(start, here, trace);
        if still {
          HoldTwice(|start|, here, trace, holds);
        }
        if r.Err? { return; }
        count := k + 1;
      }
      r := Ok(());
    }

    /** Whatever a prune is at while it is under way is a state that holds. */
    ghost predicate CoversStages(d0: Disk, root: NodeId, holds: Disk -> bool)
      reads `listed
    {
      forall s :: IsUnderWay(d0, s, root, listed) ==> holds(s)
    }

    lemma StagesHold(d0: Disk, d: Disk, root: NodeId, k: nat, homes: seq<Home>, holds: Disk -> bool, site: Site)
      requires CoversStages(d0, root, holds)
      requires Pruned(d0, d, root, listed, k, homes) && k < |listed|
      requires ListsPair(d0, root, listed[k]) && IsSiteOf(d0, d, root, listed[k], site) && Ready(d, site, listed[k])
      ensures forall stage :: Orderly(d, site, listed[k], stage) ==> holds(At(d, site, stage))
    {
      forall stage | Orderly(d, site, listed[k], stage)
        ensures holds(At(d, site, stage))
      {
        assert IsStageOf(d0, At(d, site, stage), root, listed, k, d, homes, site, stage);
        assert IsMidway(d0, At(d, site, stage), root, listed, k);
      }
    }

    lemma RootStaysLive(d0: Disk, d: Disk, root: NodeId, k: nat, homes: seq<Home>)
      requires RootIsLive(d0, root) && Pruned(d0, d, root, listed, k, homes)
      ensures RootIsLive(d, root)
    {
    }

    /** Between records the helper is poised for the next one. */
    lemma NextIsPoised(d0: Disk, d: Disk, root: NodeId, k: nat, homes: seq<Home>, holds: Disk -> bool)
      requires env.Alone() && RootIsLive(d0, root) && Eligible(d0, root, listed)
      requires Pruned(d0, d, root, listed, k, homes) && k < |listed|
      requires CoversStages(d0, root, holds)
      ensures Poised(d0, d, root, listed[k], holds)
    {
      assert IsMidway(d0, d, root, listed, k);
      HalfStillThere(d0, d, root, listed, k, homes, Manifest);
      RootStaysLive(d0, d, root, k, homes);
      forall home | IsSiteOf(d0, d, root, listed[k], SiteFor(d0, root, listed[k], home))
        ensures Follows(Plan(d, SiteFor(d0, root, listed[k], home), holds), listed[k])
      {
        var site := SiteFor(d0, root, listed[k], home);
        NextIsReady(d0, d, root, listed, k, homes, site);
        StagesHold(d0, d, root, k, homes, holds, site);
      }
    }

    lemma DoneIsPoised(d0: Disk, d: Disk, root: NodeId, k: nat, holds: Disk -> bool)
      requires env.Alone() && RootIsLive(d0, root) && Eligible(d0, root, listed) && CoversStages(d0, root, holds)
      requires IsDone(d0, d, root, listed, k) && k < |listed|
      ensures PairMatches(d, root, listed[k]) && Poised(d0, d, root, listed[k], holds)
    {
      var homes :| Pruned(d0, d, root, listed, k, homes);
      NextMatches(d0, d, root, listed, k, homes);
      NextIsPoised(d0, d, root, k, homes, holds);
    }

    /** A request that is well formed. */
    predicate IsRequest(rootPath: string, lines: seq<string>) {
      && ParseAll(lines).Some? && |lines| <= MAX_RECORDS && DistinctNames(ParseAll(lines).value)
      && IsAbsolute(rootPath)
    }

    /** A disk on which every preflight check of the records passes. */
    predicate Fits(d: Disk, records: seq<Record>) {
      && d.top.Some? && RootIsLive(d, d.top.value)
      && BudgetAllows(d, d.top.value, |records|)
      && forall i :: 0 <= i < |records| ==> PairMatches(d, d.top.value, records[i])
    }

    /** The two facts a filesystem keeps by itself that the model leaves open. */
    predicate Honest(d: Disk) {
      d.top.Some? && d.top.value in d.nodes && d.nodes[d.top.value].kind == Directory ==>
        IsDir(d, d.top.value) && LinksCounted(d, d.top.value)
    }

    /** On an eligible root the loop has what it needs. */
    lemma RunIsInductive(d0: Disk, root: NodeId, holds: Disk -> bool) returns (done: (Disk, nat) -> bool)
      requires env.Alone() && RootIsLive(d0, root) && Eligible(d0, root, listed) && CoversStages(d0, root, holds)
      ensures Inductive(done, d0, root, holds) && done(d0, 0)
      ensures forall d, k: nat :: done(d, k) ==> IsDone(d0, d, root, listed, k)
    {
      var records := listed;
      done := (d: Disk, k: nat) => IsDone(d0, d, root, records, k);
      NothingPruned(d0, root, listed);
      assert Pruned(d0, d0, root, listed, 0, []);
      forall d, k: nat | k < |listed| && done(d, k)
        ensures PairMatches(d, root, listed[k]) && Poised(d0, d, root, listed[k], holds)
      {
        DoneIsPoised(d0, d, root, k, holds);
      }
      forall d, k: nat, site, stage | k < |listed| && done(d, k) && Completes(d0, d, root, listed[k], site, stage)
        ensures done(At(d, site, stage), k + 1)
      {
        DoneStep(d0, d, root, listed, k, site, stage);
      }
    }

    /**
     The whole run.

     Whatever the environment does, its trace is lawful, and the helper changes nothing before the
     preflight is complete. If nobody interferes, a success means that the disk is what the plain
     specification says, and a run that stops, for whatever reason, leaves so many records done and the
     next one at one of its stages, as does a crash. If no call fails by itself either, the run succeeds
     on a request that fits the disk and only then, except that it stops between two records when it
     finds no free name in sixteen tries.
     */
    method Prune(rootPath: string, lines: seq<string>) returns (r: Outcome<seq<string>, Failure>)
      requires trace == []
      modifies this
      ensures Valid()
      ensures r.Ok? ==> ParseAll(lines) == Some(listed) && r.value == RecordNames(listed)
      ensures r.Ok? ==> HasFinished(spot, |listed|)
      ensures !IsRequest(rootPath, lines) ==> r.Err? && disk == old(disk) && trace == []
      ensures IsRequest(rootPath, lines) ==> ParseAll(lines) == Some(listed)
      ensures !PassesPreflight(trace, r.Ok?) ==>
        r.Err? && ChangesNothing(0, trace) && (env.Alone() ==> disk == old(disk))
      ensures IsRequest(rootPath, lines) && env.Alone() && Honest(old(disk)) ==>
                AsSpecified(old(disk), disk, listed, trace, r.Ok?)
      ensures IsRequest(rootPath, lines) && env.Alone() && env.Faultless() && Honest(old(disk))
              && Fits(old(disk), listed) && r.Err? ==>
                r.error == NoQuarantineName && StopsBetween(old(disk), disk, old(disk).top.value, listed)
    {
      Start([]);
      var records :- ReadRequest(rootPath, lines);
      Start(records);
      r := PruneRecords(records);
    }

    /** What a run starts from. */
    ghost method Start(records: seq<Record>)
      requires trace == []
      modifies `listed, `spots, `spot
      ensures Valid() && listed == records && spot == START
    {
      listed, spots, spot := records, [START], START;
    }

    /** The records of a request, or why it is refused. */
    method ReadRequest(rootPath: string, lines: seq<string>) returns (r: Outcome<seq<Record>, Failure>)
      ensures r.Ok? <==> IsRequest(rootPath, lines)
      ensures r.Ok? ==> ParseAll(lines) == Some(r.value) && WellNamed(r.value)
    {
      var parsed := ParseAll(lines);
      if parsed.None? { return Err(BadRecord); }
      var records := parsed.value;
      if |records| > MAX_RECORDS { return Err(TooManyRecords); }
      if !DistinctNames(records) { return Err(DuplicateNames); }
      if !IsAbsolute(rootPath) { return Err(RelativeRoot); }
      ParseAllIsPlain(lines);
      return Ok(records);
    }

    /** The run went on after the preflight was completed, or succeeded, and had changed nothing until then. */
    ghost predicate PassesPreflight(trace: Trace, ok: bool) {
      exists p :: CompletesPreflight(trace, p) && (ok || p + 2 < |trace|)
    }

    /** The checkpoint is there, and before it the helper changed nothing. */
    ghost predicate CompletesPreflight(trace: Trace, p: int) {
      0 <= p < |trace| && trace[p].call == Call.Checkpoint(PreflightComplete, "") && ChangesNothing(0, trace[..p])
    }

    /** How a run of a well-formed request ends when nobody interferes. */
    ghost predicate AsSpecified(d0: Disk, d: Disk, records: seq<Record>, trace: Trace, ok: bool) {
      && (!Fits(d0, records) ==> !ok && d == d0 && Visits(0, trace, {d0}))
      && (Fits(d0, records) ==> EndsAs(d0, d, d0.top.value, records, trace, ok))
    }

    ghost predicate EndsAs(d0: Disk, d: Disk, root: NodeId, records: seq<Record>, trace: Trace, ok: bool) {
      && (ok ==> IsDone(d0, d, root, records, |records|))
      && IsUnderWay(d0, d, root, records)
      && AlwaysUnderWay(d0, root, records, trace)
      && AlwaysWithinBudget(root, trace)
      && (IsDir(d0, root) && Published(d0, root, records) ==> AlwaysCrashSafe(d0, root, records, trace))
      && (IsDir(d0, root) && Settled(d0, root, records) ==> AlwaysLosesLittle(d0, root, records, trace))
    }

    /** Some of the records are done, and the others untouched. */
    ghost predicate StopsBetween(d0: Disk, d: Disk, root: NodeId, records: seq<Record>) {
      exists k: nat :: k < |records| && IsDone(d0, d, root, records, k)
    }

    lemma Concludes(d0: Disk, d: Disk, root: NodeId, records: seq<Record>, trace: Trace, holds: Disk -> bool, ok: bool)
      requires Eligible(d0, root, records) && AllHold(0, trace, holds)
      requires holds(d) && forall s :: holds(s) ==> IsUnderWay(d0, s, root, records)
      requires ok ==> IsDone(d0, d, root, records, |records|)
      ensures EndsAs(d0, d, root, records, trace, ok)
    {
      HoldingIsUnderWay(d0, root, records, trace, holds);
      UnderWayIsSafe(d0, root, records, trace);
    }

    lemma HoldingIsUnderWay(d0: Disk, root: NodeId, records: seq<Record>, trace: Trace, holds: Disk -> bool)
      requires AllHold(0, trace, holds) && forall s :: holds(s) ==> IsUnderWay(d0, s, root, records)
      ensures AlwaysUnderWay(d0, root, records, trace)
    {
    }

    /** A run that only looked ends where it began. */
    lemma NothingDone(d0: Disk, root: NodeId, trace: Trace)
      requires Eligible(d0, root, listed) && Visits(0, trace, {d0})
      ensures EndsAs(d0, d0, root, listed, trace, false)
    {
      var records := listed;
      var holds := (s: Disk) => IsUnderWay(d0, s, root, records);
      StartIsUnderWay(d0, root);
      VisitsHold(0, trace, {d0}, holds);
      Concludes(d0, d0, root, listed, trace, holds, false);
    }

    lemma StartIsUnderWay(d0: Disk, root: NodeId)
      requires Eligible(d0, root, listed)
      ensures IsUnderWay(d0, d0, root, listed)
    {
      NothingPruned(d0, root, listed);
      assert IsMidway(d0, d0, root, listed, 0);
    }

    lemma FittingIsEligible(d0: Disk)
      requires Honest(d0) && Fits(d0, listed) && WellNamed(listed)
      ensures RootIsLive(d0, d0.top.value) && Eligible(d0, d0.top.value, listed)
    {
    }

    method PruneRecords(records: seq<Record>) returns (r: Outcome<seq<string>, Failure>)
      requires Valid() && trace == [] && spot == START && listed == records && WellNamed(records)
      modifies `disk, `ticks, `trace, `spots, `spot
      ensures Valid()
      ensures r.Ok? ==> r.value == RecordNames(records)
      ensures !PassesPreflight(trace, r.Ok?) ==>
        r.Err? && ChangesNothing(0, trace) && (env.Alone() ==> disk == old(disk))
      ensures env.Alone() && Honest(old(disk)) ==> AsSpecified(old(disk), disk, records, trace, r.Ok?)
      ensures env.Alone() && env.Faultless() && Honest(old(disk)) && Fits(old(disk), records) && r.Err? ==>
                r.error == NoQuarantineName && StopsBetween(old(disk), disk, old(disk).top.value, records)
      ensures r.Ok? ==> HasFinished(spot, |records|)
    {
      ghost var d0 := disk;
      var admitted;
      ghost var p;
      admitted, p := Admit(records);
      if admitted.Err? {
        if env.Alone() && Honest(d0) {
          LookedIsSpecified(d0, trace);
        }
        r := Err(admitted.error);
        return;
      }
      ghost var start := trace;
      r := PruneFrom(admitted.value, records, d0);
      PassesStill(start, trace, p, r.Ok?);
    }

    lemma LookedIsSpecified(d0: Disk, trace: Trace)
      requires Honest(d0) && WellNamed(listed) && Visits(0, trace, {d0})
      ensures AsSpecified(d0, d0, listed, trace, false)
    {
      if Fits(d0, listed) {
        FittingIsEligible(d0);
        NothingDone(d0, d0.top.value, trace);
      }
    }

    /** The run from the acknowledged preflight on. */
    method PruneFrom(root: NodeId, records: seq<Record>, ghost d0: Disk) returns (r: Outcome<seq<string>, Failure>)
      requires Valid() && listed == records && WellNamed(records) && trace != []
      requires env.Alone() ==> Fits(d0, records) && d0.top == Some(root) && disk == d0 && Visits(0, trace, {d0})
      requires IsReady(spot, root, 0)
      modifies `disk, `ticks, `trace, `spots, `spot
      ensures Valid() && Continues(old(trace), trace)
      ensures r.Ok? ==> r.value == RecordNames(records)
      ensures env.Alone() && Honest(d0) ==> AsSpecified(d0, disk, records, trace, r.Ok?)
      ensures env.Alone() && env.Faultless() && Honest(d0) && r.Err? ==>
                r.error == NoQuarantineName && StopsBetween(d0, disk, root, records)
      ensures r.Ok? ==> IsReady(spot, root, |records|)
    {
      if env.Alone() && Honest(d0) {
        FittingIsEligible(d0);
      }
      r := PruneFitting(root, records, env.Alone() && Honest(d0), d0);
    }

    /** Opens the root and runs the preflight. */
    method Admit(records: seq<Record>) returns (r: Outcome<NodeId, Failure>, ghost p: int)
      requires Valid() && trace == [] && spot == START && listed == records
      modifies `disk, `ticks, `trace, `spots, `spot
      ensures Valid() && OnlyLooked(env, Mark([], old(disk)), trace, disk)
      ensures r.Ok? ==> CompletesPreflight(trace, p) && p == |trace| - 2
      ensures env.Alone() && r.Ok? ==> disk.top == Some(r.value)
      ensures env.Alone() && r.Ok? ==> Fits(disk, records)
      ensures env.Alone() && env.Faultless() && Honest(disk) && Fits(disk, records) ==> r.Ok?
      ensures r.Ok? ==> IsReady(spot, r.value, 0)
    {
      ghost var start := Mark(trace, disk);
      p := 0;
      r := HoldRoot(start);
      if r.Err? { return; }
      var checked;
      checked, p := Preflight(r.value, records, start);
      if checked.Err? { r := Err(checked.error); }
    }

    /** Opens the directory at the root's path. */
    method HoldRoot(ghost since: Mark) returns (r: Outcome<NodeId, Failure>)
      requires Valid() && trace == [] && spot == START && since == Mark(trace, disk)
      modifies `disk, `ticks, `trace, `spots, `spot
      ensures Valid() && OnlyLooked(env, since, trace, disk)
      ensures env.Alone() && r.Ok? ==> disk.top == Some(r.value)
      ensures env.Decides(r.Ok?,
                          disk.top.Some? && disk.top.value in disk.nodes
                            && disk.nodes[disk.top.value].kind == Directory)
      ensures r.Ok? ==> HoldsRoot(spot, r.value)
    {
      var failed := Yield();
      if failed || disk.top.None? || disk.top.value !in disk.nodes || disk.nodes[disk.top.value].kind != Directory {
        return Err(OsError);
      }
      LooksAreAllowed(spot, listed, uid, OpenRoot(disk.top.value));
      Perform(OpenRoot(disk.top.value));
      return Ok(disk.top.value);
    }

    lemma PassesStill(before: Trace, after: Trace, p: int, ok: bool)
      requires CompletesPreflight(before, p) && p == |before| - 2 && Continues(before, after)
      ensures PassesPreflight(after, ok) || (after == before && !ok)
    {
      assert after[..p] == before[..p];
      assert after[p] == before[p];
      assert CompletesPreflight(after, p);
      if |after| == |before| {
        assert after == before;
      }
    }

    method PruneFitting(root: NodeId, records: seq<Record>, ghost still: bool, ghost d0: Disk)
      returns (r: Outcome<seq<string>, Failure>)
      requires Valid() && listed == records && trace != []
      requires still ==> env.Alone() && RootIsLive(d0, root) && Eligible(d0, root, listed)
      requires still ==> disk == d0 && Visits(0, trace, {d0})
      requires IsReady(spot, root, 0)
      modifies `disk, `ticks, `trace, `spots, `spot
      ensures Valid() && Continues(old(trace), trace)
      ensures r.Ok? ==> r.value == RecordNames(records)
      ensures still ==> EndsAs(d0, disk, root, records, trace, r.Ok?)
      ensures still && env.Faultless() && r.Err? ==>
        r.error == NoQuarantineName && StopsBetween(d0, disk, root, records)
      ensures r.Ok? ==> IsReady(spot, root, |records|)
    {
      ghost var holds: Disk -> bool := s => true;
      ghost var done: (Disk, nat) -> bool := (d, k) => true;
      ghost var whole: (Disk, Trace, bool, bool) -> bool := (d, trace, ok, faultless) => true;
      if still {
        holds, done, whole := Expectations(d0, root);
      }
      r := PruneAdmitted(root, records, still, d0, holds, done, whole);
    }

    /** What is known of the states and of the end of a run makes up what is wanted of the whole. */
    ghost predicate Yields(holds: Disk -> bool, done: (Disk, nat) -> bool, whole: (Disk, Trace, bool, bool) -> bool,
                           n: nat) {
      forall d, trace, count: nat, ok, faultless ::
        Runs(holds, done, n, d, trace, count, ok, faultless) ==> whole(d, trace, ok, faultless)
    }

    ghost predicate Runs(holds: Disk -> bool, done: (Disk, nat) -> bool, n: nat,
                         d: Disk, trace: Trace, count: nat, ok: bool, faultless: bool) {
      && AllHold(0, trace, holds) && holds(d)
      && (ok ==> done(d, n)) && (faultless && !ok ==> count < n && done(d, count))
    }

    /** What the two say of a disk. */
    ghost predicate Tells(d0: Disk, root: NodeId, records: seq<Record>, holds: Disk -> bool,
                          done: (Disk, nat) -> bool) {
      && (forall d, k: nat :: done(d, k) ==> IsDone(d0, d, root, records, k))
      && (forall s :: holds(s) ==> IsUnderWay(d0, s, root, records))
    }

    ghost predicate Ends(d0: Disk, root: NodeId, records: seq<Record>, d: Disk, trace: Trace, ok: bool,
                         faultless: bool) {
      EndsAs(d0, d, root, records, trace, ok) && (faultless && !ok ==> StopsBetween(d0, d, root, records))
    }

    lemma ConcludesRun(d0: Disk, root: NodeId, records: seq<Record>, d: Disk, trace: Trace, holds: Disk -> bool,
                       done: (Disk, nat) -> bool, count: nat, ok: bool, faultless: bool)
      requires Eligible(d0, root, records) && Tells(d0, root, records, holds, done)
      requires Runs(holds, done, |records|, d, trace, count, ok, faultless)
      ensures Ends(d0, root, records, d, trace, ok, faultless)
    {
      Concludes(d0, d, root, records, trace, holds, ok);
    }

    /** What the states of an undisturbed run satisfy, what is known between records, and what follows for the run. */
    lemma Expectations(d0: Disk, root: NodeId)
      returns (holds: Disk -> bool, done: (Disk, nat) -> bool, whole: (Disk, Trace, bool, bool) -> bool)
      requires env.Alone() && RootIsLive(d0, root) && Eligible(d0, root, listed)
      ensures Inductive(done, d0, root, holds) && done(d0, 0) && holds(d0) && Yields(holds, done, whole, |listed|)
      ensures forall d, trace, ok, faultless :: whole(d, trace, ok, faultless) ==>
        Ends(d0, root, listed, d, trace, ok, faultless)
    {
      var records := listed;
      holds := s => IsUnderWay(d0, s, root, records);
      StartIsUnderWay(d0, root);
      done := RunIsInductive(d0, root, holds);
      whole := RunYields(d0, root, listed, holds, done);
    }

    lemma RunYields(d0: Disk, root: NodeId, records: seq<Record>, holds: Disk -> bool, done: (Disk, nat) -> bool)
      returns (whole: (Disk, Trace, bool, bool) -> bool)
      requires Eligible(d0, root, records) && Tells(d0, root, records, holds, done)
      ensures Yields(holds, done, whole, |records|)
      ensures forall d, trace, ok, faultless :: whole(d, trace, ok, faultless) ==>
        Ends(d0, root, records, d, trace, ok, faultless)
    {
      whole := (d, trace, ok, faultless) => Ends(d0, root, records, d, trace, ok, faultless);
      forall d, trace, count: nat, ok, faultless | Runs(holds, done, |records|, d, trace, count, ok, faultless)
        ensures whole(d, trace, ok, faultless)
      {
        ConcludesRun(d0, root, records, d, trace, holds, done, count, ok, faultless);
      }
    }

    /** The pruning part of a run whose preflight passed. */
    method PruneAdmitted(root: NodeId, records: seq<Record>, ghost still: bool, ghost d0: Disk,
                         ghost holds: Disk -> bool, ghost done: (Disk, nat) -> bool,
                         ghost whole: (Disk, Trace, bool, bool) -> bool)
      returns (r: Outcome<seq<string>, Failure>)
      requires Valid() && listed == records && trace != []
      requires still ==> env.Alone() && Inductive(done, d0, root, holds) && done(d0, 0) && holds(d0)
      requires still ==> Yields(holds, done, whole, |records|)
      requires still ==> disk == d0 && Visits(0, trace, {d0})
      requires IsReady(spot, root, 0)
      modifies `disk, `ticks, `trace, `spots, `spot
      ensures Valid() && Continues(old(trace), trace)
      ensures r.Ok? ==> r.value == RecordNames(records)
      ensures still ==> whole(disk, trace, r.Ok?, env.Faultless())
      ensures still && env.Faultless() && r.Err? ==> r.error == NoQuarantineName
      ensures r.Ok? ==> IsReady(spot, root, |records|)
    {
      ghost var start := trace;
      if still {
        VisitsHold(0, trace, {d0}, holds);
      }
      var pruned;
      ghost var count;
      pruned, count := PruneAll(root, records, still, d0, holds, done);
      if still {
        HoldTwice(0, start, trace, holds);
        assert holds(trace[|trace| - 1].after);
        assert Runs(holds, done, |records|, disk, trace, count, pruned.Ok?, env.Faultless());
      }
      r := if pruned.Err? then Err(pruned.error) else Ok(RecordNames(records));
    }
  }

  predicate IsAbsolute(path: string) {
    path != "" && path[0] == '/'
  }

  predicate DistinctNames(records: seq<Record>) {
    forall i, j :: 0 <= i < j < |records| ==> records[i].name != records[j].name
  }

  function RecordNames(records: seq<Record>): seq<string> {
    seq(|records|, i requires 0 <= i < |records| => records[i].name)
  }

  function ParseAll(lines: seq<string>): (records: Option<seq<Record>>)
    ensures records.Some? ==> |records.value| == |lines|
  {
    if lines == [] then Some([])
    else
      var first := Parse(lines[0]);
      var rest := ParseAll(lines[1..]);
      if first.Some? && rest.Some? then Some([first.value] + rest.value) else None
  }

  lemma {:induction false} ParseAllIsPlain(lines: seq<string>)
    ensures ParseAll(lines).Some? ==>
              forall i :: 0 <= i < |lines| ==> IsPlainName(ParseAll(lines).value[i].name)
  {
    if lines != [] && ParseAll(lines).Some? {
      ParseAllIsPlain(lines[1..]);
      ParseIsExact(lines[0], Parse(lines[0]).value);
      ShapeIsPlain(Parse(lines[0]).value.name);
      forall i | 0 <= i < |lines|
        ensures IsPlainName(ParseAll(lines).value[i].name)
      {
        if i > 0 {
          assert ParseAll(lines).value[i] == ParseAll(lines[1..]).value[i - 1];
        }
      }
    }
  }
}
