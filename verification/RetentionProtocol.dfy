/**
 The protocol of the retention helper: which of its own calls may come next,
   told by the calls since its last checkpoint.
 Other processes may act between any two of them, so every look below is at the disk of its own moment.
 */
module RetentionProtocol {
  import opened Outcomes
  import opened Filesystem
  import opened IdentityRecord

  const QUARANTINE_PREFIX := ".postgres-retention-quarantine-"
  const MAX_TOMBSTONES: nat := 4096
  const MAX_MANIFEST_BYTES: nat := 65536

  // ---------- Checks on what `stat` reports ----------

  predicate IsSafeFile(stat: Stat, part: Part) {
    && stat.kind == Regular && stat.identity.nlink == 1
    && (part.Manifest? ==> 1 <= stat.identity.size <= MAX_MANIFEST_BYTES)
  }

  predicate IsExactFile(stat: Option<Stat>, expected: Identity, part: Part) {
    stat.Some? && IsSafeFile(stat.value, part) && stat.value.identity == expected
  }

  predicate IsTombstone(stat: Stat) {
    stat.kind == Regular && stat.identity.nlink == 1 && stat.identity.size == 0
  }

  predicate IsPrivateDirectory(stat: Stat, uid: int) {
    stat.kind == Directory && stat.perm == PRIVATE_MODE && stat.identity.uid == uid
  }

  predicate IsQuarantineName(name: Name) {
    QUARANTINE_PREFIX <= name
  }

  // ---------- Names and identities ----------

  function Expected(record: Record, part: Part): Identity {
    if part.Manifest? then record.manifest else record.artifact
  }

  function SourceName(record: Record, part: Part): Name {
    if part.Manifest? then ManifestName(record.name) else record.name
  }

  function CapturedName(part: Part): Name {
    if part.Manifest? then "manifest" else "artifact"
  }

  /** All nine fields agree, `ctime_ns` excepted: a rename changes that one. */
  predicate SameButCtime(a: Identity, b: Identity) {
    a.(ctime := b.ctime) == b
  }

  predicate Pins(record: Record, part: Part, node: NodeId) {
    Expected(record, part).dev == node.dev && Expected(record, part).ino == node.ino
  }

  // ---------- Looks ----------

  /** A held descriptor of the inode shows a safe file with this identity. */
  predicate ShowsHandle(call: Call, node: NodeId, identity: Identity, part: Part) {
    call.Fstat? && call.node == node && IsSafeFile(call.stat, part) && call.stat.identity == identity
  }

  /** A name shows a safe file with this identity. */
  predicate ShowsPath(call: Call, dir: NodeId, name: Name, identity: Identity, part: Part) {
    call.PathStat? && call.dir == dir && call.name == name && IsExactFile(call.found, identity, part)
  }

  /** The held root and the root's path are one private directory. */
  predicate RootAgrees(did: seq<Call>, i: nat, root: NodeId, uid: int) {
    && i + 2 <= |did|
    && did[i].Fstat? && did[i].node == root && did[i + 1].RootStat? && did[i + 1].found.Some?
    && IsPrivateDirectory(did[i].stat, uid) && IsPrivateDirectory(did[i + 1].found.value, uid)
    && did[i].stat.identity == did[i + 1].found.value.identity
  }

  /** The held directory and its name in the root are one private directory. */
  predicate DirectoryAgrees(did: seq<Call>, i: nat, root: NodeId, home: Home, uid: int) {
    && i + 2 <= |did|
    && did[i].Fstat? && did[i].node == home.dir
    && did[i + 1].PathStat? && did[i + 1].dir == root && did[i + 1].name == home.name && did[i + 1].found.Some?
    && IsPrivateDirectory(did[i].stat, uid) && IsPrivateDirectory(did[i + 1].found.value, uid)
    && did[i].stat.identity == did[i + 1].found.value.identity
  }

  /** The directory and the root are on one device. */
  predicate SharesDevice(did: seq<Call>, i: nat, root: NodeId, dir: NodeId) {
    && i + 2 <= |did| && did[i].Fstat? && did[i].node == dir && did[i + 1].Fstat? && did[i + 1].node == root
    && did[i].stat.identity.dev == did[i + 1].stat.identity.dev
  }

  /** Both files of a pair are opened and found by handle as recorded, the artifact first. */
  predicate OpensPair(did: seq<Call>, i: nat, root: NodeId, record: Record) {
    && i + 4 <= |did|
    && did[i].Open? && did[i].dir == root && did[i].name == record.name
    && did[i + 1].Open? && did[i + 1].dir == root && did[i + 1].name == ManifestName(record.name)
    && ShowsHandle(did[i + 2], did[i].node, record.artifact, Artifact)
    && ShowsHandle(did[i + 3], did[i + 1].node, record.manifest, Manifest)
  }

  /** Both files of a pair are found as recorded, by handle and then by path. */
  predicate RereadsPair(did: seq<Call>, root: NodeId, record: Record) {
    && 4 <= |did|
    && did[0].Fstat? && ShowsHandle(did[0], did[0].node, record.artifact, Artifact)
    && did[1].Fstat? && ShowsHandle(did[1], did[1].node, record.manifest, Manifest)
    && ShowsPath(did[2], root, record.name, record.artifact, Artifact)
    && ShowsPath(did[3], root, ManifestName(record.name), record.manifest, Manifest)
  }

  /** The source of a capture is opened and found as recorded, by handle and by path. */
  predicate FindsSource(did: seq<Call>, root: NodeId, record: Record, part: Part) {
    && 3 <= |did|
    && did[0].Open? && did[0].dir == root && did[0].name == SourceName(record, part)
    && ShowsHandle(did[1], did[0].node, Expected(record, part), part)
    && ShowsPath(did[2], root, SourceName(record, part), Expected(record, part), part)
  }

  /**
   What was captured is what was opened: a new handle on the captured name, the name and the source handle show one
   identity, the recorded one but for `ctime_ns`, and the old name is gone.
   */
  predicate ConfirmsCapture(did: seq<Call>, root: NodeId, dir: NodeId, record: Record, part: Part) {
    && 5 <= |did|
    && did[0].Open? && did[0].dir == dir && did[0].name == CapturedName(part)
    && did[1].Fstat? && SameButCtime(Expected(record, part), did[1].stat.identity)
    && ShowsHandle(did[1], did[0].node, did[1].stat.identity, part)
    && ShowsPath(did[2], dir, CapturedName(part), did[1].stat.identity, part)
    && ShowsHandle(did[3], did[0].node, did[1].stat.identity, part)
    && did[4] == PathStat(root, SourceName(record, part), None)
  }

  /** The held inode, a new handle on the captured name and the name show the captured identity. */
  predicate RereadsFile(did: seq<Call>, i: nat, dir: NodeId, node: NodeId, identity: Identity, part: Part) {
    && i + 4 <= |did| && ShowsHandle(did[i], node, identity, part)
    && did[i + 1].Open? && did[i + 1].dir == dir && did[i + 1].name == CapturedName(part)
    && ShowsHandle(did[i + 2], did[i + 1].node, identity, part)
    && ShowsPath(did[i + 3], dir, CapturedName(part), identity, part)
  }

  /** The barrier after one capture: the directories are live, and the held inode is the one under its captured name. */
  predicate PassesSingleBarrier(did: seq<Call>, i: nat, root: NodeId, home: Home, uid: int,
                                node: NodeId, identity: Identity, part: Part) {
    && RootAgrees(did, i, root, uid) && DirectoryAgrees(did, i + 2, root, home, uid)
    && RereadsFile(did, i + 4, home.dir, node, identity, part)
  }

  /** The barrier of the pair: the directories are live, and both held inodes are under their captured names. */
  predicate PassesPairBarrier(did: seq<Call>, root: NodeId, home: Home, uid: int, record: Record) {
    && |did| == 8
    && RootAgrees(did, 0, root, uid) && DirectoryAgrees(did, 2, root, home, uid)
    && did[4].Fstat? && SameButCtime(record.manifest, did[4].stat.identity)
    && did[5].Fstat? && SameButCtime(record.artifact, did[5].stat.identity)
    && ShowsHandle(did[4], did[4].node, did[4].stat.identity, Manifest)
    && ShowsHandle(did[5], did[5].node, did[5].stat.identity, Artifact)
    && ShowsPath(did[6], home.dir, "manifest", did[4].stat.identity, Manifest)
    && ShowsPath(did[7], home.dir, "artifact", did[5].stat.identity, Artifact)
  }

  /** A held descriptor of the inode shows a zero-byte file of this identity. */
  predicate ShowsEmpty(call: Call, node: NodeId, identity: Identity) {
    call.Fstat? && call.node == node && IsTombstone(call.stat) && call.stat.identity == identity
  }

  /** A name shows a zero-byte file of this identity. */
  predicate ShowsEmptyAt(call: Call, dir: NodeId, name: Name, identity: Identity) {
    && call.PathStat? && call.dir == dir && call.name == name && call.found.Some?
    && IsTombstone(call.found.value) && call.found.value.identity == identity
  }

  /** The directories are live, and both held inodes of the record are zero-byte files under their captured names. */
  predicate KeepsTombstones(did: seq<Call>, root: NodeId, home: Home, uid: int, record: Record) {
    && |did| == 10
    && RootAgrees(did, 0, root, uid) && DirectoryAgrees(did, 2, root, home, uid)
    && did[4].Fstat? && Pins(record, Manifest, did[4].node) && did[5].Fstat? && Pins(record, Artifact, did[5].node)
    && ShowsEmpty(did[6], did[4].node, did[4].stat.identity) && ShowsEmpty(did[7], did[5].node, did[5].stat.identity)
    && ShowsEmptyAt(did[8], home.dir, "manifest", did[4].stat.identity)
    && ShowsEmptyAt(did[9], home.dir, "artifact", did[5].stat.identity)
  }

  // ---------- Where the helper is ----------

  /** A quarantine: its name in the root, and the directory. */
  datatype Home = Home(name: Name, dir: NodeId)

  /** The root that the helper holds, how many records it has turned to, and the quarantine under way. */
  datatype Place = Place(root: NodeId, count: nat, home: Home)

  /** Where the helper is: its place, its last checkpoint, and its calls since then. */
  datatype Spot = Spot(place: Place, step: Option<Step>, name: Name, did: seq<Call>)

  const NOWHERE: NodeId := NodeId(0, 0)
  const START: Spot := Spot(Place(NOWHERE, 0, Home("", NOWHERE)), None, "", [])

  /** Where a call takes the helper; what other processes do takes it nowhere. */
  function Advance(spot: Spot, call: Call): Spot {
    match call
    case Interference => spot
    case Checkpoint(step, name) => Spot(Turned(spot.place, step), Some(step), name, [])
    case _ => Act(spot, call)
  }

  function Act(spot: Spot, call: Call): Spot {
    Spot(Located(spot.place, call), spot.step, spot.name, spot.did + [call])
  }

  /** Records are counted once for the preflight, and once more after it. */
  function Turned(place: Place, step: Step): Place {
    match step
    case HandlesOpened(_) => place.(count := place.count + 1)
    case PreflightComplete => place.(count := 0)
    case _ => place
  }

  function Located(place: Place, call: Call): Place {
    match call
    case OpenRoot(node) => place.(root := node)
    case Mkdir(_, name, _, _, _, _) => place.(home := place.home.(name := name))
    case Chmod(node, _, _) => place.(home := place.home.(dir := node))
    case _ => place
  }

  /** The record under way. */
  predicate IsCurrent(place: Place, listed: seq<Record>, record: Record) {
    0 < place.count <= |listed| && listed[place.count - 1] == record
  }

  // ---------- What may come next ----------

  /** The root is held and live, it was listed, and every quarantine looked at is private. */
  predicate IsAdmitted(did: seq<Call>, root: NodeId, uid: int) {
    && 4 <= |did|
    && did[0] == OpenRoot(root) && RootAgrees(did, 1, root, uid) && did[3] == List(root)
    && forall i :: 4 <= i < |did| ==> ShowsPrivate(did[i], root, uid)
  }

  predicate ShowsPrivate(call: Call, root: NodeId, uid: int) {
    call.PathStat? && call.dir == root && call.found.Some? && IsPrivateDirectory(call.found.value, uid)
  }

  /** The record under way was opened, and then found as recorded by handle and by path. */
  predicate HasVerified(spot: Spot, listed: seq<Record>, deleting: bool) {
    && spot.step == Some(HandlesOpened(deleting)) && |spot.did| == 4
    && 0 < spot.place.count <= |listed| && RereadsPair(spot.did, spot.place.root, listed[spot.place.count - 1])
  }

  /** The helper may turn to the next record. */
  predicate MayTurn(spot: Spot, listed: seq<Record>, uid: int, deleting: bool) {
    if deleting then
      spot.did == [] && (spot.step == Some(PreflightComplete) || spot.step == Some(MadeDurable(Retaining)))
    else (spot.step.None? && IsAdmitted(spot.did, spot.place.root, uid)) || HasVerified(spot, listed, false)
  }

  /** The files of the next record have been opened. */
  predicate MayOpen(spot: Spot, listed: seq<Record>, uid: int, deleting: bool, name: Name) {
    && spot.place.count < |listed| && name == listed[spot.place.count].name && 4 <= |spot.did|
    && MayTurn(spot.(did := spot.did[..|spot.did| - 4]), listed, uid, deleting)
    && OpensPair(spot.did, |spot.did| - 4, spot.place.root, listed[spot.place.count])
  }

  /** A quarantine was made, opened, closed to others, and found live and on the root's device. */
  predicate MadeQuarantine(did: seq<Call>, place: Place, uid: int) {
    && |did| == 7 && did[0].Mkdir? && did[0].dir == place.root && did[0].name == place.home.name
    && did[1] == Open(place.root, place.home.name, place.home.dir)
    && did[2].Chmod? && did[2].node == place.home.dir && did[2].perm == PRIVATE_MODE
    && DirectoryAgrees(did, 3, place.root, place.home, uid) && SharesDevice(did, 5, place.root, place.home.dir)
  }

  /** The capture is confirmed, and the barrier after it passed. */
  predicate SecuredCapture(did: seq<Call>, place: Place, uid: int, record: Record, part: Part) {
    && |did| == 13 && ConfirmsCapture(did, place.root, place.home.dir, record, part)
    && PassesSingleBarrier(did, 5, place.root, place.home, uid, did[0].node, did[1].stat.identity, part)
  }

  /** What precedes the syncs of a phase. */
  predicate MaySync(spot: Spot, uid: int, phase: Phase, record: Record) {
    match phase
    case Creating => spot.step == Some(BeforeDelete) && MadeQuarantine(spot.did, spot.place, uid)
    case Capturing(part) =>
      spot.step == Some(Captured(part)) && SecuredCapture(spot.did, spot.place, uid, record, part)
    case Retaining =>
      spot.step == Some(Reclaimed(Artifact)) && KeepsTombstones(spot.did, spot.place.root, spot.place.home, uid, record)
  }

  /** One inode was emptied and synced, and it is this half of the record. */
  predicate EmptiesFile(did: seq<Call>, record: Record, part: Part) {
    && |did| == 2 && did[0].Truncate? && did[1] == Fsync(did[0].node) && Pins(record, part, did[0].node)
  }

  /** The checkpoint may come next while this record is under way. */
  predicate MayReport(spot: Spot, uid: int, step: Step, record: Record) {
    match step
    case HandlesOpened(_) => false
    case PreflightComplete => false
    case BeforeDelete =>
      spot.step == Some(HandlesOpened(true)) && |spot.did| == 4 && RereadsPair(spot.did, spot.place.root, record)
    case BeforeSync(phase, ofRoot) =>
      if ofRoot then spot.step == Some(Synced(phase, false)) && spot.did == [] else MaySync(spot, uid, phase, record)
    case Synced(phase, ofRoot) =>
      && spot.step == Some(BeforeSync(phase, ofRoot))
      && spot.did == [Fsync(if ofRoot then spot.place.root else spot.place.home.dir)]
    case MadeDurable(phase) => spot.step == Some(Synced(phase, true)) && spot.did == []
    case BeforeCapture(part) =>
      && spot.step == Some(MadeDurable(if part.Manifest? then Creating else Capturing(Manifest)))
      && |spot.did| == 3 && FindsSource(spot.did, spot.place.root, record, part)
    case Captured(part) => spot.step == Some(BeforeCapture(part)) && |spot.did| == 1 && spot.did[0].Rename?
    case BeforeBarrier => spot.step == Some(MadeDurable(Capturing(Artifact))) && spot.did == []
    case BarrierComplete =>
      spot.step == Some(BeforeBarrier) && PassesPairBarrier(spot.did, spot.place.root, spot.place.home, uid, record)
    case Reclaimed(part) =>
      && spot.step == Some(if part.Manifest? then BarrierComplete else Reclaimed(Manifest))
      && EmptiesFile(spot.did, record, part)
  }

  /** The call, one that changes the disk, may come next while this record is under way. */
  predicate MayChange(spot: Spot, call: Call, record: Record)
    requires IsChange(call)
  {
    match call
    case Mkdir(dir, name, _, _, _, _) =>
      spot.step == Some(BeforeDelete) && spot.did == [] && dir == spot.place.root && IsQuarantineName(name)
    case Chmod(node, perm, _) =>
      && spot.step == Some(BeforeDelete) && |spot.did| == 2 && spot.did[0].Mkdir?
      && spot.did[1] == Open(spot.place.root, spot.place.home.name, node) && perm == PRIVATE_MODE
    case Rename(dir, name, destination, newName, _) =>
      && spot.step.Some? && spot.step.value.BeforeCapture? && spot.did == []
      && dir == spot.place.root && destination == spot.place.home.dir
      && name == SourceName(record, spot.step.value.part) && newName == CapturedName(spot.step.value.part)
    case Fsync(node) =>
      if spot.step.Some? && spot.step.value.BeforeSync? then
        spot.did == [] && node == if spot.step.value.ofRoot then spot.place.root else spot.place.home.dir
      else
        && (spot.step == Some(BarrierComplete) || spot.step == Some(Reclaimed(Manifest)))
        && |spot.did| == 1 && spot.did[0].Truncate? && spot.did[0].node == node
    case Truncate(node, _) =>
      && spot.did == []
      && (|| (spot.step == Some(BarrierComplete) && Pins(record, Manifest, node))
          || (spot.step == Some(Reclaimed(Manifest)) && Pins(record, Artifact, node)))
  }

  /** The calls by which the helper changes the disk or makes a change durable. */
  predicate IsChange(call: Call) {
    call.Mkdir? || call.Chmod? || call.Rename? || call.Fsync? || call.Truncate?
  }

  /** The calls by which the helper looks at the disk. */
  predicate IsLook(call: Call) {
    call.Open? || call.Fstat? || call.PathStat? || call.RootStat? || call.List?
  }

  /** The call may come next. The root is opened first, and looks may come at any time; they decide about the rest. */
  predicate MayFollow(spot: Spot, listed: seq<Record>, uid: int, call: Call) {
    if call.OpenRoot? then spot == START
    else if call.Checkpoint?
      && call.step.HandlesOpened? then MayOpen(spot, listed, uid, call.step.deleting, call.record)
    else if call.Checkpoint? && call.step.PreflightComplete? then
      call.record == "" && spot.place.count == |listed| && MayTurn(spot, listed, uid, false)
    else if call.Checkpoint? || IsChange(call) then
      && 0 < spot.place.count <= |listed| && spot.name == listed[spot.place.count - 1].name
      && var record := listed[spot.place.count - 1];
         if call.Checkpoint? then call.record == spot.name && MayReport(spot, uid, call.step, record)
         else MayChange(spot, call, record)
    else true
  }

  /** The call may come next, with the rules out of sight. */
  ghost predicate Allows(spot: Spot, listed: seq<Record>, uid: int, call: Call) {
    forall next {:trigger MayFollow(spot, listed, uid, next)} :: next == call ==> MayFollow(spot, listed, uid, next)
  }

  // ---------- Between calls ----------

  /** The helper has just passed this checkpoint of the record. */
  predicate Stands(spot: Spot, listed: seq<Record>, root: NodeId, record: Record, step: Step) {
    && spot.step == Some(step) && spot.name == record.name && spot.did == []
    && spot.place.root == root && IsCurrent(spot.place, listed, record)
  }

  /** The helper after one more call that leaves its place. */
  function Look(spot: Spot, call: Call): Spot {
    spot.(did := spot.did + [call])
  }

  /** So many looks later. */
  predicate Looks(before: Spot, after: Spot, n: nat) {
    && after == before.(did := after.did) && |after.did| == |before.did| + n
    && forall i :: 0 <= i < |before.did| ==> after.did[i] == before.did[i]
  }

  /** The record that the helper turns to next. */
  predicate IsNext(place: Place, listed: seq<Record>, root: NodeId, record: Record) {
    place.root == root && place.count < |listed| && listed[place.count] == record
  }

  function Next(place: Place): Place {
    place.(count := place.count + 1)
  }

  /** So many records are verified, and the next one may come. */
  predicate HasChecked(spot: Spot, listed: seq<Record>, uid: int, root: NodeId, k: nat) {
    spot.place.root == root && spot.place.count == k && MayTurn(spot, listed, uid, false)
  }

  lemma VerifiedIsChecked(spot: Spot, listed: seq<Record>, uid: int, root: NodeId, k: nat)
    requires HasVerified(spot, listed, false) && spot.place.root == root && spot.place.count == k
    ensures HasChecked(spot, listed, uid, root, k)
  {
  }

  /** Once both files are opened, the checkpoint may come. */
  lemma MayOpenNow(before: Spot, after: Spot, listed: seq<Record>, uid: int, root: NodeId, record: Record,
                   deleting: bool)
    requires IsNext(before.place, listed, root, record) && MayTurn(before, listed, uid, deleting)
    requires Looks(before, after, 4) && OpensPair(after.did, |before.did|, root, record)
    ensures Allows(after, listed, uid, Checkpoint(HandlesOpened(deleting), record.name))
  {
    assert after.did[..|before.did|] == before.did;
    assert after.(did := before.did) == before;
  }

  /** The source of a capture is opened, and nothing else was done. */
  predicate HasOpened(spot: Spot, listed: seq<Record>, root: NodeId, record: Record, part: Part, source: NodeId) {
    && spot.did == [Open(root, SourceName(record, part), source)]
    && Stands(spot.(did := []), listed, root, record,
              MadeDurable(if part.Manifest? then Creating else Capturing(Manifest)))
  }

  /** The file is moved, and nothing was done since. */
  predicate HasMoved(spot: Spot, listed: seq<Record>, root: NodeId, record: Record, part: Part) {
    |spot.did| == 1 && spot.did[0].Rename? && Stands(spot.(did := []), listed, root, record, BeforeCapture(part))
  }

  /** The captured name opens this inode, with the recorded identity but for `ctime_ns`. */
  predicate FindsCaptured(spot: Spot, dir: NodeId, record: Record, part: Part, node: NodeId, identity: Identity) {
    && |spot.did| == 2 && spot.did[0] == Open(dir, CapturedName(part), node)
    && ShowsHandle(spot.did[1], node, identity, part) && SameButCtime(Expected(record, part), identity)
  }

  /** The capture is confirmed, with this inode and this identity, and nothing was done since. */
  predicate HasConfirmed(spot: Spot, listed: seq<Record>, root: NodeId, record: Record, part: Part, node: NodeId,
                         identity: Identity) {
    && |spot.did| == 5 && ConfirmsCapture(spot.did, root, spot.place.home.dir, record, part)
    && spot.did[0].node == node && spot.did[1].stat.identity == identity
    && Stands(spot.(did := []), listed, root, record, Captured(part))
  }

  /** Both held inodes and then both captured names show the captured identities. */
  predicate RereadsCaptured(did: seq<Call>, i: nat, dir: NodeId, m: (NodeId, Identity), a: (NodeId, Identity)) {
    && i + 4 <= |did|
    && ShowsHandle(did[i], m.0, m.1, Manifest) && ShowsHandle(did[i + 1], a.0, a.1, Artifact)
    && ShowsPath(did[i + 2], dir, "manifest", m.1, Manifest) && ShowsPath(did[i + 3], dir, "artifact", a.1, Artifact)
  }

  /** The helper has just passed this checkpoint of the record, with this quarantine. */
  predicate StandsIn(spot: Spot, listed: seq<Record>, root: NodeId, home: Home, record: Record, step: Step) {
    Stands(spot, listed, root, record, step) && spot.place.home == home
  }

  /** The quarantine has been made, and nothing else. */
  predicate HasMade(spot: Spot, listed: seq<Record>, root: NodeId, record: Record, name: Name) {
    && |spot.did| == 1 && spot.did[0].Mkdir? && spot.did[0].dir == root && spot.did[0].name == name
    && spot.place.home.name == name && Stands(spot.(did := []), listed, root, record, BeforeDelete)
  }

  /** The quarantine has been made and opened, and nothing else. */
  predicate HasOpenedHome(spot: Spot, listed: seq<Record>, root: NodeId, record: Record, name: Name, dir: NodeId) {
    && |spot.did| == 2 && spot.did[0].Mkdir? && spot.did[0].dir == root && spot.did[0].name == name
    && spot.did[1] == Open(root, name, dir)
    && spot.place.home.name == name && Stands(spot.(did := []), listed, root, record, BeforeDelete)
  }

  /** The quarantine has been made, opened and closed to others, and nothing else. */
  predicate HasClosed(spot: Spot, listed: seq<Record>, root: NodeId, record: Record, home: Home) {
    && |spot.did| == 3 && spot.did[0].Mkdir? && spot.did[0].dir == root && spot.did[0].name == home.name
    && spot.did[1] == Open(root, home.name, home.dir)
    && spot.did[2].Chmod? && spot.did[2].node == home.dir && spot.did[2].perm == PRIVATE_MODE
    && StandsIn(spot.(did := []), listed, root, home, record, BeforeDelete)
  }

  /** The inode has been emptied, and nothing else. */
  predicate HasEmptied(spot: Spot, listed: seq<Record>, record: Record, part: Part, node: NodeId) {
    && |spot.did| == 1 && spot.did[0].Truncate? && spot.did[0].node == node && Pins(record, part, node)
    && Stands(spot.(did := []), listed, spot.place.root, record,
              if part.Manifest? then BarrierComplete else Reclaimed(Manifest))
  }

  /** The root is held and found live, and nothing else was done. */
  predicate HasRoot(spot: Spot, root: NodeId, uid: int) {
    && spot.step.None? && spot.place.root == root
    && |spot.did| == 3 && spot.did[0] == OpenRoot(root) && RootAgrees(spot.did, 1, root, uid)
  }

  /** The root has just been opened. */
  predicate HoldsRoot(spot: Spot, root: NodeId) {
    spot.step.None? && spot.place.root == root && spot.place.count == 0 && spot.did == [OpenRoot(root)]
  }

  /** The root is held, live and listed, and the quarantines looked at are private. */
  predicate HasAdmitted(spot: Spot, root: NodeId, uid: int) {
    spot.step.None? && spot.place.root == root && IsAdmitted(spot.did, root, uid)
  }

  /** Both inodes were read twice, the second time as zero-byte files with the identities of the first. */
  predicate ReadsEmpty(did: seq<Call>, i: nat, m: NodeId, a: NodeId, manifest: Identity, artifact: Identity) {
    && i + 4 <= |did|
    && did[i].Fstat? && did[i].node == m && did[i].stat.identity == manifest
    && did[i + 1].Fstat? && did[i + 1].node == a && did[i + 1].stat.identity == artifact
    && ShowsEmpty(did[i + 2], m, manifest) && ShowsEmpty(did[i + 3], a, artifact)
  }

  /** So many records are done, and the next one may come. */
  predicate IsReady(spot: Spot, root: NodeId, k: nat) {
    HasFinished(spot, k) && spot.place.root == root
  }

  /** So many records are done, and nothing was done since. */
  predicate HasFinished(spot: Spot, k: nat) {
    && spot.did == [] && spot.place.count == k
    && spot.step == Some(if k == 0 then PreflightComplete else MadeDurable(Retaining))
  }

  // ---------- Why each call may come ----------

  /** The name of the last checkpoint is that of the record under way. */
  predicate IsNamed(place: Place, listed: seq<Record>, name: Name) {
    0 < place.count <= |listed| && listed[place.count - 1].name == name
  }

  lemma LooksAreAllowed(spot: Spot, listed: seq<Record>, uid: int, call: Call)
    requires IsLook(call) || (call.OpenRoot? && spot == START)
    ensures Allows(spot, listed, uid, call)
  {
  }

  lemma AllowedIsNamed(spot: Spot, listed: seq<Record>, uid: int, call: Call)
    requires Allows(spot, listed, uid, call)
    requires call.Checkpoint? && !call.step.HandlesOpened? && !call.step.PreflightComplete?
    ensures call.record == spot.name && IsNamed(spot.place, listed, spot.name)
  {
    assert MayFollow(spot, listed, uid, call);
  }

  function SyncTarget(place: Place, ofRoot: bool): NodeId {
    if ofRoot then place.root else place.home.dir
  }

  lemma SyncIsAllowed(spot: Spot, listed: seq<Record>, uid: int)
    requires spot.step.Some? && spot.step.value.BeforeSync? && spot.did == [] && IsNamed(spot.place, listed, spot.name)
    ensures var target := SyncTarget(spot.place, spot.step.value.ofRoot);
            && Allows(spot, listed, uid, Fsync(target))
            && Allows(Look(spot, Fsync(target)), listed, uid,
                      Checkpoint(Synced(spot.step.value.phase, spot.step.value.ofRoot), spot.name))
  {
  }

  lemma SyncedAllows(spot: Spot, listed: seq<Record>, uid: int)
    requires spot.step.Some? && spot.step.value.Synced? && spot.did == [] && IsNamed(spot.place, listed, spot.name)
    ensures var phase := spot.step.value.phase;
            Allows(spot, listed, uid,
                   Checkpoint(if spot.step.value.ofRoot then MadeDurable(phase)
                              else BeforeSync(phase, true), spot.name))
  {
  }

  lemma CaptureIsAllowed(spot: Spot, listed: seq<Record>, uid: int, root: NodeId, record: Record, part: Part)
    requires |spot.did| == 3 && FindsSource(spot.did, root, record, part)
    requires Stands(spot.(did := []), listed, root, record,
                    MadeDurable(if part.Manifest? then Creating else Capturing(Manifest)))
    ensures Allows(spot, listed, uid, Checkpoint(BeforeCapture(part), record.name))
  {
  }

  lemma MoveIsAllowed(spot: Spot, listed: seq<Record>, uid: int, root: NodeId, record: Record, part: Part, call: Call)
    requires Stands(spot, listed, root, record, BeforeCapture(part))
    requires call.Rename? && call.dir == root && call.destination == spot.place.home.dir
    requires call.name == SourceName(record, part) && call.newName == CapturedName(part)
    ensures Allows(spot, listed, uid, call)
    ensures HasMoved(Act(spot, call), listed, root, record, part) && Act(spot, call).place == spot.place
  {
  }

  lemma CapturedIsAllowed(spot: Spot, listed: seq<Record>, uid: int, record: Record, part: Part)
    requires HasMoved(spot, listed, spot.place.root, record, part)
    ensures Allows(spot, listed, uid, Checkpoint(Captured(part), record.name))
  {
  }

  lemma CaptureMaySync(before: Spot, after: Spot, listed: seq<Record>, uid: int, root: NodeId, home: Home,
                       record: Record, part: Part, held: (NodeId, Identity))
    requires HasConfirmed(before, listed, root, record, part, held.0, held.1) && before.place.home == home
    requires Looks(before, after, 8) && PassesSingleBarrier(after.did, 5, root, home, uid, held.0, held.1, part)
    ensures Allows(after, listed, uid, Checkpoint(BeforeSync(Capturing(part), false), record.name))
  {
    assert SecuredCapture(after.did, after.place, uid, record, part);
  }

  lemma BarrierMayBegin(spot: Spot, listed: seq<Record>, uid: int, root: NodeId, record: Record)
    requires Stands(spot, listed, root, record, MadeDurable(Capturing(Artifact)))
    ensures Allows(spot, listed, uid, Checkpoint(BeforeBarrier, record.name))
  {
  }

  lemma BarrierMayEnd(before: Spot, after: Spot, listed: seq<Record>, uid: int, root: NodeId, home: Home,
                      record: Record, m: (NodeId, Identity), a: (NodeId, Identity))
    requires StandsIn(before, listed, root, home, record, BeforeBarrier)
    requires Looks(before, after, 8) && RereadsCaptured(after.did, 4, home.dir, m, a)
    requires RootAgrees(after.did, 0, root, uid) && DirectoryAgrees(after.did, 2, root, home, uid)
    requires SameButCtime(record.manifest, m.1) && SameButCtime(record.artifact, a.1)
    ensures Allows(after, listed, uid, Checkpoint(BarrierComplete, record.name))
  {
    assert PassesPairBarrier(after.did, root, home, uid, record);
  }

  lemma TruncateIsAllowed(spot: Spot, listed: seq<Record>, uid: int, record: Record, part: Part, call: Call)
    requires Stands(spot, listed, spot.place.root, record,
                    if part.Manifest? then BarrierComplete else Reclaimed(Manifest))
    requires call.Truncate? && Pins(record, part, call.node)
    ensures Allows(spot, listed, uid, call)
  {
  }

  lemma FlushIsAllowed(spot: Spot, listed: seq<Record>, uid: int, record: Record, part: Part, node: NodeId)
    requires HasEmptied(spot, listed, record, part, node)
    ensures Allows(spot, listed, uid, Fsync(node))
    ensures Allows(Look(spot, Fsync(node)), listed, uid, Checkpoint(Reclaimed(part), record.name))
  {
  }

  lemma MkdirIsAllowed(spot: Spot, listed: seq<Record>, uid: int, root: NodeId, record: Record, call: Call)
    requires Stands(spot, listed, root, record, BeforeDelete)
    requires call.Mkdir? && call.dir == root && IsQuarantineName(call.name)
    ensures Allows(spot, listed, uid, call)
  {
  }

  lemma ChmodIsAllowed(spot: Spot, listed: seq<Record>, uid: int, root: NodeId, record: Record, name: Name, call: Call)
    requires call.Chmod? && call.perm == PRIVATE_MODE && HasOpenedHome(spot, listed, root, record, name, call.node)
    ensures Allows(spot, listed, uid, call)
  {
  }

  lemma QuarantineMaySync(before: Spot, after: Spot, listed: seq<Record>, uid: int, root: NodeId, record: Record,
                          home: Home)
    requires HasClosed(before, listed, root, record, home) && Looks(before, after, 4)
    requires DirectoryAgrees(after.did, 3, root, home, uid) && SharesDevice(after.did, 5, root, home.dir)
    ensures Allows(after, listed, uid, Checkpoint(BeforeSync(Creating, false), record.name))
  {
    assert MadeQuarantine(after.did, after.place, uid);
  }

  lemma TombstonesMaySync(before: Spot, after: Spot, listed: seq<Record>, uid: int, root: NodeId, home: Home,
                          record: Record)
    requires StandsIn(before, listed, root, home, record, Reclaimed(Artifact))
    requires Looks(before, after, 10) && KeepsTombstones(after.did, root, home, uid, record)
    ensures Allows(after, listed, uid, Checkpoint(BeforeSync(Retaining, false), record.name))
  {
  }

  lemma DeletionIsAllowed(spot: Spot, listed: seq<Record>, uid: int, record: Record)
    requires HasVerified(spot, listed, true) && IsCurrent(spot.place, listed, record) && spot.name == record.name
    ensures Allows(spot, listed, uid, Checkpoint(BeforeDelete, record.name))
  {
  }

  lemma PreflightMayEnd(spot: Spot, listed: seq<Record>, uid: int)
    requires spot.place.count == |listed| && MayTurn(spot, listed, uid, false)
    ensures Allows(spot, listed, uid, Checkpoint(PreflightComplete, ""))
  {
  }
}
