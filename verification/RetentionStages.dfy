/** How each call changes the disk while one pair is pruned and nobody interferes. */
module RetentionStages {
  import opened Outcomes
  import opened Filesystem
  import opened IdentityRecord
  import opened RetentionProtocol
  import opened RetentionTrace

  /** The root lists both files of the pair, each with exactly the recorded identity. */
  predicate PairMatches(d: Disk, root: NodeId, record: Record) {
    && IsExactFile(StatAt(d, root, ManifestName(record.name)), record.manifest, Manifest)
    && IsExactFile(StatAt(d, root, record.name), record.artifact, Artifact)
  }

  function Quarantines(view: View): set<Name> {
    set name | name in view && IsQuarantineName(name)
  }

  // ---------- The stages of one record ----------

  /** Where a record is pruned: its root, its quarantine, and its two inodes. */
  datatype Site = Site(root: NodeId, name: Name, quarantine: NodeId, manifest: NodeId, artifact: NodeId)

  datatype Stage = Stage(rootViews: seq<View>, quarantineViews: seq<View>, rootNode: Inode,
                         manifestNode: Inode, artifactNode: Inode, quarantineNode: Inode)

  /** The disk `d` with just the four inodes and two directories of a record changed. */
  function At(d: Disk, site: Site, stage: Stage): Disk {
    Disk(d.nodes[site.root := stage.rootNode][site.manifest := stage.manifestNode]
         [site.artifact := stage.artifactNode][site.quarantine := stage.quarantineNode],
         d.dirs[site.root := stage.rootViews][site.quarantine := stage.quarantineViews],
         d.top)
  }

  predicate Ready(d: Disk, site: Site, record: Record) {
    && IsDir(d, site.root) && site.root in d.nodes && d.nodes[site.root].kind == Directory
    && site.quarantine !in d.nodes && site.quarantine !in d.dirs
    && IsQuarantineName(site.name) && site.name !in Live(d, site.root)
    && IsPlainName(record.name)
    && Names(d, site.root, ManifestName(record.name), site.manifest)
    && Names(d, site.root, record.name, site.artifact)
    && PairMatches(d, site.root, record)
    && SoleName(d, site.root, ManifestName(record.name)) && SoleName(d, site.root, record.name)
  }

  /** The inode of a name has no second name in the directory. */
  predicate SoleName(d: Disk, dir: NodeId, name: Name) {
    forall other :: other in Live(d, dir) && name in Live(d, dir) && Live(d, dir)[other] == Live(d, dir)[name] ==>
      other == name
  }

  lemma ReadyIsDistinct(d: Disk, site: Site, record: Record)
    requires Ready(d, site, record)
    ensures site.root != site.manifest && site.root != site.artifact && site.root != site.quarantine
    ensures site.manifest != site.artifact && site.manifest != site.quarantine && site.artifact != site.quarantine
    ensures site.manifest in d.nodes && site.artifact in d.nodes
    ensures d.nodes[site.manifest].kind == Regular && d.nodes[site.artifact].kind == Regular
    ensures ManifestName(record.name) != record.name
    ensures site.name != record.name && site.name != ManifestName(record.name)
  {
    NamesDoNotClash(record.name, record.name);
    NotQuarantine(record.name);
  }

  lemma NotQuarantine(name: string)
    requires IsPlainName(name)
    ensures !IsQuarantineName(name) && !IsQuarantineName(ManifestName(name))
  {
    assert ManifestName(name)[0] == name[0];
    assert QUARANTINE_PREFIX[0] == '.';
  }

  function Last(views: seq<View>): View
    requires views != []
  {
    views[|views| - 1]
  }

  function Touched(node: Inode, time: int): Inode {
    node.(mtime := time, ctime := time)
  }

  /** The stage that `mkdir` starts. */
  function Created(d: Disk, site: Site, record: Record, perm: nat, uid: int, time: int): Stage
    requires Ready(d, site, record)
  {
    ReadyIsDistinct(d, site, record);
    Stage(d.dirs[site.root] + [Live(d, site.root)[site.name := site.quarantine]], [map[]],
          Touched(d.nodes[site.root], time), d.nodes[site.manifest], d.nodes[site.artifact],
          Inode(Directory, perm, [], time, time, uid, 0, 2))
  }

  lemma MkdirStage(d: Disk, site: Site, record: Record, perm: nat, uid: int, time: int)
    requires Ready(d, site, record)
    ensures var call := Mkdir(site.root, site.name, site.quarantine, perm, uid, time);
            Enabled(call, d) && Apply(call, d) == At(d, site, Created(d, site, record, perm, uid, time))
  {
    ReadyIsDistinct(d, site, record);
    var call := Mkdir(site.root, site.name, site.quarantine, perm, uid, time);
    var s := At(d, site, Created(d, site, record, perm, uid, time));
    assert Apply(call, d).nodes == s.nodes;
    assert Apply(call, d).dirs == s.dirs;
  }

  lemma ChmodStage(d: Disk, site: Site, stage: Stage, perm: nat, time: int)
    ensures var call := Chmod(site.quarantine, perm, time);
            && Enabled(call, At(d, site, stage))
            && Apply(call, At(d, site, stage)) ==
               At(d, site, stage.(quarantineNode := stage.quarantineNode.(perm := perm, ctime := time)))
  {
    var call := Chmod(site.quarantine, perm, time);
    var s := At(d, site, stage.(quarantineNode := stage.quarantineNode.(perm := perm, ctime := time)));
    assert Apply(call, At(d, site, stage)).nodes == s.nodes;
  }

  function RootSynced(stage: Stage): Stage
    requires stage.rootViews != []
  {
    stage.(rootViews := [Last(stage.rootViews)])
  }

  function QuarantineSynced(stage: Stage): Stage
    requires stage.quarantineViews != []
  {
    stage.(quarantineViews := [Last(stage.quarantineViews)])
  }

  lemma SyncStage(d: Disk, site: Site, stage: Stage)
    requires stage.rootViews != [] && stage.quarantineViews != []
    requires stage.rootNode.kind == Directory && stage.quarantineNode.kind == Directory
    requires site.root != site.quarantine && site.root != site.manifest && site.root != site.artifact
    ensures var s := At(d, site, stage);
            && Enabled(Fsync(site.root), s) && Apply(Fsync(site.root), s) == At(d, site, RootSynced(stage))
            && Enabled(Fsync(site.quarantine), s)
            && Apply(Fsync(site.quarantine), s) == At(d, site, QuarantineSynced(stage))
  {
    var s := At(d, site, stage);
    assert Apply(Fsync(site.root), s).dirs == At(d, site, RootSynced(stage)).dirs;
    assert Apply(Fsync(site.quarantine), s).dirs == At(d, site, QuarantineSynced(stage)).dirs;
  }

  function NodeOf(site: Site, part: Part): NodeId {
    if part.Manifest? then site.manifest else site.artifact
  }

  function InodeOf(stage: Stage, part: Part): Inode {
    if part.Manifest? then stage.manifestNode else stage.artifactNode
  }

  function WithInode(stage: Stage, part: Part, node: Inode): Stage {
    if part.Manifest? then stage.(manifestNode := node) else stage.(artifactNode := node)
  }

  /** The stage after the no-replace rename of one half of the pair. */
  function Moved(stage: Stage, site: Site, record: Record, part: Part, time: int): Stage
    requires stage.rootViews != [] && stage.quarantineViews != []
  {
    WithInode(stage, part, InodeOf(stage, part).(ctime := time))
    .(rootViews := stage.rootViews + [Last(stage.rootViews) - {SourceName(record, part)}],
      quarantineViews := stage.quarantineViews +
                         [Last(stage.quarantineViews)[CapturedName(part) := NodeOf(site, part)]],
      rootNode := Touched(stage.rootNode, time),
      quarantineNode := Touched(stage.quarantineNode, time))
  }

  lemma MoveStage(d: Disk, site: Site, record: Record, stage: Stage, part: Part, time: int)
    requires Ready(d, site, record)
    requires stage.rootViews != [] && stage.quarantineViews != []
    requires SourceName(record, part) in Last(stage.rootViews)
    requires Last(stage.rootViews)[SourceName(record, part)] == NodeOf(site, part)
    requires CapturedName(part) !in Last(stage.quarantineViews)
    ensures var call := Rename(site.root, SourceName(record, part), site.quarantine, CapturedName(part), time);
            && Enabled(call, At(d, site, stage))
            && Apply(call, At(d, site, stage)) == At(d, site, Moved(stage, site, record, part, time))
  {
    ReadyIsDistinct(d, site, record);
    var s := At(d, site, stage);
    var call := Rename(site.root, SourceName(record, part), site.quarantine, CapturedName(part), time);
    var t := At(d, site, Moved(stage, site, record, part, time));
    assert Enabled(call, s);
    assert Apply(call, s).nodes == t.nodes;
    assert Apply(call, s).dirs == t.dirs;
  }

  function Emptied(stage: Stage, part: Part, time: int): Stage {
    WithInode(stage, part, Touched(InodeOf(stage, part), time).(data := []))
  }

  lemma TruncateStage(d: Disk, site: Site, record: Record, stage: Stage, part: Part, time: int)
    requires Ready(d, site, record)
    requires InodeOf(stage, part).kind == Regular
    ensures var call := Truncate(NodeOf(site, part), time);
            && Enabled(call, At(d, site, stage))
            && Apply(call, At(d, site, stage)) == At(d, site, Emptied(stage, part, time))
  {
    ReadyIsDistinct(d, site, record);
    var call := Truncate(NodeOf(site, part), time);
    assert Apply(call, At(d, site, stage)).nodes == At(d, site, Emptied(stage, part, time)).nodes;
  }
}
