/** What a crash must never show, the stages of pruning one pair, and why a crash at any of them is safe. */
module RetentionCrash {
  import opened Outcomes
  import opened Filesystem
  import opened IdentityRecord
  import opened RetentionProtocol
  import opened RetentionTrace
  import opened RetentionStages

  // ---------- What a crash must never show ----------

  /** No view of the root that may be on disk lists a manifest whose artifact it does not list. */
  predicate PairsInOrder(views: seq<View>, listed: seq<Record>) {
    forall view, record :: view in views && record in listed && ManifestName(record.name) in view ==>
      record.name in view
  }

  /** Whatever old file a view of the root that may be on disk lists, its bytes are untouched. */
  predicate BytesIntact(d0: Disk, s: Disk, root: NodeId)
    requires IsDir(s, root)
  {
    forall view, name :: view in s.dirs[root] && name in view && view[name] in d0.nodes ==>
      view[name] in s.nodes && s.nodes[view[name]].data == d0.nodes[view[name]].data
  }

  ghost predicate HoldsDurably(s: Disk, dir: NodeId, node: NodeId) {
    exists entry :: entry in Durable(s, dir) && Durable(s, dir)[entry] == node
  }

  ghost predicate DurablyAt(s: Disk, root: NodeId, node: NodeId, name: Name) {
    name in Durable(s, root) && (Durable(s, root)[name] == node || HoldsDurably(s, Durable(s, root)[name], node))
  }

  /** The inode has a synced name: in the root, or in a directory that the synced root names. */
  ghost predicate Recoverable(s: Disk, root: NodeId, node: NodeId) {
    exists name :: DurablyAt(s, root, node, name)
  }

  predicate ListsPair(d: Disk, root: NodeId, record: Record) {
    ManifestName(record.name) in Live(d, root) && record.name in Live(d, root)
  }

  function NodeFor(d: Disk, root: NodeId, record: Record, part: Part): NodeId
    requires ListsPair(d, root, record)
  {
    Live(d, root)[SourceName(record, part)]
  }

  ghost predicate PairRecoverable(d0: Disk, s: Disk, root: NodeId, record: Record)
    requires ListsPair(d0, root, record)
  {
    Recoverable(s, root, NodeFor(d0, root, record, Manifest))
      && Recoverable(s, root, NodeFor(d0, root, record, Artifact))
  }

  ghost predicate CrashSafe(d0: Disk, s: Disk, root: NodeId, listed: seq<Record>) {
    && IsDir(s, root)
    && PairsInOrder(s.dirs[root], listed)
    && BytesIntact(d0, s, root)
    && (forall record :: record in listed && ListsPair(d0, root, record) ==> PairRecoverable(d0, s, root, record))
    && |Quarantines(Live(s, root))| <= MAX_TOMBSTONES
  }

  // ---------- Stages are crash safe ----------

  /** A name that stands, synced and live, for an inode; `record` under way does not take it away. */
  ghost predicate SecuredBy(d: Disk, root: NodeId, node: NodeId, name: Name) {
    && name in Durable(d, root) && name in Live(d, root) && Live(d, root)[name] == Durable(d, root)[name]
    && (Live(d, root)[name] == node || (Live(d, root)[name] != root && HoldsDurably(d, Live(d, root)[name], node)))
  }

  ghost predicate SecuredApart(d: Disk, root: NodeId, node: NodeId, record: Record) {
    exists name :: name != record.name && name != ManifestName(record.name) && SecuredBy(d, root, node, name)
  }

  function RootWithQuarantine(d: Disk, site: Site): View {
    Live(d, site.root)[site.name := site.quarantine]
  }

  function RootWithoutManifest(d: Disk, site: Site, record: Record): View {
    RootWithQuarantine(d, site) - {ManifestName(record.name)}
  }

  function RootWithoutPair(d: Disk, site: Site, record: Record): View {
    RootWithoutManifest(d, site, record) - {record.name}
  }

  predicate IsStageView(d: Disk, site: Site, record: Record, view: View)
    requires IsDir(d, site.root)
  {
    view in d.dirs[site.root] || IsNewView(d, site, record, view)
  }

  /** The views of the root that pruning the record brings about. */
  predicate IsNewView(d: Disk, site: Site, record: Record, view: View) {
    || view == RootWithQuarantine(d, site)
    || view == RootWithoutManifest(d, site, record)
    || view == RootWithoutPair(d, site, record)
  }

  /** Half of the pair still has its synced root name, or its synced quarantine already holds it. */
  predicate HalfSynced(site: Site, record: Record, stage: Stage, part: Part)
    requires stage.rootViews != [] && stage.quarantineViews != []
  {
    || (SourceName(record, part) in stage.rootViews[0]
        && stage.rootViews[0][SourceName(record, part)] == NodeOf(site, part))
    || (&& site.name in stage.rootViews[0] && stage.rootViews[0][site.name] == site.quarantine
        && CapturedName(part) in stage.quarantineViews[0]
        && stage.quarantineViews[0][CapturedName(part)] == NodeOf(site, part))
  }

  /** Stages in which bytes go only after both names have durably left the root. */
  predicate Careful(d: Disk, site: Site, record: Record, stage: Stage)
    requires Ready(d, site, record)
  {
    ReadyIsDistinct(d, site, record);
    && stage.rootViews != [] && stage.quarantineViews != []
    && (forall view :: view in stage.rootViews ==> IsStageView(d, site, record, view))
    && (stage.rootViews[0] == Durable(d, site.root) || IsNewView(d, site, record, stage.rootViews[0]))
    && IsNewView(d, site, record, Last(stage.rootViews))
    && (|| stage.rootViews == [RootWithoutPair(d, site, record)]
        || (&& stage.manifestNode.data == d.nodes[site.manifest].data
            && stage.artifactNode.data == d.nodes[site.artifact].data))
    && stage.rootNode.data == d.nodes[site.root].data
    && (NamesDurably(d, site, record, Manifest) ==> HalfSynced(site, record, stage, Manifest))
    && (NamesDurably(d, site, record, Artifact) ==> HalfSynced(site, record, stage, Artifact))
  }

  predicate NamesDurably(d: Disk, site: Site, record: Record, part: Part) {
    && SourceName(record, part) in Durable(d, site.root)
    && Durable(d, site.root)[SourceName(record, part)] == NodeOf(site, part)
  }

  /** What holds when the helper turns to a record. */
  ghost predicate Standing(d0: Disk, d: Disk, site: Site, record: Record, listed: seq<Record>) {
    && Ready(d, site, record)
    && CrashSafe(d0, d, site.root, listed)
    && record in listed && ListsPair(d0, site.root, record)
    && (forall other :: other in listed ==> IsPlainName(other.name))
    && d0.nodes.Keys <= d.nodes.Keys
    && NodeFor(d0, site.root, record, Manifest) == site.manifest
    && NodeFor(d0, site.root, record, Artifact) == site.artifact
    && |Quarantines(Live(d, site.root))| < MAX_TOMBSTONES
    && NamesDurably(d, site, record, Manifest) && NamesDurably(d, site, record, Artifact)
    && (forall other :: other in listed && other.name != record.name && ListsPair(d0, site.root, other) ==>
          && SecuredApart(d, site.root, NodeFor(d0, site.root, other, Manifest), record)
          && SecuredApart(d, site.root, NodeFor(d0, site.root, other, Artifact), record))
  }

  lemma StagePairsInOrder(d0: Disk, d: Disk, site: Site, record: Record, listed: seq<Record>, view: View)
    requires Standing(d0, d, site, record, listed)
    requires IsStageView(d, site, record, view)
    ensures PairsInOrder([view], listed)
  {
    ReadyIsDistinct(d, site, record);
    var live := Live(d, site.root);
    assert live in d.dirs[site.root];
    forall other | other in listed && ManifestName(other.name) in view
      ensures other.name in view
    {
      if view !in d.dirs[site.root] {
        NotQuarantine(other.name);
        NamesDoNotClash(other.name, record.name);
        assert ManifestName(other.name) in live;
        assert other.name in live;
      }
    }
  }

  lemma StageBytesIntact(d0: Disk, d: Disk, site: Site, record: Record, listed: seq<Record>, stage: Stage, view: View,
                         name: Name)
    requires Standing(d0, d, site, record, listed) && Careful(d, site, record, stage)
    requires view in stage.rootViews && name in view && view[name] in d0.nodes
    ensures var s := At(d, site, stage);
            view[name] in s.nodes && s.nodes[view[name]].data == d0.nodes[view[name]].data
  {
    ReadyIsDistinct(d, site, record);
    var live := Live(d, site.root);
    var node := view[name];
    assert IsStageView(d, site, record, view);
    assert live in d.dirs[site.root];
    assert node != site.quarantine;
    assert exists source :: source in d.dirs[site.root] && name in source && source[name] == node by {
      if view !in d.dirs[site.root] {
        assert name in live && live[name] == node;
      }
    }
    var source :| source in d.dirs[site.root] && name in source && source[name] == node;
    assert d.nodes[node].data == d0.nodes[node].data;
    if stage.rootViews == [RootWithoutPair(d, site, record)] {
      assert view == RootWithoutPair(d, site, record);
      assert name in live && live[name] == node && name != record.name && name != ManifestName(record.name);
      assert node != site.manifest && node != site.artifact;
    }
  }

  lemma StageKeepsOthers(d: Disk, site: Site, record: Record, stage: Stage, node: NodeId)
    requires Ready(d, site, record) && Careful(d, site, record, stage)
    requires SecuredApart(d, site.root, node, record)
    ensures Recoverable(At(d, site, stage), site.root, node)
  {
    ReadyIsDistinct(d, site, record);
    var s := At(d, site, stage);
    var name :| name != record.name && name != ManifestName(record.name) && SecuredBy(d, site.root, node, name);
    var view := Durable(s, site.root);
    assert view == stage.rootViews[0];
    assert IsStageView(d, site, record, view);
    assert name != site.name;
    assert name in view && view[name] == Live(d, site.root)[name];
    if view[name] != node {
      var dir := view[name];
      var entry :| entry in Durable(d, dir) && Durable(d, dir)[entry] == node;
      assert dir != site.quarantine && dir != site.root;
      assert Durable(s, dir) == Durable(d, dir);
    }
    assert DurablyAt(s, site.root, node, name);
  }

  lemma StageKeepsHalf(d: Disk, site: Site, record: Record, stage: Stage, part: Part)
    requires Ready(d, site, record) && Careful(d, site, record, stage) && NamesDurably(d, site, record, part)
    ensures Recoverable(At(d, site, stage), site.root, NodeOf(site, part))
  {
    ReadyIsDistinct(d, site, record);
    var s := At(d, site, stage);
    assert HalfSynced(site, record, stage, part);
    if SourceName(record, part) in stage.rootViews[0]
      && stage.rootViews[0][SourceName(record, part)] == NodeOf(site, part) {
      assert DurablyAt(s, site.root, NodeOf(site, part), SourceName(record, part));
    } else {
      assert CapturedName(part) in Durable(s, site.quarantine);
      assert DurablyAt(s, site.root, NodeOf(site, part), site.name);
    }
  }

  /** A crash in any careful stage is safe. */
  lemma StageIsCrashSafe(d0: Disk, d: Disk, site: Site, record: Record, listed: seq<Record>, stage: Stage)
    requires Standing(d0, d, site, record, listed) && Careful(d, site, record, stage)
    requires forall a, b :: a in listed && b in listed && a.name == b.name ==> a == b
    ensures CrashSafe(d0, At(d, site, stage), site.root, listed)
  {
    ReadyIsDistinct(d, site, record);
    var s := At(d, site, stage);
    var root := site.root;
    assert s.dirs[root] == stage.rootViews;
    forall view, other | view in s.dirs[root] && other in listed && ManifestName(other.name) in view
      ensures other.name in view
    {
      assert IsStageView(d, site, record, view);
      StagePairsInOrder(d0, d, site, record, listed, view);
      assert view in [view];
    }
    forall view, name | view in s.dirs[root] && name in view && view[name] in d0.nodes
      ensures view[name] in s.nodes && s.nodes[view[name]].data == d0.nodes[view[name]].data
    {
      StageBytesIntact(d0, d, site, record, listed, stage, view, name);
    }
    forall other | other in listed && ListsPair(d0, root, other)
      ensures PairRecoverable(d0, s, root, other)
    {
      if other.name == record.name {
        StageKeepsHalf(d, site, record, stage, Manifest);
        StageKeepsHalf(d, site, record, stage, Artifact);
      } else {
        StageKeepsOthers(d, site, record, stage, NodeFor(d0, root, other, Manifest));
        StageKeepsOthers(d, site, record, stage, NodeFor(d0, root, other, Artifact));
      }
    }
    StageWithinBudget(d, site, record, stage);
  }

  lemma StageWithinBudget(d: Disk, site: Site, record: Record, stage: Stage)
    requires Ready(d, site, record) && Careful(d, site, record, stage)
    requires |Quarantines(Live(d, site.root))| < MAX_TOMBSTONES
    ensures |Quarantines(Live(At(d, site, stage), site.root))| <= MAX_TOMBSTONES
  {
    ReadyIsDistinct(d, site, record);
    var live := Live(d, site.root);
    var view := Last(stage.rootViews);
    assert Live(At(d, site, stage), site.root) == view;
    assert IsStageView(d, site, record, view);
    assert Quarantines(view) <= Quarantines(live) + {site.name};
    Subset(Quarantines(view), Quarantines(live) + {site.name});
  }

  lemma Subset<T>(a: set<T>, b: set<T>)
    requires a <= b
    ensures |a| <= |b|
  {
    assert b == a + (b - a);
  }

  // ---------- The stages that a record passes ----------

  function RootAfter(d: Disk, site: Site, record: Record, moved: nat): View {
    if moved == 0 then RootWithQuarantine(d, site)
    else if moved == 1 then RootWithoutManifest(d, site, record)
    else RootWithoutPair(d, site, record)
  }

  function HeldAfter(site: Site, moved: nat): View {
    if moved == 0 then map[]
    else if moved == 1 then map["manifest" := site.manifest]
    else map["manifest" := site.manifest, "artifact" := site.artifact]
  }

  function PartAt(moved: nat): Part {
    if moved == 0 then Manifest else Artifact
  }

  predicate IsTouched(before: Inode, after: Inode) {
    after == before.(mtime := after.mtime, ctime := after.ctime)
  }

  /** The four inodes while no byte has been reclaimed. */
  predicate NodesStand(d: Disk, site: Site, record: Record, stage: Stage, moved: nat, uid: int)
    requires Ready(d, site, record)
  {
    ReadyIsDistinct(d, site, record);
    && IsTouched(d.nodes[site.root], stage.rootNode)
    && stage.quarantineNode.kind == Directory && stage.quarantineNode.perm == PRIVATE_MODE
    && stage.quarantineNode.uid == uid
    && stage.manifestNode == d.nodes[site.manifest].(ctime := stage.manifestNode.ctime)
    && stage.artifactNode == d.nodes[site.artifact].(ctime := stage.artifactNode.ctime)
    && (moved == 0 ==> stage.manifestNode == d.nodes[site.manifest])
    && (moved <= 1 ==> stage.artifactNode == d.nodes[site.artifact])
  }

  /** So many files of the pair are durably in the quarantine and durably out of the root. */
  predicate Reached(d: Disk, site: Site, record: Record, stage: Stage, moved: nat, uid: int)
    requires Ready(d, site, record)
  {
    && stage.rootViews == [RootAfter(d, site, record, moved)]
    && stage.quarantineViews == [HeldAfter(site, moved)]
    && NodesStand(d, site, record, stage, moved, uid)
  }

  lemma StageLookups(d: Disk, site: Site, record: Record, stage: Stage)
    requires Ready(d, site, record) && stage.rootViews != [] && stage.quarantineViews != []
    ensures var s := At(d, site, stage);
            && IsDir(s, site.root) && IsDir(s, site.quarantine)
            && Live(s, site.root) == Last(stage.rootViews) && Live(s, site.quarantine) == Last(stage.quarantineViews)
            && site.root in s.nodes && s.nodes[site.root] == stage.rootNode
            && site.quarantine in s.nodes && s.nodes[site.quarantine] == stage.quarantineNode
            && site.manifest in s.nodes && s.nodes[site.manifest] == stage.manifestNode
            && site.artifact in s.nodes && s.nodes[site.artifact] == stage.artifactNode
            && s.top == d.top
  {
    ReadyIsDistinct(d, site, record);
  }

  /** The same file, its bytes kept or emptied. */
  predicate IsKept(before: Inode, after: Inode) {
    && after == before.(data := after.data, mtime := after.mtime, ctime := after.ctime)
    && (after.data == before.data || after.data == [])
  }

  /**
   What a crash may show of the two directories once so many files have moved: the root as it is or as it was before
   the last change, and the quarantine as it is or, until it is synced, as it was before the last file came in.
   */
  predicate ViewsAt(d: Disk, site: Site, record: Record, stage: Stage, moved: nat)
    requires IsDir(d, site.root)
  {
    var root, held := RootAfter(d, site, record, moved), HeldAfter(site, moved);
    || (stage.rootViews == [root] && stage.quarantineViews == [held])
    || (moved == 0 && stage.rootViews == d.dirs[site.root] + [root] && stage.quarantineViews == [held])
    || (&& moved > 0 && stage.rootViews == [RootAfter(d, site, record, moved - 1), root]
        && (stage.quarantineViews == [held] || stage.quarantineViews == [HeldAfter(site, moved - 1), held]))
  }

  /** Bytes are kept until both files are out and the root is synced. */
  predicate OrderlyAt(d: Disk, site: Site, record: Record, stage: Stage, moved: nat)
    requires Ready(d, site, record)
  {
    ReadyIsDistinct(d, site, record);
    && moved <= 2 && ViewsAt(d, site, record, stage, moved)
    && IsTouched(d.nodes[site.root], stage.rootNode) && stage.quarantineNode.kind == Directory
    && IsKept(d.nodes[site.manifest], stage.manifestNode) && IsKept(d.nodes[site.artifact], stage.artifactNode)
    && (|| (moved == 2 && stage.rootViews == [RootWithoutPair(d, site, record)])
        || (&& stage.manifestNode.data == d.nodes[site.manifest].data
            && stage.artifactNode.data == d.nodes[site.artifact].data))
  }

  /** The stages of pruning one record. */
  ghost predicate Orderly(d: Disk, site: Site, record: Record, stage: Stage)
    requires Ready(d, site, record)
  {
    exists moved: nat :: OrderlyAt(d, site, record, stage, moved)
  }

  lemma OrderlyIsCareful(d: Disk, site: Site, record: Record, stage: Stage)
    requires Ready(d, site, record) && Orderly(d, site, record, stage)
    ensures Careful(d, site, record, stage)
  {
    ReadyIsDistinct(d, site, record);
    var moved: nat :| OrderlyAt(d, site, record, stage, moved);
  }

  /** The stages of setting a quarantine up are orderly. */
  lemma SetUpIsOrderly(d: Disk, site: Site, record: Record, stage: Stage)
    requires Ready(d, site, record)
    requires || stage.rootViews == d.dirs[site.root] + [RootWithQuarantine(d, site)]
             || stage.rootViews == [RootWithQuarantine(d, site)]
    requires stage.quarantineViews == [map[]] && stage.quarantineNode.kind == Directory
    requires stage.manifestNode == d.nodes[site.manifest] && stage.artifactNode == d.nodes[site.artifact]
    requires IsTouched(d.nodes[site.root], stage.rootNode)
    ensures Orderly(d, site, record, stage)
  {
    ReadyIsDistinct(d, site, record);
    assert OrderlyAt(d, site, record, stage, 0);
  }

  /** Each capture, and each of the two syncs after it, is orderly and reaches the next stage. */
  lemma MoveReaches(d: Disk, site: Site, record: Record, stage: Stage, moved: nat, uid: int, time: int)
    requires Ready(d, site, record) && moved <= 1 && Reached(d, site, record, stage, moved, uid)
    ensures var part := PartAt(moved);
            var out := Moved(stage, site, record, part, time);
            && SourceName(record, part) in Last(stage.rootViews)
            && Last(stage.rootViews)[SourceName(record, part)] == NodeOf(site, part)
            && CapturedName(part) !in Last(stage.quarantineViews)
            && Reached(d, site, record, RootSynced(QuarantineSynced(out)), moved + 1, uid)
            && NodesStand(d, site, record, out, moved + 1, uid)
            && Last(out.rootViews) == RootAfter(d, site, record, moved + 1)
            && Last(out.quarantineViews) == HeldAfter(site, moved + 1)
  {
    ReadyIsDistinct(d, site, record);
  }

  lemma MoveIsOrderly(d: Disk, site: Site, record: Record, stage: Stage, moved: nat, uid: int, time: int)
    requires Ready(d, site, record) && moved <= 1 && Reached(d, site, record, stage, moved, uid)
    ensures var out := Moved(stage, site, record, PartAt(moved), time);
            && Orderly(d, site, record, out)
            && Orderly(d, site, record, QuarantineSynced(out))
            && Orderly(d, site, record, RootSynced(QuarantineSynced(out)))
  {
    ReadyIsDistinct(d, site, record);
    MoveReaches(d, site, record, stage, moved, uid, time);
    var out := Moved(stage, site, record, PartAt(moved), time);
    assert OrderlyAt(d, site, record, out, moved + 1);
    assert OrderlyAt(d, site, record, QuarantineSynced(out), moved + 1);
    assert OrderlyAt(d, site, record, RootSynced(QuarantineSynced(out)), moved + 1);
  }

  /** Once both files are out, reclaiming them is orderly. */
  lemma ReclaimIsOrderly(d: Disk, site: Site, record: Record, stage: Stage)
    requires Ready(d, site, record)
    requires stage.rootViews == [RootWithoutPair(d, site, record)] && stage.quarantineViews == [HeldAfter(site, 2)]
    requires IsTouched(d.nodes[site.root], stage.rootNode) && stage.quarantineNode.kind == Directory
    requires site.manifest in d.nodes && IsKept(d.nodes[site.manifest], stage.manifestNode)
    requires site.artifact in d.nodes && IsKept(d.nodes[site.artifact], stage.artifactNode)
    ensures Orderly(d, site, record, stage)
  {
    assert OrderlyAt(d, site, record, stage, 2);
  }
}
