/**
 A prune that is stopped anywhere, by a failing call, a refused checkpoint or a crash: how far it can be, and which
 names a crash can lose, when every directory may come back as any of its views.
 */
module RetentionSurvival {
  import opened Outcomes
  import opened Filesystem
  import opened IdentityRecord
  import opened RetentionProtocol
  import opened RetentionTrace
  import opened RetentionStages
  import opened RetentionCrash
  import opened RetentionSpec

  // ---------- How far a prune can be ----------

  /** The disk is at a stage of record `k`, with the records before it done in these quarantines. */
  ghost predicate IsStageOf(d0: Disk, s: Disk, root: NodeId, listed: seq<Record>, k: nat,
                            d: Disk, homes: seq<Home>, site: Site, stage: Stage) {
    && k < |listed| && Pruned(d0, d, root, listed, k, homes)
    && ListsPair(d0, root, listed[k]) && IsSiteOf(d0, d, root, listed[k], site)
    && Ready(d, site, listed[k]) && Orderly(d, site, listed[k], stage) && s == At(d, site, stage)
  }

  /** So many records are done, and the next one may be at one of its stages. */
  ghost predicate IsMidway(d0: Disk, s: Disk, root: NodeId, listed: seq<Record>, k: nat) {
    || (exists homes :: Pruned(d0, s, root, listed, k, homes))
    || (exists d, homes, site, stage :: IsStageOf(d0, s, root, listed, k, d, homes, site, stage))
  }

  ghost predicate IsUnderWay(d0: Disk, s: Disk, root: NodeId, listed: seq<Record>) {
    exists k: nat :: IsMidway(d0, s, root, listed, k)
  }

  /** Wherever a prune of published pairs is, a crash is safe. */
  lemma MidwayIsCrashSafe(d0: Disk, s: Disk, root: NodeId, listed: seq<Record>, k: nat)
    requires Eligible(d0, root, listed) && Published(d0, root, listed) && IsMidway(d0, s, root, listed, k)
    ensures CrashSafe(d0, s, root, listed)
  {
    if homes :| Pruned(d0, s, root, listed, k, homes) {
      PrunedIsCrashSafe(d0, s, root, listed, k, homes);
    } else {
      var d, homes, site, stage :| IsStageOf(d0, s, root, listed, k, d, homes, site, stage);
      NextStands(d0, d, root, listed, k, homes, site);
      OrderlyIsCareful(d, site, listed[k], stage);
      StageIsCrashSafe(d0, d, site, listed[k], listed, stage);
    }
  }

  /** Wherever a prune is, there are no more quarantines than allowed. */
  lemma MidwayWithinBudget(d0: Disk, s: Disk, root: NodeId, listed: seq<Record>, k: nat)
    requires Eligible(d0, root, listed) && IsMidway(d0, s, root, listed, k)
    ensures |Quarantines(Live(s, root))| <= MAX_TOMBSTONES
  {
    if homes :| Pruned(d0, s, root, listed, k, homes) {
      QuarantineCount(d0, s, root, listed, k, homes);
    } else {
      var d, homes, site, stage :| IsStageOf(d0, s, root, listed, k, d, homes, site, stage);
      QuarantineCount(d0, d, root, listed, k, homes);
      OrderlyIsCareful(d, site, listed[k], stage);
      StageWithinBudget(d, site, listed[k], stage);
    }
  }

  /** How many pairs a prune that is so far may have touched. */
  function Touching(listed: seq<Record>, k: nat): (n: nat)
    ensures n <= |listed|
  {
    if k < |listed| then k + 1 else |listed|
  }

  /** Every other name is still in the root, for the same inode. */
  predicate NamesKept(d0: Disk, s: Disk, root: NodeId, gone: set<Name>) {
    forall name :: name in Live(d0, root) && name !in gone ==> Names(s, root, name, Live(d0, root)[name])
  }

  /** The touched inodes are kept or emptied, every other one but the root is as it was. */
  predicate NodesKept(d0: Disk, s: Disk, root: NodeId, touched: set<NodeId>) {
    forall node :: node in d0.nodes && node != root ==>
      && node in s.nodes
      && if node in touched then IsKept(d0.nodes[node], s.nodes[node]) else s.nodes[node] == d0.nodes[node]
  }

  predicate DirectoriesKept(d0: Disk, s: Disk, root: NodeId) {
    forall dir :: dir in d0.dirs && dir != root ==> dir in s.dirs && s.dirs[dir] == d0.dirs[dir]
  }

  predicate RestKept(d0: Disk, s: Disk, root: NodeId, gone: set<Name>, touched: set<NodeId>) {
    NamesKept(d0, s, root, gone) && NodesKept(d0, s, root, touched) && DirectoriesKept(d0, s, root)
  }

  /** Wherever a prune stops, it has touched nothing but the root, the done pairs and the pair under way. */
  lemma MidwayKeepsTheRest(d0: Disk, s: Disk, root: NodeId, listed: seq<Record>, k: nat)
    requires Eligible(d0, root, listed) && IsMidway(d0, s, root, listed, k)
    ensures var n := Touching(listed, k);
      RestKept(d0, s, root, PairNames(listed, n), PairNodes(Live(d0, root), listed, n))
  {
    if homes :| Pruned(d0, s, root, listed, k, homes) {
      PrunedKeeps(d0, s, root, listed, k, homes);
    } else {
      var d, homes, site, stage :| IsStageOf(d0, s, root, listed, k, d, homes, site, stage);
      PrunedKeeps(d0, d, root, listed, k, homes);
      HalfStillThere(d0, d, root, listed, k, homes, Manifest);
      HalfStillThere(d0, d, root, listed, k, homes, Artifact);
      StageKeepsRest(d0, d, site, listed[k], stage, PairNames(listed, k), PairNodes(Live(d0, root), listed, k));
      OneMorePair(d0, s, root, listed, k);
    }
  }

  lemma OneMorePair(d0: Disk, s: Disk, root: NodeId, listed: seq<Record>, k: nat)
    requires k < |listed| && ListsPair(d0, root, listed[k])
    requires RestKept(d0, s, root, PairNames(listed, k) + {ManifestName(listed[k].name), listed[k].name},
                      PairNodes(Live(d0, root), listed, k)
                        + {NodeFor(d0, root, listed[k], Manifest), NodeFor(d0, root, listed[k], Artifact)})
    ensures RestKept(d0, s, root, PairNames(listed, k + 1), PairNodes(Live(d0, root), listed, k + 1))
  {
    PairNodesGrow(d0, root, listed, k);
  }

  lemma PrunedKeeps(d0: Disk, d: Disk, root: NodeId, listed: seq<Record>, k: nat, homes: seq<Home>)
    requires Pruned(d0, d, root, listed, k, homes)
    ensures RestKept(d0, d, root, PairNames(listed, k), PairNodes(Live(d0, root), listed, k))
    ensures var n := Touching(listed, k);
      RestKept(d0, d, root, PairNames(listed, n), PairNodes(Live(d0, root), listed, n))
  {
    forall name | name in Live(d0, root)
      ensures name !in Entries(homes)
    {
      if name in Entries(homes) {
        EntryOrigin(homes, name);
      }
    }
  }

  lemma StageKeepsRest(d0: Disk, d: Disk, site: Site, record: Record, stage: Stage, gone: set<Name>,
                       touched: set<NodeId>)
    requires Ready(d, site, record) && Orderly(d, site, record, stage) && site.manifest in d0.nodes
      && site.artifact in d0.nodes
    requires d.nodes[site.manifest] == d0.nodes[site.manifest] && d.nodes[site.artifact] == d0.nodes[site.artifact]
    requires RestKept(d0, d, site.root, gone, touched)
    ensures RestKept(d0, At(d, site, stage), site.root,
                     gone + {ManifestName(record.name), record.name}, touched + {site.manifest, site.artifact})
  {
    ReadyIsDistinct(d, site, record);
    var moved: nat :| OrderlyAt(d, site, record, stage, moved);
    StageLookups(d, site, record, stage);
  }

  // ---------- What a crash can lose ----------

  predicate Shows(view: View, node: NodeId) {
    exists name :: name in view && view[name] == node
  }

  /** A crash brings every directory back as one of its views, each by itself. */
  ghost predicate IsCrashOf(s: Disk, shown: map<NodeId, View>) {
    forall dir :: IsDir(s, dir) ==> dir in shown && shown[dir] in s.dirs[dir]
  }

  /** The root names the inode, or a directory that the prune made and the root names does. */
  ghost predicate IsFound(d0: Disk, shown: map<NodeId, View>, root: NodeId, node: NodeId) {
    && root in shown
    && (|| Shows(shown[root], node)
        || exists dir :: dir in shown && dir !in d0.dirs && Shows(shown[root], dir) && Shows(shown[dir], node))
  }

  ghost predicate SurvivesAnyCrash(d0: Disk, s: Disk, root: NodeId, node: NodeId) {
    forall shown :: IsCrashOf(s, shown) ==> IsFound(d0, shown, root, node)
  }

  /** The inode was moved into a quarantine that was not synced since. */
  ghost predicate InTransit(d0: Disk, s: Disk, node: NodeId) {
    exists dir :: dir !in d0.dirs && IsDir(s, dir) && Shows(Live(s, dir), node) && !AlwaysShows(s.dirs[dir], node)
  }

  predicate AlwaysShows(views: seq<View>, node: NodeId) {
    forall view :: view in views ==> Shows(view, node)
  }

  /** Every view of the root that may be on disk lists both halves of every pair. */
  predicate Settled(d: Disk, root: NodeId, listed: seq<Record>)
    requires IsDir(d, root)
  {
    forall view, i, part ::
      view in d.dirs[root] && 0 <= i < |listed| && SourceName(listed[i], part) in Live(d, root) ==>
        && SourceName(listed[i], part) in view
        && view[SourceName(listed[i], part)] == Live(d, root)[SourceName(listed[i], part)]
  }

  /** The directories that the prune has made: the quarantines of done records, and the one under way. */
  lemma NewDirectories(d0: Disk, d: Disk, root: NodeId, listed: seq<Record>, k: nat, homes: seq<Home>, dir: NodeId)
    requires Pruned(d0, d, root, listed, k, homes) && dir in d.dirs && dir !in d0.dirs
    ensures exists j :: 0 <= j < k && IsHomeOf(d0, d, root, listed[j], dir)
  {
    var home :| home in homes && home.dir == dir;
    var j :| 0 <= j < |homes| && homes[j] == home;
    assert IsHomeOf(d0, d, root, listed[j], homes[j].dir);
  }

  /** Two files of pairs are two inodes. */
  lemma PairNodesDiffer(d0: Disk, root: NodeId, listed: seq<Record>, i: nat, p: Part, j: nat, q: Part)
    requires Eligible(d0, root, listed) && i < |listed| && j < |listed| && (i != j || p != q)
    ensures ListsPair(d0, root, listed[i]) && ListsPair(d0, root, listed[j])
    ensures NodeFor(d0, root, listed[i], p) != NodeFor(d0, root, listed[j], q)
  {
    PairIsLinked(d0, root, listed, i, p);
    PairIsLinked(d0, root, listed, j, q);
    if SourceName(listed[i], p) == SourceName(listed[j], q) {
      SameSource(listed, i, p, j, q);
    }
  }

  lemma HomeShows(d0: Disk, d: Disk, root: NodeId, listed: seq<Record>, j: nat, dir: NodeId, node: NodeId)
    requires j < |listed| && IsHomeOf(d0, d, root, listed[j], dir)
    ensures IsDir(d, dir) && d.dirs[dir] == [Live(d, dir)]
    ensures Shows(Live(d, dir), node) <==>
      node == NodeFor(d0, root, listed[j], Manifest) || node == NodeFor(d0, root, listed[j], Artifact)
  {
    var view := Live(d, dir);
    assert "manifest" in view && "artifact" in view;
  }

  // ---------- Names that stand ----------

  /** Every view of the root names the inode, or a quarantine every view of which names it. */
  ghost predicate IsPlaced(d0: Disk, s: Disk, root: NodeId, node: NodeId) {
    && IsDir(s, root)
    && forall view :: view in s.dirs[root] ==> IsPlacedIn(d0, s, view, node)
  }

  ghost predicate IsPlacedIn(d0: Disk, s: Disk, view: View, node: NodeId) {
    || Shows(view, node)
    || exists dir :: dir !in d0.dirs && IsDir(s, dir) && Shows(view, dir) && AlwaysShows(s.dirs[dir], node)
  }

  lemma PlacedSurvives(d0: Disk, s: Disk, root: NodeId, node: NodeId)
    requires IsPlaced(d0, s, root, node)
    ensures SurvivesAnyCrash(d0, s, root, node)
  {
    forall shown | IsCrashOf(s, shown)
      ensures IsFound(d0, shown, root, node)
    {
      var view := shown[root];
      assert IsPlacedIn(d0, s, view, node);
      if !Shows(view, node) {
        var dir :| dir !in d0.dirs && IsDir(s, dir) && Shows(view, dir) && AlwaysShows(s.dirs[dir], node);
        assert shown[dir] in s.dirs[dir];
      }
    }
  }

  /** Every view has the name for the inode. */
  predicate NamedIn(views: seq<View>, name: Name, node: NodeId) {
    forall view :: view in views ==> name in view && view[name] == node
  }

  /** A new directory has one view, and names no inode but of done pairs. */
  predicate NewAreSynced(d0: Disk, d: Disk) {
    forall dir :: dir in d.dirs && dir !in d0.dirs ==> |d.dirs[dir]| == 1
  }

  predicate NewLack(d0: Disk, d: Disk, node: NodeId) {
    forall dir :: dir in d.dirs && dir !in d0.dirs ==> !Shows(Live(d, dir), node)
  }

  lemma PrunedIsSynced(d0: Disk, d: Disk, root: NodeId, listed: seq<Record>, k: nat, homes: seq<Home>)
    requires Pruned(d0, d, root, listed, k, homes)
    ensures NewAreSynced(d0, d)
  {
    forall dir | dir in d.dirs && dir !in d0.dirs
      ensures |d.dirs[dir]| == 1
    {
      NewDirectories(d0, d, root, listed, k, homes, dir);
    }
  }

  lemma PendingIsOutside(d0: Disk, d: Disk, root: NodeId, listed: seq<Record>, k: nat, homes: seq<Home>, i: nat,
                         part: Part)
    requires Eligible(d0, root, listed) && Pruned(d0, d, root, listed, k, homes) && k <= i < |listed|
    ensures ListsPair(d0, root, listed[i]) && NewLack(d0, d, NodeFor(d0, root, listed[i], part))
  {
    PairIsLinked(d0, root, listed, i, part);
    var node := NodeFor(d0, root, listed[i], part);
    forall dir | dir in d.dirs && dir !in d0.dirs
      ensures !Shows(Live(d, dir), node)
    {
      NewDirectories(d0, d, root, listed, k, homes, dir);
      var j :| 0 <= j < k && IsHomeOf(d0, d, root, listed[j], dir);
      HomeShows(d0, d, root, listed, j, dir, node);
      PairNodesDiffer(d0, root, listed, j, Manifest, i, part);
      PairNodesDiffer(d0, root, listed, j, Artifact, i, part);
    }
  }

  lemma SyncedIsNotInTransit(d0: Disk, d: Disk, node: NodeId)
    requires NewAreSynced(d0, d)
    ensures !InTransit(d0, d, node)
  {
    forall dir | dir !in d0.dirs && IsDir(d, dir) && Shows(Live(d, dir), node)
      ensures AlwaysShows(d.dirs[dir], node)
    {
      assert d.dirs[dir] == [Live(d, dir)];
    }
  }

  /** The quarantine of a done pair: its name is in every view of the root, and it holds the files. */
  lemma DoneIsInQuarantine(d0: Disk, d: Disk, root: NodeId, listed: seq<Record>, k: nat, homes: seq<Home>, i: nat,
                           part: Part)
    requires Pruned(d0, d, root, listed, k, homes) && i < k && ListsPair(d0, root, listed[i])
    ensures NamedIn(d.dirs[root], homes[i].name, homes[i].dir)
    ensures homes[i].dir !in d0.dirs && IsDir(d, homes[i].dir) && homes[i].dir != root
    ensures AlwaysShows(d.dirs[homes[i].dir], NodeFor(d0, root, listed[i], part))
  {
    EntryNames(homes, i);
    assert IsHomeOf(d0, d, root, listed[i], homes[i].dir);
    HomeShows(d0, d, root, listed, i, homes[i].dir, NodeFor(d0, root, listed[i], part));
  }

  /** A pair to come has its names in every view of the root. */
  lemma SourceStays(d0: Disk, d: Disk, root: NodeId, listed: seq<Record>, k: nat, homes: seq<Home>, i: nat, part: Part)
    requires IsDir(d0, root) && WellNamed(listed) && Settled(d0, root, listed)
    requires k == |homes| <= i < |listed| && FreshHomes(d0, root, homes) && (k == 0 ==> d == d0)
    requires RootPruned(d0, d, root, listed, k, homes) && ListsPair(d0, root, listed[i])
    ensures NamedIn(d.dirs[root], SourceName(listed[i], part), NodeFor(d0, root, listed[i], part))
  {
    NameStands(listed, k, homes, i, part);
    if k == 0 {
      assert SourceName(listed[i], part) in Live(d0, root);
    }
  }

  lemma NameIsPlaced(d0: Disk, s: Disk, root: NodeId, name: Name, node: NodeId)
    requires IsDir(s, root) && NamedIn(s.dirs[root], name, node)
    ensures IsPlaced(d0, s, root, node)
  {
    forall view | view in s.dirs[root]
      ensures IsPlacedIn(d0, s, view, node)
    {
      assert name in view && view[name] == node;
    }
  }

  lemma HomeIsPlaced(d0: Disk, s: Disk, root: NodeId, name: Name, dir: NodeId, node: NodeId)
    requires IsDir(s, root) && NamedIn(s.dirs[root], name, dir)
    requires dir !in d0.dirs && IsDir(s, dir) && AlwaysShows(s.dirs[dir], node)
    ensures IsPlaced(d0, s, root, node)
  {
    forall view | view in s.dirs[root]
      ensures IsPlacedIn(d0, s, view, node)
    {
      assert name in view && view[name] == dir;
    }
  }

  /** Between records every file of a pair is where no crash can lose it. */
  lemma PrunedIsPlaced(d0: Disk, d: Disk, root: NodeId, listed: seq<Record>, k: nat, homes: seq<Home>, i: nat,
                       part: Part)
    requires Eligible(d0, root, listed) && Settled(d0, root, listed)
    requires Pruned(d0, d, root, listed, k, homes) && i < |listed|
    ensures ListsPair(d0, root, listed[i]) && IsPlaced(d0, d, root, NodeFor(d0, root, listed[i], part))
  {
    PairIsLinked(d0, root, listed, i, part);
    var node := NodeFor(d0, root, listed[i], part);
    if i < k {
      DoneIsInQuarantine(d0, d, root, listed, k, homes, i, part);
      HomeIsPlaced(d0, d, root, homes[i].name, homes[i].dir, node);
    } else {
      SourceStays(d0, d, root, listed, k, homes, i, part);
      NameIsPlaced(d0, d, root, SourceName(listed[i], part), node);
    }
  }

  // ---------- A record under way ----------

  /** A name apart from the pair's is in every view of a stage, if it is in every view before it. */
  lemma StageKeepsName(d: Disk, site: Site, record: Record, stage: Stage, name: Name, node: NodeId)
    requires Ready(d, site, record) && Orderly(d, site, record, stage)
    requires name != record.name && name != ManifestName(record.name) && name != site.name
    requires NamedIn(d.dirs[site.root], name, node)
    ensures NamedIn(stage.rootViews, name, node)
  {
    OrderlyIsCareful(d, site, record, stage);
    assert Live(d, site.root) in d.dirs[site.root];
    forall view | view in stage.rootViews
      ensures name in view && view[name] == node
    {
      assert IsStageView(d, site, record, view);
    }
  }

  lemma StageDirectories(d: Disk, site: Site, record: Record, stage: Stage)
    requires Ready(d, site, record)
    ensures At(d, site, stage).dirs[site.root] == stage.rootViews
    ensures At(d, site, stage).dirs[site.quarantine] == stage.quarantineViews
    ensures At(d, site, stage).dirs.Keys == d.dirs.Keys + {site.quarantine}
    ensures forall dir :: dir in d.dirs && dir != site.root ==> At(d, site, stage).dirs[dir] == d.dirs[dir]
  {
  }

  /** While a record is under way, the files of the other pairs stay where they are. */
  lemma OthersArePlaced(d0: Disk, d: Disk, root: NodeId, listed: seq<Record>, k: nat, homes: seq<Home>, site: Site,
                        stage: Stage, i: nat, part: Part)
    requires Eligible(d0, root, listed) && Settled(d0, root, listed)
    requires Pruned(d0, d, root, listed, k, homes) && k < |listed| && i < |listed| && i != k && site.root == root
    requires Ready(d, site, listed[k]) && Orderly(d, site, listed[k], stage)
    ensures ListsPair(d0, root, listed[i]) && IsPlaced(d0, At(d, site, stage), root, NodeFor(d0, root, listed[i], part))
  {
    StageDirectories(d, site, listed[k], stage);
    PairIsLinked(d0, root, listed, i, part);
    NamesApart(listed, k, homes, i, part);
    var node := NodeFor(d0, root, listed[i], part);
    if i < k {
      DoneIsInQuarantine(d0, d, root, listed, k, homes, i, part);
      assert Live(d, root) in d.dirs[root];
      OtherHomeIsPlaced(d0, d, site, listed[k], stage, homes[i].name, homes[i].dir, node);
    } else {
      SourceStays(d0, d, root, listed, k, homes, i, part);
      SourceIsNoQuarantine(listed, i, part, site.name);
      OtherNameIsPlaced(d0, d, site, listed[k], stage, SourceName(listed[i], part), node);
    }
  }

  lemma OtherHomeIsPlaced(d0: Disk, d: Disk, site: Site, record: Record, stage: Stage, name: Name, dir: NodeId,
                          node: NodeId)
    requires Ready(d, site, record) && Orderly(d, site, record, stage)
    requires name != record.name && name != ManifestName(record.name) && NamedIn(d.dirs[site.root], name, dir)
    requires dir !in d0.dirs && IsDir(d, dir) && dir != site.root && AlwaysShows(d.dirs[dir], node)
    ensures IsPlaced(d0, At(d, site, stage), site.root, node)
  {
    assert Live(d, site.root) in d.dirs[site.root];
    StageKeepsName(d, site, record, stage, name, dir);
    StageDirectories(d, site, record, stage);
    HomeIsPlaced(d0, At(d, site, stage), site.root, name, dir, node);
  }

  lemma OtherNameIsPlaced(d0: Disk, d: Disk, site: Site, record: Record, stage: Stage, name: Name, node: NodeId)
    requires Ready(d, site, record) && Orderly(d, site, record, stage)
    requires name != record.name && name != ManifestName(record.name) && name != site.name
    requires NamedIn(d.dirs[site.root], name, node)
    ensures IsPlaced(d0, At(d, site, stage), site.root, node)
  {
    StageKeepsName(d, site, record, stage, name, node);
    StageDirectories(d, site, record, stage);
    NameIsPlaced(d0, At(d, site, stage), site.root, name, node);
  }

  lemma SourceIsNoQuarantine(listed: seq<Record>, i: nat, part: Part, name: Name)
    requires WellNamed(listed) && i < |listed| && IsQuarantineName(name)
    ensures SourceName(listed[i], part) != name
  {
    NotQuarantine(listed[i].name);
  }

  function IndexOf(part: Part): nat {
    if part.Manifest? then 0 else 1
  }

  lemma HeldShows(site: Site, moved: nat, part: Part)
    requires site.manifest != site.artifact && moved <= 2
    ensures Shows(HeldAfter(site, moved), NodeOf(site, part)) <==> IndexOf(part) < moved
    ensures forall node :: Shows(HeldAfter(site, moved), node) ==> node == site.manifest || node == site.artifact
  {
    if IndexOf(part) < moved {
      assert CapturedName(part) in HeldAfter(site, moved);
    }
  }

  /** Half of the pair under way keeps its name until it moves, and has its quarantine once that is synced. */
  lemma HalfIsPlaced(d0: Disk, d: Disk, site: Site, record: Record, stage: Stage, moved: nat, part: Part)
    requires Ready(d, site, record) && OrderlyAt(d, site, record, stage, moved) && site.quarantine !in d0.dirs
    requires NamedIn(d.dirs[site.root], SourceName(record, part), NodeOf(site, part))
    requires IndexOf(part) < moved ==> AlwaysShows(stage.quarantineViews, NodeOf(site, part))
    ensures IsPlaced(d0, At(d, site, stage), site.root, NodeOf(site, part))
  {
    ReadyIsDistinct(d, site, record);
    StageDirectories(d, site, record, stage);
    if moved <= IndexOf(part) {
      SourceBeforeMove(d, site, record, stage, moved, part);
      NameIsPlaced(d0, At(d, site, stage), site.root, SourceName(record, part), NodeOf(site, part));
    } else {
      QuarantineIsNamed(d, site, record, stage, moved);
      HomeIsPlaced(d0, At(d, site, stage), site.root, site.name, site.quarantine, NodeOf(site, part));
    }
  }

  lemma SourceBeforeMove(d: Disk, site: Site, record: Record, stage: Stage, moved: nat, part: Part)
    requires Ready(d, site, record) && OrderlyAt(d, site, record, stage, moved) && moved <= IndexOf(part)
    requires NamedIn(d.dirs[site.root], SourceName(record, part), NodeOf(site, part))
    ensures NamedIn(stage.rootViews, SourceName(record, part), NodeOf(site, part))
  {
    ReadyIsDistinct(d, site, record);
    assert Live(d, site.root) in d.dirs[site.root];
  }

  lemma QuarantineIsNamed(d: Disk, site: Site, record: Record, stage: Stage, moved: nat)
    requires Ready(d, site, record) && OrderlyAt(d, site, record, stage, moved) && moved > 0
    ensures NamedIn(stage.rootViews, site.name, site.quarantine)
  {
    ReadyIsDistinct(d, site, record);
  }

  lemma NewIsNew(d0: Disk, d: Disk, root: NodeId, listed: seq<Record>, k: nat, homes: seq<Home>, dir: NodeId)
    requires Pruned(d0, d, root, listed, k, homes) && dir !in d.dirs
    ensures dir !in d0.dirs && root in d0.dirs
  {
  }

  /** Which inodes are in transit at a stage: the one that moved last, until the quarantine is synced. */
  lemma TransitMeans(d0: Disk, d: Disk, site: Site, record: Record, stage: Stage, node: NodeId)
    requires Ready(d, site, record) && NewAreSynced(d0, d) && site.root in d0.dirs && site.quarantine !in d0.dirs
    requires stage.quarantineViews != []
    ensures InTransit(d0, At(d, site, stage), node)
       <==> Shows(Last(stage.quarantineViews), node) && !AlwaysShows(stage.quarantineViews, node)
  {
    var s := At(d, site, stage);
    StageDirectories(d, site, record, stage);
    forall dir | dir !in d0.dirs && IsDir(s, dir) && dir != site.quarantine && Shows(Live(s, dir), node)
      ensures AlwaysShows(s.dirs[dir], node)
    {
      assert s.dirs[dir] == d.dirs[dir] == [Live(s, dir)];
    }
  }

  /** The crash that brings the root back as it is and the quarantine as it was before the last file came in. */
  function LateCrash(s: Disk, quarantine: NodeId, view: View): map<NodeId, View> {
    (map dir | dir in s.dirs :: Live(s, dir))[quarantine := view]
  }

  /** In transit, an inode has no name after that crash. */
  lemma TransitIsLost(d0: Disk, d: Disk, site: Site, record: Record, stage: Stage, node: NodeId)
    requires Ready(d, site, record) && NewLack(d0, d, node) && site.root in d0.dirs
    requires stage.rootViews != [] && !Shows(Last(stage.rootViews), node) && !AlwaysShows(stage.quarantineViews, node)
    ensures !SurvivesAnyCrash(d0, At(d, site, stage), site.root, node)
  {
    var s := At(d, site, stage);
    StageDirectories(d, site, record, stage);
    var view :| view in stage.quarantineViews && !Shows(view, node);
    var shown := LateCrash(s, site.quarantine, view);
    assert IsCrashOf(s, shown);
    forall dir | dir in shown && dir !in d0.dirs
      ensures !Shows(shown[dir], node)
    {
      if dir != site.quarantine {
        assert shown[dir] == Live(d, dir);
      }
    }
    assert !IsFound(d0, shown, site.root, node);
  }

  lemma RootLacks(d: Disk, site: Site, record: Record, moved: nat, part: Part)
    requires Ready(d, site, record) && IndexOf(part) < moved <= 2
    ensures !Shows(RootAfter(d, site, record, moved), NodeOf(site, part))
  {
    ReadyIsDistinct(d, site, record);
    var view := RootAfter(d, site, record, moved);
    forall name | name in view
      ensures view[name] != NodeOf(site, part)
    {
      assert SoleName(d, site.root, SourceName(record, part));
    }
  }

  // ---------- The window ----------

  /** A crash loses no file of a pair except one in transit, and loses that one; at most one file is in transit. */
  ghost predicate LosesOnlyInTransit(d0: Disk, s: Disk, root: NodeId, listed: seq<Record>) {
    && (forall i, part :: 0 <= i < |listed| && ListsPair(d0, root, listed[i]) ==>
          (SurvivesAnyCrash(d0, s, root, NodeFor(d0, root, listed[i], part))
           <==> !InTransit(d0, s, NodeFor(d0, root, listed[i], part))))
    && (forall a, b :: InTransit(d0, s, a) && InTransit(d0, s, b) ==> a == b)
  }

  /** So it is wherever a prune of settled pairs is. */
  lemma UnderWayLosesLittle(d0: Disk, s: Disk, root: NodeId, listed: seq<Record>)
    requires Eligible(d0, root, listed) && Settled(d0, root, listed) && IsUnderWay(d0, s, root, listed)
    ensures LosesOnlyInTransit(d0, s, root, listed)
  {
    var k: nat :| IsMidway(d0, s, root, listed, k);
    forall i, part | 0 <= i < |listed| && ListsPair(d0, root, listed[i])
      ensures SurvivesAnyCrash(d0, s, root, NodeFor(d0, root, listed[i], part))
         <==> !InTransit(d0, s, NodeFor(d0, root, listed[i], part))
    {
      MidwaySurvives(d0, s, root, listed, k, i, part);
    }
    forall a, b | InTransit(d0, s, a) && InTransit(d0, s, b)
      ensures a == b
    {
      OneInTransit(d0, s, root, listed, k, a, b);
    }
  }

  /** Half of a listed pair survives every crash except exactly while it is in transit. */
  lemma MidwaySurvives(d0: Disk, s: Disk, root: NodeId, listed: seq<Record>, k: nat, i: nat, part: Part)
    requires Eligible(d0, root, listed) && Settled(d0, root, listed) && IsMidway(d0, s, root, listed, k) && i < |listed|
    ensures ListsPair(d0, root, listed[i])
    ensures var node := NodeFor(d0, root, listed[i], part);
      SurvivesAnyCrash(d0, s, root, node) <==> !InTransit(d0, s, node)
  {
    PairIsLinked(d0, root, listed, i, part);
    if homes :| Pruned(d0, s, root, listed, k, homes) {
      DoneSurvives(d0, s, root, listed, k, homes, i, part);
    } else {
      var d, homes, site, stage :| IsStageOf(d0, s, root, listed, k, d, homes, site, stage);
      if i == k {
        HalfSurvives(d0, d, root, listed, k, homes, site, stage, part);
      } else {
        OtherSurvives(d0, d, root, listed, k, homes, site, stage, i, part);
      }
    }
  }

  lemma DoneSurvives(d0: Disk, d: Disk, root: NodeId, listed: seq<Record>, k: nat, homes: seq<Home>, i: nat, part: Part)
    requires Eligible(d0, root, listed) && Settled(d0, root, listed)
    requires Pruned(d0, d, root, listed, k, homes) && i < |listed|
    ensures ListsPair(d0, root, listed[i])
    ensures var node := NodeFor(d0, root, listed[i], part);
      SurvivesAnyCrash(d0, d, root, node) && !InTransit(d0, d, node)
  {
    PrunedIsPlaced(d0, d, root, listed, k, homes, i, part);
    var node := NodeFor(d0, root, listed[i], part);
    PlacedSurvives(d0, d, root, node);
    PrunedIsSynced(d0, d, root, listed, k, homes);
    SyncedIsNotInTransit(d0, d, node);
  }

  lemma OtherSurvives(d0: Disk, d: Disk, root: NodeId, listed: seq<Record>, k: nat, homes: seq<Home>, site: Site,
                      stage: Stage, i: nat, part: Part)
    requires Eligible(d0, root, listed) && Settled(d0, root, listed)
    requires IsStageOf(d0, At(d, site, stage), root, listed, k, d, homes, site, stage) && i < |listed| && i != k
    ensures ListsPair(d0, root, listed[i])
    ensures var node := NodeFor(d0, root, listed[i], part);
      SurvivesAnyCrash(d0, At(d, site, stage), root, node) && !InTransit(d0, At(d, site, stage), node)
  {
    OthersArePlaced(d0, d, root, listed, k, homes, site, stage, i, part);
    var node := NodeFor(d0, root, listed[i], part);
    PlacedSurvives(d0, At(d, site, stage), root, node);
    PrunedIsSynced(d0, d, root, listed, k, homes);
    NewIsNew(d0, d, root, listed, k, homes, site.quarantine);
    PairNodesDiffer(d0, root, listed, i, part, k, Manifest);
    PairNodesDiffer(d0, root, listed, i, part, k, Artifact);
    OnlyThePairMoves(d0, d, site, listed[k], stage, node);
  }

  lemma OnlyThePairMoves(d0: Disk, d: Disk, site: Site, record: Record, stage: Stage, node: NodeId)
    requires Ready(d, site, record) && Orderly(d, site, record, stage)
    requires NewAreSynced(d0, d) && site.root in d0.dirs && site.quarantine !in d0.dirs
    requires node != site.manifest && node != site.artifact
    ensures !InTransit(d0, At(d, site, stage), node)
  {
    ReadyIsDistinct(d, site, record);
    var moved: nat :| OrderlyAt(d, site, record, stage, moved);
    TransitMeans(d0, d, site, record, stage, node);
    HeldShows(site, moved, Manifest);
  }

  lemma HalfSurvives(d0: Disk, d: Disk, root: NodeId, listed: seq<Record>, k: nat, homes: seq<Home>, site: Site,
                     stage: Stage, part: Part)
    requires Eligible(d0, root, listed) && Settled(d0, root, listed)
    requires IsStageOf(d0, At(d, site, stage), root, listed, k, d, homes, site, stage)
    ensures var node := NodeFor(d0, root, listed[k], part);
      SurvivesAnyCrash(d0, At(d, site, stage), root, node) <==> !InTransit(d0, At(d, site, stage), node)
  {
    SourceStays(d0, d, root, listed, k, homes, k, part);
    PendingIsOutside(d0, d, root, listed, k, homes, k, part);
    PrunedIsSynced(d0, d, root, listed, k, homes);
    NewIsNew(d0, d, root, listed, k, homes, site.quarantine);
    StageDecides(d0, d, site, listed[k], stage, part);
  }

  /** At a stage, half of the pair survives exactly while it is not in transit. */
  lemma StageDecides(d0: Disk, d: Disk, site: Site, record: Record, stage: Stage, part: Part)
    requires Ready(d, site, record) && Orderly(d, site, record, stage)
    requires NewAreSynced(d0, d) && NewLack(d0, d, NodeOf(site, part)) && site.root in d0.dirs
      && site.quarantine !in d0.dirs
    requires NamedIn(d.dirs[site.root], SourceName(record, part), NodeOf(site, part))
    ensures SurvivesAnyCrash(d0, At(d, site, stage), site.root, NodeOf(site, part))
       <==> !InTransit(d0, At(d, site, stage), NodeOf(site, part))
  {
    ReadyIsDistinct(d, site, record);
    var moved: nat :| OrderlyAt(d, site, record, stage, moved);
    TransitMeans(d0, d, site, record, stage, NodeOf(site, part));
    HeldShows(site, moved, part);
    if IndexOf(part) < moved && !AlwaysShows(stage.quarantineViews, NodeOf(site, part)) {
      RootLacks(d, site, record, moved, part);
      TransitIsLost(d0, d, site, record, stage, NodeOf(site, part));
    } else {
      HalfIsPlaced(d0, d, site, record, stage, moved, part);
      PlacedSurvives(d0, At(d, site, stage), site.root, NodeOf(site, part));
    }
  }

  /** At most one file is in transit. */
  lemma OneInTransit(d0: Disk, s: Disk, root: NodeId, listed: seq<Record>, k: nat, a: NodeId, b: NodeId)
    requires IsMidway(d0, s, root, listed, k) && InTransit(d0, s, a) && InTransit(d0, s, b)
    ensures a == b
  {
    if homes :| Pruned(d0, s, root, listed, k, homes) {
      PrunedIsSynced(d0, s, root, listed, k, homes);
      SyncedIsNotInTransit(d0, s, a);
    } else {
      var d, homes, site, stage :| IsStageOf(d0, s, root, listed, k, d, homes, site, stage);
      PrunedIsSynced(d0, d, root, listed, k, homes);
      NewIsNew(d0, d, root, listed, k, homes, site.quarantine);
      TransitIsLast(d0, d, site, listed[k], stage, a, b);
    }
  }

  lemma TransitIsLast(d0: Disk, d: Disk, site: Site, record: Record, stage: Stage, a: NodeId, b: NodeId)
    requires Ready(d, site, record) && Orderly(d, site, record, stage)
    requires NewAreSynced(d0, d) && site.root in d0.dirs && site.quarantine !in d0.dirs
    requires InTransit(d0, At(d, site, stage), a) && InTransit(d0, At(d, site, stage), b)
    ensures a == b
  {
    ReadyIsDistinct(d, site, record);
    var moved: nat :| OrderlyAt(d, site, record, stage, moved);
    TransitMeans(d0, d, site, record, stage, a);
    TransitMeans(d0, d, site, record, stage, b);
    LastInMoved(site, stage, moved, a);
    LastInMoved(site, stage, moved, b);
  }

  /** The window: from the rename of a file to the next sync of the quarantine, and no longer. */
  lemma TransitWindow(d0: Disk, d: Disk, site: Site, record: Record, stage: Stage, moved: nat, uid: int, time: int,
                      node: NodeId)
    requires Ready(d, site, record) && moved <= 1 && Reached(d, site, record, stage, moved, uid)
    requires NewAreSynced(d0, d) && site.root in d0.dirs && site.quarantine !in d0.dirs
    ensures var out := Moved(stage, site, record, PartAt(moved), time);
      && !InTransit(d0, At(d, site, stage), node)
      && (InTransit(d0, At(d, site, out), node) <==> node == NodeOf(site, PartAt(moved)))
      && !InTransit(d0, At(d, site, QuarantineSynced(out)), node)
  {
    ReadyIsDistinct(d, site, record);
    MoveReaches(d, site, record, stage, moved, uid, time);
    var out := Moved(stage, site, record, PartAt(moved), time);
    TransitMeans(d0, d, site, record, stage, node);
    TransitMeans(d0, d, site, record, out, node);
    TransitMeans(d0, d, site, record, QuarantineSynced(out), node);
    HeldShows(site, moved, PartAt(moved));
    HeldShows(site, moved + 1, PartAt(moved));
    if Shows(Last(out.quarantineViews), node) && !AlwaysShows(out.quarantineViews, node) {
      LastInMoved(site, out, moved + 1, node);
    }
  }

  /** A file in transit has all its bytes. */
  lemma TransitKeepsBytes(d0: Disk, d: Disk, site: Site, record: Record, stage: Stage, part: Part)
    requires Ready(d, site, record) && Orderly(d, site, record, stage)
    requires NewAreSynced(d0, d) && site.root in d0.dirs && site.quarantine !in d0.dirs
    requires InTransit(d0, At(d, site, stage), NodeOf(site, part))
    ensures var node := NodeOf(site, part);
      node in d.nodes && At(d, site, stage).nodes[node].data == d.nodes[node].data
  {
    ReadyIsDistinct(d, site, record);
    var moved: nat :| OrderlyAt(d, site, record, stage, moved);
    TransitMeans(d0, d, site, record, stage, NodeOf(site, part));
    StageLookups(d, site, record, stage);
  }

  lemma LastInMoved(site: Site, stage: Stage, moved: nat, node: NodeId)
    requires site.manifest != site.artifact && moved <= 2
    requires || stage.quarantineViews == [HeldAfter(site, moved)]
             || (moved > 0 && stage.quarantineViews == [HeldAfter(site, moved - 1), HeldAfter(site, moved)])
    requires Shows(Last(stage.quarantineViews), node) && !AlwaysShows(stage.quarantineViews, node)
    ensures moved > 0 && node == NodeOf(site, PartAt(moved - 1))
  {
    HeldShows(site, moved, Manifest);
    HeldShows(site, moved, Artifact);
    if moved > 0 {
      HeldShows(site, moved - 1, Manifest);
      HeldShows(site, moved - 1, Artifact);
    }
  }
}
