/**
 The plain specification of an undisturbed prune: the listed pairs, and nothing else, leave the root
 and become zero-byte files in quarantines of their own.
 */
module RetentionSpec {
  import opened Outcomes
  import opened Filesystem
  import opened IdentityRecord
  import opened RetentionProtocol
  import opened RetentionTrace
  import opened RetentionStages
  import opened RetentionCrash

  // ---------- What the helper is given ----------

  predicate WellNamed(listed: seq<Record>) {
    && (forall i :: 0 <= i < |listed| ==> IsPlainName(listed[i].name))
    && (forall i, j :: 0 <= i < j < |listed| ==> listed[i].name != listed[j].name)
  }

  predicate IsSinglyLinked(d: Disk, node: NodeId) {
    node in d.nodes && d.nodes[node].kind == Regular && d.nodes[node].nlink == 1
  }

  /** A regular file whose link count is one has one name in the directory. */
  predicate LinksCounted(d: Disk, root: NodeId) {
    forall a, b :: a in Live(d, root) && b in Live(d, root) && Live(d, root)[a] == Live(d, root)[b] ==>
      a == b || !IsSinglyLinked(d, Live(d, root)[a])
  }

  /** The root on which a prune starts, once every preflight check has passed. */
  predicate Eligible(d: Disk, root: NodeId, listed: seq<Record>) {
    && IsDir(d, root) && root in d.nodes && d.nodes[root].kind == Directory
    && LinksCounted(d, root)
    && WellNamed(listed)
    && (forall i :: 0 <= i < |listed| ==> PairMatches(d, root, listed[i]))
    && |Quarantines(Live(d, root))| + |listed| <= MAX_TOMBSTONES
  }

  /** The pairs were published: no crash could have shown one half of them, and both halves are synced. */
  predicate Published(d: Disk, root: NodeId, listed: seq<Record>)
    requires IsDir(d, root)
  {
    && PairsInOrder(d.dirs[root], listed)
    && forall i, part :: 0 <= i < |listed| && SourceName(listed[i], part) in Live(d, root) ==>
         && SourceName(listed[i], part) in Durable(d, root)
         && Durable(d, root)[SourceName(listed[i], part)] == Live(d, root)[SourceName(listed[i], part)]
  }

  // ---------- What it leaves ----------

  function PairNames(listed: seq<Record>, k: nat): set<Name>
    requires k <= |listed|
  {
    if k == 0 then {} else PairNames(listed, k - 1) + {ManifestName(listed[k - 1].name), listed[k - 1].name}
  }

  function PairNodes(view: View, listed: seq<Record>, k: nat): set<NodeId>
    requires k <= |listed|
  {
    if k == 0 then {}
    else
      var name := listed[k - 1].name;
      PairNodes(view, listed, k - 1) + NodeAt(view, ManifestName(name)) + NodeAt(view, name)
  }

  function NodeAt(view: View, name: Name): set<NodeId> {
    if name in view then {view[name]} else {}
  }

  function Entries(homes: seq<Home>): View {
    if homes == [] then map[]
    else Entries(homes[..|homes| - 1])[homes[|homes| - 1].name := homes[|homes| - 1].dir]
  }

  function Dirs(homes: seq<Home>): set<NodeId> {
    set home | home in homes :: home.dir
  }

  predicate FreshHomes(d0: Disk, root: NodeId, homes: seq<Home>) {
    && (forall i :: 0 <= i < |homes| ==> IsQuarantineName(homes[i].name) && homes[i].name !in Live(d0, root))
    && (forall i :: 0 <= i < |homes| ==> homes[i].dir !in d0.nodes && homes[i].dir !in d0.dirs)
    && (forall i, j :: 0 <= i < j < |homes| ==> homes[i].name != homes[j].name && homes[i].dir != homes[j].dir)
  }

  /** The root lost the pairs' names and gained the quarantines' names, and is synced. */
  predicate RootPruned(d0: Disk, d: Disk, root: NodeId, listed: seq<Record>, k: nat, homes: seq<Home>)
    requires k <= |listed|
  {
    && IsDir(d, root)
    && Live(d, root) == Live(d0, root) - PairNames(listed, k) + Entries(homes)
    && (k > 0 ==> d.dirs[root] == [Live(d, root)])
  }

  /** Each quarantine durably holds exactly the two inodes of its pair. */
  predicate Quarantined(d0: Disk, d: Disk, root: NodeId, listed: seq<Record>, homes: seq<Home>)
    requires |homes| <= |listed|
  {
    forall i :: 0 <= i < |homes| ==> IsHomeOf(d0, d, root, listed[i], homes[i].dir)
  }

  predicate IsHomeOf(d0: Disk, d: Disk, root: NodeId, record: Record, dir: NodeId) {
    && ListsPair(d0, root, record) && dir in d.dirs && dir != root
    && d.dirs[dir] == [map["manifest" := NodeFor(d0, root, record, Manifest),
                           "artifact" := NodeFor(d0, root, record, Artifact)]]
  }

  /** The same file, emptied. */
  predicate IsEmptiedCopy(before: Inode, after: Inode) {
    after == before.(data := [], mtime := after.mtime, ctime := after.ctime)
  }

  /** The inodes of the pairs are emptied and no other inode changes, but for the times of the root. */
  predicate NodesPruned(d0: Disk, d: Disk, root: NodeId, emptied: set<NodeId>, homes: seq<Home>) {
    && d.nodes.Keys == d0.nodes.Keys + Dirs(homes)
    && (forall node :: node in d0.nodes && node in emptied ==> IsEmptiedCopy(d0.nodes[node], d.nodes[node]))
    && (forall node :: node in d0.nodes && node !in emptied && node != root ==> d.nodes[node] == d0.nodes[node])
    && root in d0.nodes
    && d.nodes[root] == d0.nodes[root].(mtime := d.nodes[root].mtime, ctime := d.nodes[root].ctime)
  }

  predicate DirsPruned(d0: Disk, d: Disk, root: NodeId, homes: seq<Home>) {
    && d.top == d0.top
    && d.dirs.Keys == d0.dirs.Keys + Dirs(homes)
    && (forall dir :: dir in d0.dirs && dir != root ==> d.dirs[dir] == d0.dirs[dir])
  }

  /** The first `k` listed pairs have been pruned, and nothing else was touched. */
  predicate Pruned(d0: Disk, d: Disk, root: NodeId, listed: seq<Record>, k: nat, homes: seq<Home>) {
    && k == |homes| <= |listed|
    && (k == 0 ==> d == d0)
    && FreshHomes(d0, root, homes)
    && RootPruned(d0, d, root, listed, k, homes)
    && Quarantined(d0, d, root, listed, homes)
    && NodesPruned(d0, d, root, PairNodes(Live(d0, root), listed, k), homes)
    && DirsPruned(d0, d, root, homes)
  }

  /** So many pairs are done, in some quarantines. */
  ghost predicate IsDone(d0: Disk, d: Disk, root: NodeId, listed: seq<Record>, k: nat) {
    exists homes :: Pruned(d0, d, root, listed, k, homes)
  }

  lemma PrunedIsDone(d0: Disk, d: Disk, root: NodeId, listed: seq<Record>, k: nat, homes: seq<Home>)
    requires Pruned(d0, d, root, listed, k, homes)
    ensures IsDone(d0, d, root, listed, k)
  {
  }

  lemma NothingPruned(d0: Disk, root: NodeId, listed: seq<Record>)
    requires Eligible(d0, root, listed)
    ensures Pruned(d0, d0, root, listed, 0, [])
  {
  }

  // ---------- Facts about names ----------

  lemma {:induction false} EntryNames(homes: seq<Home>, i: nat)
    requires i < |homes|
    requires forall i, j :: 0 <= i < j < |homes| ==> homes[i].name != homes[j].name
    ensures homes[i].name in Entries(homes) && Entries(homes)[homes[i].name] == homes[i].dir
  {
    if i < |homes| - 1 {
      EntryNames(homes[..|homes| - 1], i);
    }
  }

  lemma {:induction false} EntryOrigin(homes: seq<Home>, name: Name)
    requires name in Entries(homes)
    ensures exists i :: 0 <= i < |homes| && homes[i].name == name && homes[i].dir == Entries(homes)[name]
  {
    var last := |homes| - 1;
    if homes[last].name != name {
      EntryOrigin(homes[..last], name);
      var i :| 0 <= i < last && homes[..last][i].name == name && homes[..last][i].dir == Entries(homes[..last])[name];
      assert homes[i].name == name;
    }
  }

  lemma {:induction false} PairNameOrigin(listed: seq<Record>, k: nat, name: Name)
    requires k <= |listed| && name in PairNames(listed, k)
    ensures exists i, part :: 0 <= i < k && SourceName(listed[i], part) == name
  {
    if name == ManifestName(listed[k - 1].name) {
      assert SourceName(listed[k - 1], Manifest) == name;
    } else if name == listed[k - 1].name {
      assert SourceName(listed[k - 1], Artifact) == name;
    } else {
      PairNameOrigin(listed, k - 1, name);
    }
  }

  lemma {:induction false} PairNameOf(listed: seq<Record>, k: nat, i: nat, part: Part)
    requires i < k <= |listed|
    ensures SourceName(listed[i], part) in PairNames(listed, k)
  {
    if i < k - 1 {
      PairNameOf(listed, k - 1, i, part);
    }
  }

  lemma SameSource(listed: seq<Record>, i: nat, p: Part, j: nat, q: Part)
    requires WellNamed(listed) && i < |listed| && j < |listed|
    requires SourceName(listed[i], p) == SourceName(listed[j], q)
    ensures i == j && p == q
  {
    NamesDoNotClash(listed[i].name, listed[j].name);
    NamesDoNotClash(listed[j].name, listed[i].name);
  }

  /** The names of a pair that is still to come are neither pruned names nor quarantines. */
  lemma NameStands(listed: seq<Record>, k: nat, homes: seq<Home>, j: nat, part: Part)
    requires WellNamed(listed) && k <= j < |listed|
    requires forall i :: 0 <= i < |homes| ==> IsQuarantineName(homes[i].name)
    ensures SourceName(listed[j], part) !in PairNames(listed, k)
    ensures SourceName(listed[j], part) !in Entries(homes)
  {
    var name := SourceName(listed[j], part);
    if name in PairNames(listed, k) {
      PairNameOrigin(listed, k, name);
      var i, p :| 0 <= i < k && SourceName(listed[i], p) == name;
      SameSource(listed, i, p, j, part);
    }
    NotQuarantine(listed[j].name);
    if name in Entries(homes) {
      EntryOrigin(homes, name);
    }
  }

  lemma QuarantineStands(listed: seq<Record>, k: nat, name: Name)
    requires WellNamed(listed) && k <= |listed| && IsQuarantineName(name)
    ensures name !in PairNames(listed, k)
  {
    if name in PairNames(listed, k) {
      PairNameOrigin(listed, k, name);
      var i, p :| 0 <= i < k && SourceName(listed[i], p) == name;
      NotQuarantine(listed[i].name);
    }
  }

  // ---------- Facts about inodes ----------

  lemma {:induction false} PairNodeOrigin(view: View, listed: seq<Record>, k: nat, node: NodeId)
    requires k <= |listed| && node in PairNodes(view, listed, k)
    ensures exists i, part ::
      0 <= i < k && SourceName(listed[i], part) in view && view[SourceName(listed[i], part)] == node
  {
    if node in PairNodes(view, listed, k - 1) {
      PairNodeOrigin(view, listed, k - 1, node);
    } else if node in NodeAt(view, ManifestName(listed[k - 1].name)) {
      assert view[SourceName(listed[k - 1], Manifest)] == node;
    } else {
      assert view[SourceName(listed[k - 1], Artifact)] == node;
    }
  }

  lemma PairIsLinked(d0: Disk, root: NodeId, listed: seq<Record>, i: nat, part: Part)
    requires Eligible(d0, root, listed) && i < |listed|
    ensures ListsPair(d0, root, listed[i]) && IsSinglyLinked(d0, NodeFor(d0, root, listed[i], part))
  {
    assert PairMatches(d0, root, listed[i]);
  }

  /** Only its own name leads to an inode of a pair. */
  lemma PairNodeName(d0: Disk, root: NodeId, listed: seq<Record>, k: nat, name: Name)
    requires Eligible(d0, root, listed) && k <= |listed|
    requires name in Live(d0, root) && Live(d0, root)[name] in PairNodes(Live(d0, root), listed, k)
    ensures name in PairNames(listed, k)
  {
    var view := Live(d0, root);
    PairNodeOrigin(view, listed, k, view[name]);
    var i, part :| 0 <= i < k && SourceName(listed[i], part) in view && view[SourceName(listed[i], part)] == view[name];
    PairIsLinked(d0, root, listed, i, part);
    PairNameOf(listed, k, i, part);
  }

  // ---------- From one record to the next ----------

  lemma HalfStillThere(d0: Disk, d: Disk, root: NodeId, listed: seq<Record>, k: nat, homes: seq<Home>, part: Part)
    requires Eligible(d0, root, listed) && Pruned(d0, d, root, listed, k, homes) && k < |listed|
    ensures ListsPair(d0, root, listed[k])
    ensures var node := NodeFor(d0, root, listed[k], part);
            && Names(d, root, SourceName(listed[k], part), node)
            && node in d0.nodes && node in d.nodes && d.nodes[node] == d0.nodes[node]
  {
    PairIsLinked(d0, root, listed, k, part);
    NameStands(listed, k, homes, k, part);
    var node := NodeFor(d0, root, listed[k], part);
    if node in PairNodes(Live(d0, root), listed, k) {
      PairNodeName(d0, root, listed, k, SourceName(listed[k], part));
    }
  }

  lemma HalfIsSole(d0: Disk, d: Disk, root: NodeId, listed: seq<Record>, k: nat, homes: seq<Home>, part: Part)
    requires Eligible(d0, root, listed) && k < |listed| && FreshHomes(d0, root, homes)
    requires RootPruned(d0, d, root, listed, k, homes)
    ensures SoleName(d, root, SourceName(listed[k], part))
  {
    PairIsLinked(d0, root, listed, k, part);
    NameStands(listed, k, homes, k, part);
    var name := SourceName(listed[k], part);
    forall other | other in Live(d, root) && Live(d, root)[other] == Live(d, root)[name]
      ensures other == name
    {
      if other in Entries(homes) {
        EntryOrigin(homes, other);
      }
    }
  }

  lemma NextMatches(d0: Disk, d: Disk, root: NodeId, listed: seq<Record>, k: nat, homes: seq<Home>)
    requires Eligible(d0, root, listed) && Pruned(d0, d, root, listed, k, homes) && k < |listed|
    ensures PairMatches(d, root, listed[k])
  {
    HalfStillThere(d0, d, root, listed, k, homes, Manifest);
    HalfStillThere(d0, d, root, listed, k, homes, Artifact);
    assert PairMatches(d0, root, listed[k]);
  }

  predicate IsSiteOf(d0: Disk, d: Disk, root: NodeId, record: Record, site: Site)
    requires ListsPair(d0, root, record)
  {
    && site.root == root && IsQuarantineName(site.name) && site.name !in Live(d, root)
    && site.quarantine !in d.nodes && site.quarantine !in d.dirs
    && site.manifest == NodeFor(d0, root, record, Manifest)
    && site.artifact == NodeFor(d0, root, record, Artifact)
  }

  /** The next record finds its pair as the preflight saw it. */
  lemma NextIsReady(d0: Disk, d: Disk, root: NodeId, listed: seq<Record>, k: nat, homes: seq<Home>, site: Site)
    requires Eligible(d0, root, listed) && Pruned(d0, d, root, listed, k, homes) && k < |listed|
    requires ListsPair(d0, root, listed[k]) && IsSiteOf(d0, d, root, listed[k], site)
    ensures Ready(d, site, listed[k])
  {
    NextMatches(d0, d, root, listed, k, homes);
    HalfStillThere(d0, d, root, listed, k, homes, Manifest);
    HalfStillThere(d0, d, root, listed, k, homes, Artifact);
    HalfIsSole(d0, d, root, listed, k, homes, Manifest);
    HalfIsSole(d0, d, root, listed, k, homes, Artifact);
  }

  /** The last stage of a record: both names gone, both inodes emptied in a synced quarantine. */
  predicate Finished(d: Disk, site: Site, record: Record, stage: Stage)
    requires Ready(d, site, record)
  {
    ReadyIsDistinct(d, site, record);
    && stage.rootViews == [RootWithoutPair(d, site, record)]
    && stage.quarantineViews == [map["manifest" := site.manifest, "artifact" := site.artifact]]
    && IsEmptiedCopy(d.nodes[site.manifest], stage.manifestNode)
    && IsEmptiedCopy(d.nodes[site.artifact], stage.artifactNode)
    && stage.rootNode == d.nodes[site.root].(mtime := stage.rootNode.mtime, ctime := stage.rootNode.ctime)
  }

  /** Adding a name and taking two others away, on maps. */
  lemma ViewStep(before: View, gone: set<Name>, added: View, name: Name, dir: NodeId, m: Name, a: Name)
    requires name !in gone && name != m && name != a && m !in added && a !in added
    ensures (before - gone + added)[name := dir] - {m} - {a} == before - (gone + {m, a}) + added[name := dir]
  {
  }

  lemma FreshStep(d0: Disk, d: Disk, root: NodeId, listed: seq<Record>, k: nat, homes: seq<Home>, site: Site)
    requires WellNamed(listed) && k <= |listed| && FreshHomes(d0, root, homes)
    requires RootPruned(d0, d, root, listed, k, homes)
    requires d0.nodes.Keys + Dirs(homes) <= d.nodes.Keys && d0.dirs.Keys <= d.dirs.Keys
    requires IsQuarantineName(site.name) && site.name !in Live(d, root)
    requires site.quarantine !in d.nodes && site.quarantine !in d.dirs
    ensures FreshHomes(d0, root, homes + [Home(site.name, site.quarantine)])
  {
    QuarantineStands(listed, k, site.name);
    forall i | 0 <= i < |homes|
      ensures homes[i].name != site.name && homes[i].dir != site.quarantine
    {
      EntryNames(homes, i);
      assert homes[i] in homes;
      assert homes[i].dir in Dirs(homes);
    }
  }

  lemma RootStep(d0: Disk, d: Disk, root: NodeId, listed: seq<Record>, k: nat, homes: seq<Home>, site: Site,
                 stage: Stage)
    requires WellNamed(listed) && k < |listed| && FreshHomes(d0, root, homes)
    requires RootPruned(d0, d, root, listed, k, homes)
    requires site.root == root && Ready(d, site, listed[k]) && Finished(d, site, listed[k], stage)
    ensures RootPruned(d0, At(d, site, stage), root, listed, k + 1, homes + [Home(site.name, site.quarantine)])
  {
    ReadyIsDistinct(d, site, listed[k]);
    NameStands(listed, k, homes, k, Manifest);
    NameStands(listed, k, homes, k, Artifact);
    QuarantineStands(listed, k, site.name);
    var s := At(d, site, stage);
    assert s.dirs[root] == [RootWithoutPair(d, site, listed[k])];
    var more := homes + [Home(site.name, site.quarantine)];
    assert more[..|more| - 1] == homes;
    ViewStep(Live(d0, root), PairNames(listed, k), Entries(homes), site.name, site.quarantine,
             ManifestName(listed[k].name), listed[k].name);
  }

  lemma HomesStep(d0: Disk, d: Disk, root: NodeId, listed: seq<Record>, homes: seq<Home>, site: Site, stage: Stage)
    requires |homes| < |listed| && Quarantined(d0, d, root, listed, homes)
    requires ListsPair(d0, root, listed[|homes|]) && IsSiteOf(d0, d, root, listed[|homes|], site)
    requires root in d.dirs
    requires stage.quarantineViews == [map["manifest" := site.manifest, "artifact" := site.artifact]]
    ensures Quarantined(d0, At(d, site, stage), root, listed, homes + [Home(site.name, site.quarantine)])
  {
    var s := At(d, site, stage);
    var more := homes + [Home(site.name, site.quarantine)];
    forall i | 0 <= i < |more|
      ensures IsHomeOf(d0, s, root, listed[i], more[i].dir)
    {
      if i < |homes| {
        assert IsHomeOf(d0, d, root, listed[i], homes[i].dir);
        assert s.dirs[homes[i].dir] == d.dirs[homes[i].dir];
      } else {
        assert s.dirs[site.quarantine] == stage.quarantineViews;
      }
    }
  }

  lemma DirsStep(d0: Disk, d: Disk, root: NodeId, homes: seq<Home>, site: Site, stage: Stage)
    requires DirsPruned(d0, d, root, homes) && root in d0.dirs && site.root == root && site.quarantine !in d.dirs
    ensures DirsPruned(d0, At(d, site, stage), root, homes + [Home(site.name, site.quarantine)])
  {
    DirsOf(homes, Home(site.name, site.quarantine));
    assert At(d, site, stage).dirs.Keys == d.dirs.Keys + {site.quarantine};
  }

  lemma DirsOf(homes: seq<Home>, home: Home)
    ensures Dirs(homes + [home]) == Dirs(homes) + {home.dir}
  {
    assert home in homes + [home];
    forall h | h in homes
      ensures h in homes + [home]
    {
    }
  }

  lemma PairNodesGrow(d0: Disk, root: NodeId, listed: seq<Record>, k: nat)
    requires k < |listed| && ListsPair(d0, root, listed[k])
    ensures PairNodes(Live(d0, root), listed, k + 1) ==
            PairNodes(Live(d0, root), listed, k)
              + {NodeFor(d0, root, listed[k], Manifest), NodeFor(d0, root, listed[k], Artifact)}
  {
  }

  lemma NodesStep(d0: Disk, d: Disk, root: NodeId, listed: seq<Record>, k: nat, homes: seq<Home>, site: Site,
                  stage: Stage)
    requires Eligible(d0, root, listed) && Pruned(d0, d, root, listed, k, homes) && k < |listed|
    requires site.root == root && Ready(d, site, listed[k]) && Finished(d, site, listed[k], stage)
    requires ListsPair(d0, root, listed[k]) && IsSiteOf(d0, d, root, listed[k], site)
    ensures NodesPruned(d0, At(d, site, stage), root, PairNodes(Live(d0, root), listed, k + 1),
                        homes + [Home(site.name, site.quarantine)])
  {
    ReadyIsDistinct(d, site, listed[k]);
    HalfStillThere(d0, d, root, listed, k, homes, Manifest);
    HalfStillThere(d0, d, root, listed, k, homes, Artifact);
    PairNodesGrow(d0, root, listed, k);
    NodesStepOn(d0, d, root, PairNodes(Live(d0, root), listed, k), homes, site, stage);
  }

  lemma NodesStepOn(d0: Disk, d: Disk, root: NodeId, emptied: set<NodeId>, homes: seq<Home>, site: Site, stage: Stage)
    requires NodesPruned(d0, d, root, emptied, homes)
    requires site.root == root && root != site.manifest && root != site.artifact && site.manifest != site.artifact
    requires site.quarantine !in d.nodes && site.manifest in d0.nodes && site.artifact in d0.nodes
    requires d.nodes[site.manifest] == d0.nodes[site.manifest] && d.nodes[site.artifact] == d0.nodes[site.artifact]
    requires IsEmptiedCopy(d.nodes[site.manifest], stage.manifestNode)
    requires IsEmptiedCopy(d.nodes[site.artifact], stage.artifactNode)
    requires stage.rootNode == d.nodes[root].(mtime := stage.rootNode.mtime, ctime := stage.rootNode.ctime)
    ensures NodesPruned(d0, At(d, site, stage), root, emptied + {site.manifest, site.artifact},
                        homes + [Home(site.name, site.quarantine)])
  {
    DirsOf(homes, Home(site.name, site.quarantine));
    var s := At(d, site, stage);
    assert s.nodes.Keys == d.nodes.Keys + {site.quarantine};
  }

  /** A record pruned from start to finish. */
  predicate Completes(d0: Disk, d: Disk, root: NodeId, record: Record, site: Site, stage: Stage) {
    && ListsPair(d0, root, record) && IsSiteOf(d0, d, root, record, site)
    && Ready(d, site, record) && Finished(d, site, record, stage)
  }

  /** Pruning one more pair, undisturbed, is one more step of the specification. */
  lemma PrunedStep(d0: Disk, d: Disk, root: NodeId, listed: seq<Record>, k: nat, homes: seq<Home>, site: Site,
                   stage: Stage)
    returns (more: seq<Home>)
    requires Eligible(d0, root, listed) && Pruned(d0, d, root, listed, k, homes) && k < |listed|
    requires Completes(d0, d, root, listed[k], site, stage)
    ensures more == homes + [Home(site.name, site.quarantine)]
    ensures Pruned(d0, At(d, site, stage), root, listed, k + 1, more)
  {
    more := homes + [Home(site.name, site.quarantine)];
    FreshStep(d0, d, root, listed, k, homes, site);
    RootStep(d0, d, root, listed, k, homes, site, stage);
    NodesStep(d0, d, root, listed, k, homes, site, stage);
    HomesStep(d0, d, root, listed, homes, site, stage);
    DirsStep(d0, d, root, homes, site, stage);
  }

  lemma DoneStep(d0: Disk, d: Disk, root: NodeId, listed: seq<Record>, k: nat, site: Site, stage: Stage)
    requires Eligible(d0, root, listed) && IsDone(d0, d, root, listed, k) && k < |listed|
    requires Completes(d0, d, root, listed[k], site, stage)
    ensures IsDone(d0, At(d, site, stage), root, listed, k + 1)
  {
    var homes :| Pruned(d0, d, root, listed, k, homes);
    CompletedIsDone(d0, d, root, listed, k, homes, site, stage);
  }

  lemma CompletedIsDone(d0: Disk, d: Disk, root: NodeId, listed: seq<Record>, k: nat, homes: seq<Home>, site: Site,
                        stage: Stage)
    requires Eligible(d0, root, listed) && Pruned(d0, d, root, listed, k, homes) && k < |listed|
    requires Completes(d0, d, root, listed[k], site, stage)
    ensures IsDone(d0, At(d, site, stage), root, listed, k + 1)
  {
    var more := PrunedStep(d0, d, root, listed, k, homes, site, stage);
    PrunedIsDone(d0, At(d, site, stage), root, listed, k + 1, more);
  }

  // ---------- Crash safety between records ----------

  lemma QuarantineCount(d0: Disk, d: Disk, root: NodeId, listed: seq<Record>, k: nat, homes: seq<Home>)
    requires WellNamed(listed) && k == |homes| <= |listed| && FreshHomes(d0, root, homes)
    requires RootPruned(d0, d, root, listed, k, homes)
    ensures |Quarantines(Live(d, root))| == |Quarantines(Live(d0, root))| + k
  {
    forall name | name in Live(d0, root) && IsQuarantineName(name)
      ensures name !in PairNames(listed, k)
    {
      QuarantineStands(listed, k, name);
    }
    forall name | name in Entries(homes)
      ensures IsQuarantineName(name) && name !in Live(d0, root)
    {
      EntryOrigin(homes, name);
    }
    EntryCount(homes);
    CountAfter(Live(d0, root), PairNames(listed, k), Entries(homes));
  }

  lemma CountAfter(before: View, gone: set<Name>, added: View)
    requires forall name :: name in before && IsQuarantineName(name) ==> name !in gone
    requires forall name :: name in added ==> IsQuarantineName(name) && name !in before
    ensures |Quarantines(before - gone + added)| == |Quarantines(before)| + |added.Keys|
  {
    assert Quarantines(before - gone + added) == Quarantines(before) + added.Keys;
  }

  lemma {:induction false} EntryCount(homes: seq<Home>)
    requires forall i, j :: 0 <= i < j < |homes| ==> homes[i].name != homes[j].name
    ensures |Entries(homes).Keys| == |homes|
  {
    if homes != [] {
      var last := |homes| - 1;
      var front := homes[..last];
      EntryCount(front);
      if homes[last].name in Entries(front) {
        EntryOrigin(front, homes[last].name);
      }
      assert Entries(homes).Keys == Entries(front).Keys + {homes[last].name};
    }
  }

  lemma DoneIsSecured(d0: Disk, d: Disk, root: NodeId, listed: seq<Record>, k: nat, homes: seq<Home>, j: nat,
                      part: Part)
    requires k == |homes| <= |listed| && FreshHomes(d0, root, homes) && j < k
    requires RootPruned(d0, d, root, listed, k, homes) && Quarantined(d0, d, root, listed, homes)
    ensures SecuredBy(d, root, NodeFor(d0, root, listed[j], part), homes[j].name)
  {
    EntryNames(homes, j);
    assert CapturedName(part) in Durable(d, homes[j].dir);
    assert HoldsDurably(d, homes[j].dir, NodeFor(d0, root, listed[j], part));
  }

  lemma PendingIsSecured(d0: Disk, d: Disk, root: NodeId, listed: seq<Record>, k: nat, homes: seq<Home>, j: nat,
                         part: Part)
    requires IsDir(d0, root) && Published(d0, root, listed) && WellNamed(listed)
    requires k == |homes| <= j < |listed| && FreshHomes(d0, root, homes) && (k == 0 ==> d == d0)
    requires RootPruned(d0, d, root, listed, k, homes) && ListsPair(d0, root, listed[j])
    ensures SecuredBy(d, root, NodeFor(d0, root, listed[j], part), SourceName(listed[j], part))
  {
    NameStands(listed, k, homes, j, part);
  }

  lemma StandsSecured(d0: Disk, d: Disk, root: NodeId, listed: seq<Record>, k: nat, homes: seq<Home>, j: nat,
                      part: Part)
    requires Eligible(d0, root, listed) && Published(d0, root, listed)
    requires Pruned(d0, d, root, listed, k, homes) && j < |listed|
    ensures ListsPair(d0, root, listed[j])
    ensures k < |listed| && j != k ==> SecuredApart(d, root, NodeFor(d0, root, listed[j], part), listed[k])
    ensures Recoverable(d, root, NodeFor(d0, root, listed[j], part))
  {
    PairIsLinked(d0, root, listed, j, part);
    var name := if j < k then homes[j].name else SourceName(listed[j], part);
    if j < k {
      DoneIsSecured(d0, d, root, listed, k, homes, j, part);
    } else {
      PendingIsSecured(d0, d, root, listed, k, homes, j, part);
    }
    assert DurablyAt(d, root, NodeFor(d0, root, listed[j], part), name);
    if k < |listed| && j != k {
      NamesApart(listed, k, homes, j, part);
    }
  }

  lemma NamesApart(listed: seq<Record>, k: nat, homes: seq<Home>, j: nat, part: Part)
    requires WellNamed(listed) && k == |homes| < |listed| && j < |listed| && j != k
    requires forall i :: 0 <= i < |homes| ==> IsQuarantineName(homes[i].name)
    ensures var name := if j < k then homes[j].name else SourceName(listed[j], part);
            name != listed[k].name && name != ManifestName(listed[k].name)
  {
    NotQuarantine(listed[k].name);
    NamesDoNotClash(listed[j].name, listed[k].name);
    NamesDoNotClash(listed[k].name, listed[j].name);
  }

  lemma PrunedOrder(d0: Disk, d: Disk, root: NodeId, listed: seq<Record>, k: nat, homes: seq<Home>)
    requires IsDir(d0, root) && Published(d0, root, listed) && WellNamed(listed)
    requires k == |homes| <= |listed| && FreshHomes(d0, root, homes) && (k == 0 ==> d == d0)
    requires RootPruned(d0, d, root, listed, k, homes)
    ensures PairsInOrder(d.dirs[root], listed)
  {
    if k > 0 {
      forall view, record | view in d.dirs[root] && record in listed && ManifestName(record.name) in view
        ensures record.name in view
      {
        var j :| 0 <= j < |listed| && listed[j] == record;
        NotQuarantine(record.name);
        assert ManifestName(record.name) == SourceName(listed[j], Manifest);
        if SourceName(listed[j], Manifest) in Entries(homes) {
          EntryOrigin(homes, SourceName(listed[j], Manifest));
        }
        if j < k {
          PairNameOf(listed, k, j, Manifest);
        } else {
          NameStands(listed, k, homes, j, Artifact);
          assert Live(d0, root) in d0.dirs[root];
        }
      }
    }
  }

  lemma PrunedBytes(d0: Disk, d: Disk, root: NodeId, listed: seq<Record>, k: nat, homes: seq<Home>)
    requires Eligible(d0, root, listed) && Pruned(d0, d, root, listed, k, homes)
    ensures BytesIntact(d0, d, root)
  {
    if k > 0 {
      forall view, name | view in d.dirs[root] && name in view && view[name] in d0.nodes
        ensures view[name] in d.nodes && d.nodes[view[name]].data == d0.nodes[view[name]].data
      {
        if name in Entries(homes) {
          EntryOrigin(homes, name);
        }
        if view[name] in PairNodes(Live(d0, root), listed, k) {
          PairNodeName(d0, root, listed, k, name);
        }
      }
    }
  }

  /** Between two records a crash is safe. */
  lemma PrunedIsCrashSafe(d0: Disk, d: Disk, root: NodeId, listed: seq<Record>, k: nat, homes: seq<Home>)
    requires Eligible(d0, root, listed) && Published(d0, root, listed)
    requires Pruned(d0, d, root, listed, k, homes)
    ensures CrashSafe(d0, d, root, listed)
  {
    QuarantineCount(d0, d, root, listed, k, homes);
    forall record | record in listed && ListsPair(d0, root, record)
      ensures PairRecoverable(d0, d, root, record)
    {
      var j :| 0 <= j < |listed| && listed[j] == record;
      StandsSecured(d0, d, root, listed, k, homes, j, Manifest);
      StandsSecured(d0, d, root, listed, k, homes, j, Artifact);
    }
    PrunedOrder(d0, d, root, listed, k, homes);
    PrunedBytes(d0, d, root, listed, k, homes);
  }

  /** So the next record starts from a safe state. */
  lemma NextStands(d0: Disk, d: Disk, root: NodeId, listed: seq<Record>, k: nat, homes: seq<Home>, site: Site)
    requires Eligible(d0, root, listed) && Published(d0, root, listed)
    requires Pruned(d0, d, root, listed, k, homes) && k < |listed|
    requires ListsPair(d0, root, listed[k]) && IsSiteOf(d0, d, root, listed[k], site)
    requires Ready(d, site, listed[k])
    ensures Standing(d0, d, site, listed[k], listed)
  {
    PrunedIsCrashSafe(d0, d, root, listed, k, homes);
    QuarantineCount(d0, d, root, listed, k, homes);
    PendingIsSecured(d0, d, root, listed, k, homes, k, Manifest);
    PendingIsSecured(d0, d, root, listed, k, homes, k, Artifact);
    NextIsReady(d0, d, root, listed, k, homes, site);
    forall other | other in listed && other.name != listed[k].name && ListsPair(d0, root, other)
      ensures SecuredApart(d, root, NodeFor(d0, root, other, Manifest), listed[k])
      ensures SecuredApart(d, root, NodeFor(d0, root, other, Artifact), listed[k])
    {
      var j :| 0 <= j < |listed| && listed[j] == other;
      StandsSecured(d0, d, root, listed, k, homes, j, Manifest);
      StandsSecured(d0, d, root, listed, k, homes, j, Artifact);
    }
  }
}
