/** Declared host names as a forest: a target hangs under the nearest declared ancestor of its host in its group. */
module DomainForest {
  import opened Outcomes

  /** A target with an id and a host. */
  datatype Node = Node(id: string, group: string, host: string)

  /** The targets that have both an id and a host. */
  function Nodes(items: seq<Node>): seq<Node> {
    if items == [] then []
    else
      var rest := Nodes(items[1..]);
      if items[0].id != "" && items[0].host != "" then [items[0]] + rest else rest
  }

  predicate EndsWith(s: string, t: string) {
    |t| <= |s| && s[|s| - |t|..] == t
  }

  predicate IsStrictSubdomain(host: string, parent: string) {
    host != "" && parent != "" && host != parent && EndsWith(host, "." + parent)
  }

  predicate IsAncestor(node: Node, other: Node) {
    other.id != node.id && other.group == node.group && IsStrictSubdomain(node.host, other.host)
  }

  predicate HasAncestor(nodes: seq<Node>, node: Node) {
    exists i :: 0 <= i < |nodes| && IsAncestor(node, nodes[i])
  }

  /** The id stands for one host in one group. */
  predicate Agrees(nodes: seq<Node>, id: string) {
    forall i, j :: 0 <= i < |nodes| && 0 <= j < |nodes| && nodes[i].id == nodes[j].id == id ==> nodes[i] == nodes[j]
  }

  /** Every id stands for one host in one group. */
  predicate IdsAgree(nodes: seq<Node>) {
    forall i, j :: 0 <= i < |nodes| && 0 <= j < |nodes| && nodes[i].id == nodes[j].id ==> nodes[i] == nodes[j]
  }

  // ---------- Hosts ----------

  lemma SuffixOfSuffix(s: string, t: string, u: string)
    requires EndsWith(s, t) && EndsWith(s, u) && |u| <= |t|
    ensures EndsWith(t, u)
  {
    assert t[|t| - |u|..] == s[|s| - |u|..];
  }

  lemma EndsWithParent(host: string, parent: string)
    requires EndsWith(host, "." + parent)
    ensures EndsWith(host, parent)
  {
    assert ("." + parent)[1..] == parent;
    assert host[|host| - |parent|..] == host[|host| - |parent| - 1..][1..];
  }

  /** A host is under another one if and only if it is that one with a label and a dot, or just a dot, before it. */
  lemma SubdomainMeans(host: string, parent: string)
    ensures IsStrictSubdomain(host, parent) <==> parent != "" && exists labels :: host == labels + "." + parent
  {
    if IsStrictSubdomain(host, parent) {
      var cut := |host| - |parent| - 1;
      assert host == host[..cut] + host[cut..] == host[..cut] + "." + parent;
    }
    if labels :| host == labels + "." + parent {
      assert host == labels + ("." + parent);
      assert host[|labels|..] == "." + parent;
    }
  }

  /** The targets kept are those with an id and a host. */
  lemma {:induction false} NodesHold(items: seq<Node>, x: Node)
    ensures multiset(Nodes(items))[x] == if x.id == "" || x.host == "" then 0 else multiset(items)[x]
  {
    if items != [] {
      NodesHold(items[1..], x);
      assert items == [items[0]] + items[1..];
      assert multiset(items) == multiset{items[0]} + multiset(items[1..]);
    }
  }

  /** Of two hosts above a third, the longer one is under the shorter one. */
  lemma AncestorsAreNested(host: string, near: string, far: string)
    requires near != "" && far != "" && (host == near || IsStrictSubdomain(host, near)) && IsStrictSubdomain(host, far)
    requires |far| < |near|
    ensures IsStrictSubdomain(near, far)
  {
    if host != near {
      EndsWithParent(host, near);
    }
    SuffixOfSuffix(host, near, "." + far);
  }

  lemma SameLengthSameHost(host: string, a: string, b: string)
    requires EndsWith(host, a) && EndsWith(host, b) && |a| == |b|
    ensures a == b
  {
  }

  lemma SubdomainIsTransitive(a: string, b: string, c: string)
    requires IsStrictSubdomain(a, b) && IsStrictSubdomain(b, c)
    ensures IsStrictSubdomain(a, c)
  {
    EndsWithParent(a, b);
    var dot := "." + c;
    assert a[|a| - |b|..] == b;
    assert b[|b| - |dot|..] == dot;
    assert a[|a| - |dot|..] == a[|a| - |b|..][|b| - |dot|..];
  }

  // ---------- Parents ----------

  /** The nearest declared ancestor, the first of several with the same host. */
  function Nearest(nodes: seq<Node>, node: Node): Option<Node> {
    if nodes == [] then None
    else
      var last := nodes[|nodes| - 1];
      var best := Nearest(nodes[..|nodes| - 1], node);
      if IsAncestor(node, last) && (best.None? || |last.host| > |best.value.host|) then Some(last) else best
  }

  lemma {:induction false} NearestIsLongest(nodes: seq<Node>, node: Node)
    ensures Nearest(nodes, node).None? <==> !HasAncestor(nodes, node)
    ensures Nearest(nodes, node).Some? ==>
      var best := Nearest(nodes, node).value;
      && best in nodes && IsAncestor(node, best)
      && forall i :: 0 <= i < |nodes| && IsAncestor(node, nodes[i]) ==> |nodes[i].host| <= |best.host|
  {
    if nodes != [] {
      var last := |nodes| - 1;
      var front := nodes[..last];
      NearestIsLongest(front, node);
      assert nodes == front + [nodes[last]];
      if HasAncestor(front, node) {
        var i :| 0 <= i < |front| && IsAncestor(node, front[i]);
        assert IsAncestor(node, nodes[i]);
      }
      if HasAncestor(nodes, node) && !IsAncestor(node, nodes[last]) {
        var i :| 0 <= i < |nodes| && IsAncestor(node, nodes[i]);
        assert IsAncestor(node, front[i]);
      }
      forall i | 0 <= i < last && IsAncestor(node, nodes[i])
        ensures IsAncestor(node, front[i])
      {
      }
    }
  }

  /** The parent of each target that has one; of targets with one id, the last one counts. */
  function Parents(nodes: seq<Node>, upTo: nat): map<string, string>
    requires upTo <= |nodes|
  {
    if upTo == 0 then map[]
    else
      var parents := Parents(nodes, upTo - 1);
      var best := Nearest(nodes, nodes[upTo - 1]);
      if best.Some? then parents[nodes[upTo - 1].id := best.value.id] else parents
  }

  function ParentMap(nodes: seq<Node>): map<string, string> {
    Parents(nodes, |nodes|)
  }

  /** The ids of targets under another one. */
  function Hidden(nodes: seq<Node>, upTo: nat): set<string>
    requires upTo <= |nodes|
  {
    set i | 0 <= i < upTo && HasAncestor(nodes, nodes[i]) :: nodes[i].id
  }

  /** A target is hidden exactly when it has a parent, for all lists of targets. */
  lemma {:induction false} HiddenHaveParents(nodes: seq<Node>, upTo: nat)
    requires upTo <= |nodes|
    ensures Parents(nodes, upTo).Keys == Hidden(nodes, upTo)
  {
    if upTo > 0 {
      HiddenHaveParents(nodes, upTo - 1);
      NearestIsLongest(nodes, nodes[upTo - 1]);
      HiddenGrows(nodes, upTo - 1);
    }
  }

  lemma HiddenGrows(nodes: seq<Node>, upTo: nat)
    requires upTo < |nodes|
    ensures Hidden(nodes, upTo + 1)
         == Hidden(nodes, upTo) + if HasAncestor(nodes, nodes[upTo]) then {nodes[upTo].id} else {}
  {
    forall id | id in Hidden(nodes, upTo)
      ensures id in Hidden(nodes, upTo + 1)
    {
      var i :| 0 <= i < upTo && HasAncestor(nodes, nodes[i]) && nodes[i].id == id;
    }
  }

  lemma {:induction false} ParentIsNearest(nodes: seq<Node>, upTo: nat, k: nat)
    requires k < |nodes| && Agrees(nodes, nodes[k].id) && upTo <= |nodes| && nodes[k].id in Parents(nodes, upTo)
    ensures Nearest(nodes, nodes[k]).Some? && Parents(nodes, upTo)[nodes[k].id] == Nearest(nodes, nodes[k]).value.id
  {
    if upTo > 0 {
      if nodes[upTo - 1].id != nodes[k].id || Nearest(nodes, nodes[upTo - 1]).None? {
        ParentIsNearest(nodes, upTo - 1, k);
      } else {
        assert nodes[upTo - 1] == nodes[k];
      }
    }
  }

  // ---------- Following parents ----------

  /** The end of the chain of nearest ancestors. */
  function Root(nodes: seq<Node>, node: Node): Node
    decreases |node.host|
  {
    NearestIsLongest(nodes, node);
    var best := Nearest(nodes, node);
    if best.None? then node else Root(nodes, best.value)
  }

  lemma {:induction false} RootIsTop(nodes: seq<Node>, node: Node)
    ensures var root := Root(nodes, node);
      && !HasAncestor(nodes, root)
      && (root == node || (root in nodes && root.group == node.group && IsStrictSubdomain(node.host, root.host)))
    decreases |node.host|
  {
    NearestIsLongest(nodes, node);
    if Nearest(nodes, node).Some? {
      var best := Nearest(nodes, node).value;
      RootIsTop(nodes, best);
      if Root(nodes, best) != best {
        SubdomainIsTransitive(node.host, best.host, Root(nodes, best).host);
      }
    }
  }

  /** The root has the shortest host among all declared ancestors. */
  lemma RootIsShortest(nodes: seq<Node>, k: nat, i: nat)
    requires IdsAgree(nodes) && k < |nodes| && i < |nodes| && IsAncestor(nodes[k], nodes[i])
    ensures |Root(nodes, nodes[k]).host| <= |nodes[i].host|
  {
    var root := Root(nodes, nodes[k]);
    RootIsTop(nodes, nodes[k]);
    if |nodes[i].host| < |root.host| {
      AncestorsAreNested(nodes[k].host, root.host, nodes[i].host);
      assert IsAncestor(root, nodes[i]);
    }
  }

  predicate IsPath(parents: map<string, string>, path: seq<string>) {
    path != [] && forall i :: 0 <= i < |path| - 1 ==> path[i] in parents && parents[path[i]] == path[i + 1]
  }

  predicate AgreesOn(nodes: seq<Node>, path: seq<string>) {
    forall i :: 0 <= i < |path| ==> Agrees(nodes, path[i])
  }

  /** A path of parents over ids that each stand for one target passes ever shorter hosts with the same root. */
  lemma {:induction false} PathShortens(nodes: seq<Node>, path: seq<string>, k: nat) returns (m: nat)
    requires k < |nodes| && IsPath(ParentMap(nodes), path) && path[0] == nodes[k].id && AgreesOn(nodes, path)
    ensures m < |nodes| && nodes[m].id == path[|path| - 1] && Root(nodes, nodes[m]) == Root(nodes, nodes[k])
    ensures |path| > 1 ==> |nodes[m].host| < |nodes[k].host|
    decreases |path|
  {
    m := k;
    if |path| > 1 {
      ParentIsNearest(nodes, |nodes|, k);
      NearestIsLongest(nodes, nodes[k]);
      var j :| 0 <= j < |nodes| && nodes[j] == Nearest(nodes, nodes[k]).value;
      assert ParentMap(nodes)[path[0]] == path[1];
      assert IsPath(ParentMap(nodes), path[1..]) by {
        forall i | 0 <= i < |path[1..]| - 1
          ensures path[1..][i] in ParentMap(nodes) && ParentMap(nodes)[path[1..][i]] == path[1..][i + 1]
        {
          assert path[1..][i] == path[i + 1];
        }
      }
      m := PathShortens(nodes, path[1..], j);
    }
  }

  /** A path of parents comes back to an id only over an id that stands for two targets. */
  lemma PathDoesNotReturn(nodes: seq<Node>, path: seq<string>, k: nat, i: nat)
    requires k < |nodes| && IsPath(ParentMap(nodes), path) && path[0] == nodes[k].id && AgreesOn(nodes, path)
    requires i < |path| - 1
    ensures path[i] != path[|path| - 1]
  {
    var front, back := path[..i + 1], path[i..];
    assert IsPath(ParentMap(nodes), front);
    assert IsPath(ParentMap(nodes), back) by {
      forall j | 0 <= j < |back| - 1
        ensures back[j] in ParentMap(nodes) && ParentMap(nodes)[back[j]] == back[j + 1]
      {
        assert path[i + j] in ParentMap(nodes) && ParentMap(nodes)[path[i + j]] == path[i + j + 1];
      }
    }
    assert AgreesOn(nodes, front) && AgreesOn(nodes, back);
    var m := PathShortens(nodes, front, k);
    var n := PathShortens(nodes, back, m);
  }

  /** Where following parents ends: at an id without one, or at one of those seen before. */
  function Follow(parents: map<string, string>, id: string, seen: set<string>): string
    decreases parents.Keys - seen
  {
    if id in parents && id !in seen then Follow(parents, parents[id], seen + {id}) else id
  }

  /** The path that is followed; it ends early only where an id comes up again. */
  lemma {:induction false} FollowedPath(parents: map<string, string>, id: string, seen: set<string>)
    returns (path: seq<string>)
    ensures IsPath(parents, path) && path[0] == id && path[|path| - 1] == Follow(parents, id, seen)
    ensures Follow(parents, id, seen) in parents ==>
      Follow(parents, id, seen) in seen || Follow(parents, id, seen) in path[..|path| - 1]
    decreases parents.Keys - seen
  {
    path := [id];
    if id in parents && id !in seen {
      var rest := FollowedPath(parents, parents[id], seen + {id});
      path := [id] + rest;
      var end := |path| - 1;
      assert path[end] == rest[|rest| - 1];
      assert path[..end] == [id] + rest[..|rest| - 1];
      assert id in path[..end];
    }
  }

  /** The id is one of a set of ids that all have a parent, in the set. */
  ghost predicate IsTrapped(parents: map<string, string>, id: string) {
    exists ids :: id in ids && IsClosed(parents, ids)
  }

  predicate IsClosed(parents: map<string, string>, ids: set<string>) {
    forall x :: x in ids ==> x in parents && parents[x] in ids
  }

  lemma {:induction false} FollowStays(parents: map<string, string>, id: string, seen: set<string>, ids: set<string>)
    requires id in ids && IsClosed(parents, ids)
    ensures Follow(parents, id, seen) in ids
    decreases parents.Keys - seen
  {
    if id !in seen {
      FollowStays(parents, parents[id], seen + {id}, ids);
    }
  }

  /** Following parents ends because an id comes up again if and only if the id it starts from is trapped. */
  lemma ReturnsMeansTrapped(parents: map<string, string>, id: string)
    ensures Follow(parents, id, {}) in parents <==> IsTrapped(parents, id)
  {
    if IsTrapped(parents, id) {
      var ids :| id in ids && IsClosed(parents, ids);
      FollowStays(parents, id, {}, ids);
    }
    var end := Follow(parents, id, {});
    if end in parents {
      var path := FollowedPath(parents, id, {});
      var last := |path| - 1;
      var ids := set i | 0 <= i < last :: path[i];
      forall x | x in ids
        ensures x in parents && parents[x] in ids
      {
        var i :| 0 <= i < last && path[i] == x;
        assert parents[path[i]] == path[i + 1];
        assert i + 1 == last ==> path[i + 1] in path[..last];
      }
      assert path[0] in ids;
    }
  }

  lemma {:induction false} PathStays(parents: map<string, string>, path: seq<string>, ids: set<string>, i: nat)
    requires IsPath(parents, path) && path[0] in ids && IsClosed(parents, ids) && i < |path|
    ensures path[i] in ids
  {
    if i > 0 {
      PathStays(parents, path, ids, i - 1);
      assert parents[path[i - 1]] == path[i];
    }
  }

  lemma ParentsAreOfTargets(nodes: seq<Node>, id: string) returns (k: nat)
    requires id in ParentMap(nodes)
    ensures k < |nodes| && nodes[k].id == id
  {
    HiddenHaveParents(nodes, |nodes|);
    assert id in Hidden(nodes, |nodes|);
    k :| 0 <= k < |nodes| && HasAncestor(nodes, nodes[k]) && nodes[k].id == id;
  }

  /** Where an id is trapped, one of the trapped ids stands for two targets. */
  lemma TrapSharesAnId(nodes: seq<Node>, id: string)
    requires IsTrapped(ParentMap(nodes), id)
    ensures exists x :: IsTrapped(ParentMap(nodes), x) && !Agrees(nodes, x)
  {
    var parents := ParentMap(nodes);
    var ids :| id in ids && IsClosed(parents, ids);
    var path := FollowedPath(parents, id, {});
    var last := |path| - 1;
    PathStays(parents, path, ids, last);
    var i :| 0 <= i < last && path[..last][i] == path[last];
    var k := ParentsAreOfTargets(nodes, id);
    if AgreesOn(nodes, path) {
      PathDoesNotReturn(nodes, path, k, i);
    } else {
      var j :| 0 <= j < |path| && !Agrees(nodes, path[j]);
      PathStays(parents, path, ids, j);
      assert IsTrapped(parents, path[j]);
    }
  }

  /** Follows parents until there is none, or an id comes up again. */
  method TopLevelAncestor(id: string, parents: map<string, string>) returns (top: string)
    ensures top == Follow(parents, id, {})
  {
    top := id;
    var seen: set<string> := {};
    while top in parents && top !in seen
      invariant Follow(parents, top, seen) == Follow(parents, id, {})
      decreases parents.Keys - seen
    {
      top, seen := parents[top], seen + {top};
    }
  }

  /**
   Where every id stands for one target, following parents from a target ends without ever seeing an id again, at
   a target that is not hidden: its root.
   */
  lemma FollowEndsAtRoot(nodes: seq<Node>, k: nat)
    requires IdsAgree(nodes) && k < |nodes|
    ensures var top := Follow(ParentMap(nodes), nodes[k].id, {});
      top == Root(nodes, nodes[k]).id && top !in ParentMap(nodes) && top !in Hidden(nodes, |nodes|)
  {
    var path := FollowedPath(ParentMap(nodes), nodes[k].id, {});
    TopLevelIsRoot(nodes, path, k);
    HiddenHaveParents(nodes, |nodes|);
  }

  lemma TopLevelIsRoot(nodes: seq<Node>, path: seq<string>, k: nat)
    requires IdsAgree(nodes) && k < |nodes| && IsPath(ParentMap(nodes), path) && path[0] == nodes[k].id
    requires var top := path[|path| - 1]; top in ParentMap(nodes) ==> top in path[..|path| - 1]
    ensures var top := path[|path| - 1];
      && top !in path[..|path| - 1]
      && top !in Hidden(nodes, |nodes|)
      && top == Root(nodes, nodes[k]).id
  {
    var top := path[|path| - 1];
    forall i | 0 <= i < |path| - 1
      ensures path[i] != top
    {
      PathDoesNotReturn(nodes, path, k, i);
    }
    HiddenHaveParents(nodes, |nodes|);
    var m := PathShortens(nodes, path, k);
    NearestIsLongest(nodes, nodes[m]);
  }

  lemma OnlyAncestor(nodes: seq<Node>, node: Node, k: nat)
    requires k < |nodes| && IsAncestor(node, nodes[k])
    requires forall i :: 0 <= i < |nodes| && IsAncestor(node, nodes[i]) ==> i == k
    ensures Nearest(nodes, node) == Some(nodes[k])
  {
    NearestIsLongest(nodes, node);
  }

  /** Two ids, each used for a top-level host and for a host under the other one. */
  predicate IsTangle(nodes: seq<Node>) {
    && |nodes| == 4 && nodes[0].id == nodes[1].id != nodes[2].id == nodes[3].id
    && (forall i :: 0 <= i < 4 ==> !IsAncestor(nodes[0], nodes[i]) && !IsAncestor(nodes[2], nodes[i]))
    && (forall i :: 0 <= i < 4 ==> (IsAncestor(nodes[1], nodes[i]) <==> i == 2))
    && (forall i :: 0 <= i < 4 ==> (IsAncestor(nodes[3], nodes[i]) <==> i == 0))
  }

  /** Then the parents form a cycle, and following them ends only because an id comes up again. */
  lemma SharedIdsCanCycle(nodes: seq<Node>)
    requires IsTangle(nodes)
    ensures ParentMap(nodes) == map[nodes[0].id := nodes[2].id, nodes[2].id := nodes[0].id]
    ensures !IdsAgree(nodes)
  {
    OnlyAncestor(nodes, nodes[1], 2);
    OnlyAncestor(nodes, nodes[3], 0);
    NearestIsLongest(nodes, nodes[0]);
    NearestIsLongest(nodes, nodes[2]);
    assert Parents(nodes, 1) == map[];
    assert Parents(nodes, 2) == map[nodes[0].id := nodes[2].id];
    assert Parents(nodes, 3) == Parents(nodes, 2);
  }

  /** `b` and `x.c` share an id, and so do `c` and `y.b`. */
  lemma TangleExists() returns (nodes: seq<Node>)
    ensures IsTangle(nodes)
  {
    nodes := [Node("a", "", "b"), Node("a", "", "x.c"), Node("b", "", "c"), Node("b", "", "y.b")];
    assert "x.c"[1..] == "." + "c" && "y.b"[1..] == "." + "b";
  }

  // ---------- How many targets are under one ----------

  function Under(nodes: seq<Node>, parent: Node): nat {
    if nodes == [] then 0
    else Under(nodes[..|nodes| - 1], parent) + if IsAncestor(nodes[|nodes| - 1], parent) then 1 else 0
  }

  /** The counts shown, by id, for targets that are not hidden and have something under them. */
  function ChildCounts(nodes: seq<Node>, upTo: nat): map<string, nat>
    requires upTo <= |nodes|
  {
    if upTo == 0 then map[]
    else
      var counts := ChildCounts(nodes, upTo - 1);
      var parent := nodes[upTo - 1];
      if parent.id !in Hidden(nodes, |nodes|) && Under(nodes, parent) > 0 then
        counts[parent.id := Under(nodes, parent)]
      else counts
  }

  lemma {:induction false} CountIsUnder(nodes: seq<Node>, upTo: nat, k: nat)
    requires IdsAgree(nodes) && k < |nodes| && upTo <= |nodes|
    ensures nodes[k].id in ChildCounts(nodes, upTo) <==>
      (!HasAncestor(nodes, nodes[k]) && Under(nodes, nodes[k]) > 0 && exists i :: 0 <= i < upTo && nodes[i] == nodes[k])
    ensures nodes[k].id in ChildCounts(nodes, upTo) ==> ChildCounts(nodes, upTo)[nodes[k].id] == Under(nodes, nodes[k])
  {
    if upTo > 0 {
      CountIsUnder(nodes, upTo - 1, k);
      var parent := nodes[upTo - 1];
      HiddenMeansUnder(nodes, upTo - 1);
      if parent.id == nodes[k].id {
        assert nodes[upTo - 1] == nodes[k];
      }
    }
  }

  lemma HiddenMeansUnder(nodes: seq<Node>, k: nat)
    requires IdsAgree(nodes) && k < |nodes|
    ensures nodes[k].id in Hidden(nodes, |nodes|) <==> HasAncestor(nodes, nodes[k])
  {
    if nodes[k].id in Hidden(nodes, |nodes|) {
      var i :| 0 <= i < |nodes| && HasAncestor(nodes, nodes[i]) && nodes[i].id == nodes[k].id;
      assert nodes[i] == nodes[k];
    }
  }

  /** The sum of the counts shown beside the targets. */
  function Shown(nodes: seq<Node>, counts: map<string, nat>, upTo: nat): nat
    requires upTo <= |nodes|
  {
    if upTo == 0 then 0
    else Shown(nodes, counts, upTo - 1) + if nodes[upTo - 1].id in counts then counts[nodes[upTo - 1].id] else 0
  }

  /** How many targets are hidden. */
  function HiddenCount(nodes: seq<Node>, upTo: nat): nat
    requires upTo <= |nodes|
  {
    if upTo == 0 then 0
    else HiddenCount(nodes, upTo - 1) + if nodes[upTo - 1].id in Hidden(nodes, |nodes|) then 1 else 0
  }

  predicate IsVisibleAbove(nodes: seq<Node>, node: Node, other: Node) {
    !HasAncestor(nodes, other) && IsAncestor(node, other)
  }

  /** Under how many visible ones of the first targets the target is. */
  function Above(nodes: seq<Node>, node: Node, upTo: nat): nat
    requires upTo <= |nodes|
  {
    if upTo == 0 then 0
    else Above(nodes, node, upTo - 1) + if IsVisibleAbove(nodes, node, nodes[upTo - 1]) then 1 else 0
  }

  function AllAbove(nodes: seq<Node>, some: seq<Node>, upTo: nat): nat
    requires upTo <= |nodes|
  {
    if some == [] then 0
    else AllAbove(nodes, some[..|some| - 1], upTo) + Above(nodes, some[|some| - 1], upTo)
  }

  lemma {:induction false} AllAboveNone(nodes: seq<Node>, some: seq<Node>)
    ensures AllAbove(nodes, some, 0) == 0
  {
    if some != [] {
      AllAboveNone(nodes, some[..|some| - 1]);
    }
  }

  lemma {:induction false} AllAboveStep(nodes: seq<Node>, some: seq<Node>, upTo: nat)
    requires upTo < |nodes|
    ensures AllAbove(nodes, some, upTo + 1)
         == AllAbove(nodes, some, upTo) + if HasAncestor(nodes, nodes[upTo]) then 0 else Under(some, nodes[upTo])
  {
    if some != [] {
      AllAboveStep(nodes, some[..|some| - 1], upTo);
    }
  }

  /** Counting under each visible target is counting above each target. */
  lemma {:induction false} ShownIsAbove(nodes: seq<Node>, upTo: nat)
    requires IdsAgree(nodes) && upTo <= |nodes|
    ensures Shown(nodes, ChildCounts(nodes, |nodes|), upTo) == AllAbove(nodes, nodes, upTo)
  {
    if upTo == 0 {
      AllAboveNone(nodes, nodes);
    } else {
      ShownIsAbove(nodes, upTo - 1);
      CountIsUnder(nodes, |nodes|, upTo - 1);
      AllAboveStep(nodes, nodes, upTo - 1);
    }
  }

  lemma {:induction false} SomeAbove(nodes: seq<Node>, node: Node, upTo: nat)
    requires upTo <= |nodes|
    ensures Above(nodes, node, upTo) > 0 <==> exists i :: 0 <= i < upTo && IsVisibleAbove(nodes, node, nodes[i])
  {
    if upTo > 0 {
      SomeAbove(nodes, node, upTo - 1);
    }
  }

  lemma {:induction false} TwoAbove(nodes: seq<Node>, node: Node, upTo: nat)
    requires upTo <= |nodes|
    ensures Above(nodes, node, upTo) > 1 <==>
      exists i, j :: 0 <= i < j < upTo && IsVisibleAbove(nodes, node, nodes[i]) && IsVisibleAbove(nodes, node, nodes[j])
  {
    if upTo > 0 {
      TwoAbove(nodes, node, upTo - 1);
      SomeAbove(nodes, node, upTo - 1);
    }
  }

  /** A target under another one is under a visible one. */
  lemma HiddenHasVisible(nodes: seq<Node>, k: nat)
    requires IdsAgree(nodes) && k < |nodes|
    ensures Above(nodes, nodes[k], |nodes|) > 0 <==> HasAncestor(nodes, nodes[k])
  {
    SomeAbove(nodes, nodes[k], |nodes|);
    if HasAncestor(nodes, nodes[k]) {
      RootIsTop(nodes, nodes[k]);
      var root := Root(nodes, nodes[k]);
      var i :| 0 <= i < |nodes| && nodes[i] == root;
      assert IsVisibleAbove(nodes, nodes[k], nodes[i]);
    }
  }

  /** Two visible targets of one group with one host, something under them. */
  predicate AreTwins(nodes: seq<Node>, i: nat, j: nat) {
    && i < j < |nodes| && nodes[i].group == nodes[j].group && nodes[i].host == nodes[j].host
    && !HasAncestor(nodes, nodes[i]) && !HasAncestor(nodes, nodes[j])
    && exists k :: 0 <= k < |nodes| && IsAncestor(nodes[k], nodes[i])
  }

  /** Two visible targets above one target have one host. */
  lemma VisibleAboveAgree(nodes: seq<Node>, k: nat, i: nat, j: nat)
    requires IdsAgree(nodes) && k < |nodes| && i < |nodes| && j < |nodes|
    requires IsAncestor(nodes[k], nodes[i]) && IsAncestor(nodes[k], nodes[j])
    requires !HasAncestor(nodes, nodes[i]) && !HasAncestor(nodes, nodes[j])
    ensures nodes[i].host == nodes[j].host
  {
    UnderMeansRoot(nodes, i, k);
    UnderMeansRoot(nodes, j, k);
  }

  lemma TwinsCountTwice(nodes: seq<Node>)
    requires IdsAgree(nodes)
    ensures (exists k :: 0 <= k < |nodes| && Above(nodes, nodes[k], |nodes|) > 1)
       <==> (exists i: nat, j: nat :: AreTwins(nodes, i, j))
  {
    if k :| 0 <= k < |nodes| && Above(nodes, nodes[k], |nodes|) > 1 {
      TwoAbove(nodes, nodes[k], |nodes|);
      var i, j :| 0 <= i < j < |nodes| && IsVisibleAbove(nodes, nodes[k], nodes[i])
                  && IsVisibleAbove(nodes, nodes[k], nodes[j]);
      VisibleAboveAgree(nodes, k, i, j);
      assert AreTwins(nodes, i, j);
    }
    if i: nat, j: nat :| AreTwins(nodes, i, j) {
      var k :| 0 <= k < |nodes| && IsAncestor(nodes[k], nodes[i]);
      TwoAbove(nodes, nodes[k], |nodes|);
      assert IsVisibleAbove(nodes, nodes[k], nodes[i]) && IsVisibleAbove(nodes, nodes[k], nodes[j]);
      assert Above(nodes, nodes[k], |nodes|) > 1;
    }
  }

  lemma {:induction false} AboveAddsUp(nodes: seq<Node>, upTo: nat)
    requires IdsAgree(nodes) && upTo <= |nodes|
    ensures AllAbove(nodes, nodes[..upTo], |nodes|) >= HiddenCount(nodes, upTo)
    ensures AllAbove(nodes, nodes[..upTo], |nodes|) == HiddenCount(nodes, upTo)
       <==> forall k: nat :: k < upTo ==> IsUnderAtMostOne(nodes, k)
  {
    if upTo > 0 {
      AboveAddsUp(nodes, upTo - 1);
      AboveStep(nodes, upTo - 1);
    }
  }

  predicate IsUnderAtMostOne(nodes: seq<Node>, k: nat) {
    k < |nodes| ==> Above(nodes, nodes[k], |nodes|) <= 1
  }

  lemma AboveStep(nodes: seq<Node>, k: nat)
    requires IdsAgree(nodes) && k < |nodes|
    ensures var more := AllAbove(nodes, nodes[..k + 1], |nodes|) - AllAbove(nodes, nodes[..k], |nodes|);
      var hidden := HiddenCount(nodes, k + 1) - HiddenCount(nodes, k);
      more >= hidden && (more == hidden <==> IsUnderAtMostOne(nodes, k))
  {
    assert nodes[..k + 1][..k] == nodes[..k];
    HiddenMeansUnder(nodes, k);
    HiddenHasVisible(nodes, k);
  }

  /**
   The counts shown add up to at least the number of hidden targets, and exactly to it if and only if no two visible
   targets of a group have one host and something under it.
   */
  lemma CountsMeetHidden(nodes: seq<Node>)
    requires IdsAgree(nodes)
    ensures Shown(nodes, ChildCounts(nodes, |nodes|), |nodes|) >= HiddenCount(nodes, |nodes|)
    ensures Shown(nodes, ChildCounts(nodes, |nodes|), |nodes|) == HiddenCount(nodes, |nodes|)
       <==> !exists i: nat, j: nat :: AreTwins(nodes, i, j)
  {
    ShownIsAbove(nodes, |nodes|);
    AboveAddsUp(nodes, |nodes|);
    TwinsCountTwice(nodes);
    if k :| 0 <= k < |nodes| && Above(nodes, nodes[k], |nodes|) > 1 {
      assert !IsUnderAtMostOne(nodes, k);
    }
    assert nodes[..|nodes|] == nodes;
  }

  /** What counts as under a top-level target is what has its host as root. */
  lemma UnderMeansRoot(nodes: seq<Node>, p: nat, n: nat)
    requires IdsAgree(nodes) && p < |nodes| && n < |nodes| && !HasAncestor(nodes, nodes[p]) && nodes[p].host != ""
    ensures IsAncestor(nodes[n], nodes[p]) <==>
      (nodes[n].host != nodes[p].host && nodes[n].group == nodes[p].group
       && Root(nodes, nodes[n]).host == nodes[p].host)
  {
    var root := Root(nodes, nodes[n]);
    RootIsTop(nodes, nodes[n]);
    if IsAncestor(nodes[n], nodes[p]) {
      RootIsShortest(nodes, n, p);
      assert root != nodes[n];
      EndsWithParent(nodes[n].host, root.host);
      EndsWithParent(nodes[n].host, nodes[p].host);
      if |root.host| < |nodes[p].host| {
        AncestorsAreNested(nodes[n].host, nodes[p].host, root.host);
      } else {
        SameLengthSameHost(nodes[n].host, root.host, nodes[p].host);
      }
    }
  }

  // ---------- The loops ----------

  method FindHidden(items: seq<Node>) returns (hidden: set<string>)
    ensures hidden == Hidden(Nodes(items), |Nodes(items)|)
  {
    var nodes := Nodes(items);
    hidden := {};
    for i := 0 to |nodes|
      invariant hidden == Hidden(nodes, i)
    {
      if HasAncestor(nodes, nodes[i]) {
        hidden := hidden + {nodes[i].id};
      }
    }
  }

  method FindNearest(nodes: seq<Node>, node: Node) returns (best: Option<Node>)
    ensures best == Nearest(nodes, node)
  {
    best := None;
    for i := 0 to |nodes|
      invariant best == Nearest(nodes[..i], node)
    {
      assert nodes[..i + 1][..i] == nodes[..i];
      if IsAncestor(node, nodes[i]) && (best.None? || |nodes[i].host| > |best.value.host|) {
        best := Some(nodes[i]);
      }
    }
    assert nodes[..|nodes|] == nodes;
  }

  method FindParents(items: seq<Node>) returns (parents: map<string, string>)
    ensures parents == ParentMap(Nodes(items))
  {
    var nodes := Nodes(items);
    parents := map[];
    for i := 0 to |nodes|
      invariant parents == Parents(nodes, i)
    {
      var best := FindNearest(nodes, nodes[i]);
      if best.Some? {
        parents := parents[nodes[i].id := best.value.id];
      }
    }
  }

  method CountChildren(items: seq<Node>) returns (counts: map<string, nat>)
    ensures counts == ChildCounts(Nodes(items), |Nodes(items)|)
  {
    var nodes := Nodes(items);
    var hidden := FindHidden(items);
    counts := map[];
    for i := 0 to |nodes|
      invariant counts == ChildCounts(nodes, i)
    {
      if nodes[i].id !in hidden {
        var count := Under(nodes, nodes[i]);
        if count > 0 {
          counts := counts[nodes[i].id := count];
        }
      }
    }
  }
}
