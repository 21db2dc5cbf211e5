/** The posture of domains as the dashboard shows it: rows rolled up along the forest of declared hosts. */
module DomainPosture {
  import opened Outcomes
  import opened DomainForest
  import opened PostureRollup

  function Find(nodes: seq<Node>, id: string): (found: Option<nat>)
    ensures found.Some? ==> found.value < |nodes| && nodes[found.value].id == id
    ensures found.None? ==> forall i :: 0 <= i < |nodes| ==> nodes[i].id != id
  {
    if nodes == [] then None
    else if nodes[|nodes| - 1].id == id then Some(|nodes| - 1)
    else Find(nodes[..|nodes| - 1], id)
  }

  /** The top-level domain the dashboard rolls an id up to. */
  function TopLevel(nodes: seq<Node>, id: string): string {
    Follow(ParentMap(nodes), id, {})
  }

  /** The id of the root of a target; its own id if it has no host. */
  function TopOf(nodes: seq<Node>, id: string): string {
    match Find(nodes, id)
    case None => id
    case Some(k) => Root(nodes, nodes[k]).id
  }

  /** Following parents from any id ends at its root. */
  lemma FollowingEndsAtTop(nodes: seq<Node>, id: string)
    requires IdsAgree(nodes)
    ensures TopLevel(nodes, id) == TopOf(nodes, id)
  {
    match Find(nodes, id)
    case None => HiddenHaveParents(nodes, |nodes|);
    case Some(k) => FollowEndsAtRoot(nodes, k);
  }

  /** A top is its own top, is not hidden, and is a target if the id is one. */
  lemma TopIsVisible(nodes: seq<Node>, id: string)
    requires IdsAgree(nodes)
    ensures TopOf(nodes, TopOf(nodes, id)) == TopOf(nodes, id)
    ensures TopOf(nodes, id) !in Hidden(nodes, |nodes|)
    ensures TopOf(nodes, id) == id || exists i :: 0 <= i < |nodes| && nodes[i].id == TopOf(nodes, id)
  {
    match Find(nodes, id)
    case None =>
    case Some(k) =>
      var root := Root(nodes, nodes[k]);
      RootIsTop(nodes, nodes[k]);
      var m :| 0 <= m < |nodes| && nodes[m] == root;
      NearestIsLongest(nodes, root);
      var n := Find(nodes, root.id).value;
      assert nodes[n] == nodes[m];
  }

  /** There is a row for every target that has a host. */
  predicate CoverTargets(rows: seq<Row>, nodes: seq<Node>) {
    forall i :: 0 <= i < |nodes| ==> exists j :: 0 <= j < |rows| && rows[j].id == nodes[i].id
  }

  /** Rolled up along the forest, open findings and hosts are neither lost nor counted twice. */
  lemma ForestConserves(rows: seq<Row>, nodes: seq<Node>)
    requires IdsAgree(nodes) && IdsDiffer(rows) && CoverTargets(rows, nodes)
    ensures Sum(Rolled(rows, id => TopLevel(nodes, id)), Open) == Sum(rows, Open)
    ensures Sum(Rolled(rows, id => TopLevel(nodes, id)), Hosts) == |rows|
    ensures multiset(Gathered(Roots(rows, id => TopLevel(nodes, id)), rows, id => TopLevel(nodes, id)))
      == multiset(rows)
  {
    var top := id => TopLevel(nodes, id);
    forall x | x in rows
      ensures HasDomain(rows, top, x)
    {
      TopIsVisible(nodes, x.id);
      FollowingEndsAtTop(nodes, x.id);
      FollowingEndsAtTop(nodes, TopOf(nodes, x.id));
      var j :| 0 <= j < |rows| && rows[j].id == TopOf(nodes, x.id);
      assert IsDomainRow(rows[j], top, top(x.id));
    }
    DifferentIdsLandOnce(rows, top, Open);
    DifferentIdsLandOnce(rows, top, One);
    OpenFindingsAreConserved(rows, top);
    HostCountsAreConserved(rows, top);
    LandsInOneDomain(rows, top);
  }

  /** No row of a domain is one the target list hides. */
  lemma {:induction false} DomainRowsAreVisible(rows: seq<Row>, nodes: seq<Node>, x: Row)
    requires IdsAgree(nodes) && x in Roots(rows, id => TopLevel(nodes, id))
    ensures x.id !in Hidden(nodes, |nodes|)
  {
    if rows != [] {
      var last := |rows| - 1;
      if x in Roots(rows[..last], id => TopLevel(nodes, id)) {
        DomainRowsAreVisible(rows[..last], nodes, x);
      } else {
        TopIsVisible(nodes, x.id);
        FollowingEndsAtTop(nodes, x.id);
      }
    }
  }
}
