/** Rolling posture rows up to top-level domains: what is added up, and what is neither lost nor counted twice. */
module PostureRollup {
  import opened Sorting

  datatype Status = Gap | Review | Pass | NoResult

  datatype Row = Row(id: string, value: string, status: Status, openFindings: nat, hostCount: nat, testedHostCount: nat)

  function Rank(s: Status): nat {
    match s
    case Gap => 3
    case Review => 2
    case Pass => 1
    case NoResult => 0
  }

  /** The place in the list: fixes first, then what is unproven, then what passes. */
  function Place(s: Status): nat {
    match s
    case Gap => 0
    case Review => 1
    case NoResult => 2
    case Pass => 3
  }

  /** An open finding counts as a gap. */
  function OwnStatus(row: Row): Status {
    if row.status == NoResult && row.openFindings > 0 then Gap else row.status
  }

  /** The rows whose top-level domain has the id, in order. */
  function Members(rows: seq<Row>, top: string -> string, id: string): seq<Row> {
    if rows == [] then []
    else
      var front := Members(rows[..|rows| - 1], top, id);
      if top(rows[|rows| - 1].id) == id then front + [rows[|rows| - 1]] else front
  }

  /** The rows that are their own top-level domain, in order. */
  function Roots(rows: seq<Row>, top: string -> string): seq<Row> {
    if rows == [] then []
    else
      var front := Roots(rows[..|rows| - 1], top);
      if top(rows[|rows| - 1].id) == rows[|rows| - 1].id then front + [rows[|rows| - 1]] else front
  }

  function Worst(members: seq<Row>): Status {
    if members == [] then NoResult
    else
      var worst := Worst(members[..|members| - 1]);
      var own := OwnStatus(members[|members| - 1]);
      if Rank(own) > Rank(worst) then own else worst
  }

  function Sum(rows: seq<Row>, amount: Row -> nat): nat {
    if rows == [] then 0 else Sum(rows[..|rows| - 1], amount) + amount(rows[|rows| - 1])
  }

  function Tested(row: Row): nat {
    if OwnStatus(row) != NoResult then 1 else 0
  }

  function One(row: Row): nat {
    1
  }

  function Open(row: Row): nat {
    row.openFindings
  }

  function Hosts(row: Row): nat {
    row.hostCount
  }

  function TestedHosts(row: Row): nat {
    row.testedHostCount
  }

  /** The row of a domain, with its members folded in. */
  function Fold(row: Row, members: seq<Row>): Row {
    row.(status := Worst(members), openFindings := Sum(members, Open), hostCount := |members|,
         testedHostCount := Sum(members, Tested))
  }

  function FoldAll(roots: seq<Row>, rows: seq<Row>, top: string -> string): seq<Row> {
    if roots == [] then []
    else
      var last := roots[|roots| - 1];
      FoldAll(roots[..|roots| - 1], rows, top) + [Fold(last, Members(rows, top, last.id))]
  }

  /** One row for each domain, before they are put in order. */
  function Rolled(rows: seq<Row>, top: string -> string): seq<Row> {
    FoldAll(Roots(rows, top), rows, top)
  }

  predicate InOrder(values: (string, string) -> bool, a: Row, b: Row) {
    Place(a.status) < Place(b.status) || (Place(a.status) == Place(b.status) && values(a.value, b.value))
  }

  // ---------- Status ----------

  /** A domain reads "no result" exactly when no member has a result and none has an open finding. */
  lemma {:induction false} WorstIsNoResult(members: seq<Row>)
    ensures Worst(members) == NoResult <==>
      forall i :: 0 <= i < |members| ==> members[i].status == NoResult && members[i].openFindings == 0
  {
    if members != [] {
      WorstIsNoResult(members[..|members| - 1]);
      assert members == members[..|members| - 1] + [members[|members| - 1]];
    }
  }

  /** The status of a domain is the worst of its members. */
  lemma {:induction false} WorstIsWorst(members: seq<Row>)
    ensures forall i :: 0 <= i < |members| ==> Rank(OwnStatus(members[i])) <= Rank(Worst(members))
    ensures members != [] ==> exists i :: 0 <= i < |members| && OwnStatus(members[i]) == Worst(members)
  {
    if members != [] {
      var last := |members| - 1;
      WorstIsWorst(members[..last]);
      assert members == members[..last] + [members[last]];
      if Worst(members) != OwnStatus(members[last]) && last > 0 {
        var i :| 0 <= i < last && OwnStatus(members[..last][i]) == Worst(members[..last]);
        assert OwnStatus(members[i]) == Worst(members);
      }
    }
  }

  /** An evidence-backed gap, or open findings without a result. */
  predicate ShowsGap(row: Row) {
    row.status == Gap || (row.status == NoResult && row.openFindings > 0)
  }

  predicate SomeIs(members: seq<Row>, status: Status) {
    exists i :: 0 <= i < |members| && members[i].status == status
  }

  /** What each status of a domain says of its members. */
  lemma WorstMeans(members: seq<Row>)
    ensures Worst(members) == Gap <==> exists i :: 0 <= i < |members| && ShowsGap(members[i])
    ensures Worst(members) == Review <==>
      SomeIs(members, Review) && forall i :: 0 <= i < |members| ==> !ShowsGap(members[i])
    ensures Worst(members) == Pass <==>
      && SomeIs(members, Pass) && !SomeIs(members, Review)
      && forall i :: 0 <= i < |members| ==> !ShowsGap(members[i])
  {
    WorstIsWorst(members);
    WorstIsNoResult(members);
    if members != [] {
      var i :| 0 <= i < |members| && OwnStatus(members[i]) == Worst(members);
      assert OwnStatus(members[i]) != Gap ==> members[i].status == OwnStatus(members[i]);
    }
    forall j | 0 <= j < |members|
      ensures ShowsGap(members[j]) <==> OwnStatus(members[j]) == Gap
      ensures Rank(OwnStatus(members[j])) <= Rank(Worst(members))
    {
    }
  }

  /** The status a row is built with: a passing run does not settle a target that has open findings. */
  function BuiltStatus(verdict: Status, openFindings: nat): Status {
    if verdict == Pass && openFindings > 0 then Review else verdict
  }

  predicate IsBuilt(row: Row) {
    exists verdict :: row.status == BuiltStatus(verdict, row.openFindings)
  }

  /** Only a pass is changed, and only by open findings. */
  lemma BuiltMeans(verdict: Status, openFindings: nat)
    ensures BuiltStatus(verdict, openFindings) == Pass <==> verdict == Pass && openFindings == 0
    ensures BuiltStatus(verdict, openFindings) == Review <==> verdict == Review || (verdict == Pass && openFindings > 0)
    ensures BuiltStatus(verdict, openFindings) == Gap <==> verdict == Gap
  {
  }

  /** An open finding anywhere in a domain makes the domain read gap or review, whatever else passes. */
  lemma OpenFindingShows(members: seq<Row>, i: nat)
    requires i < |members| && IsBuilt(members[i]) && members[i].openFindings > 0
    ensures Worst(members) == Gap || Worst(members) == Review
  {
    WorstIsWorst(members);
    assert Rank(OwnStatus(members[i])) >= 2;
  }

  // ---------- Nothing lost, nothing twice ----------

  /** All members of all domains. */
  function Gathered(roots: seq<Row>, rows: seq<Row>, top: string -> string): seq<Row> {
    if roots == [] then []
    else Gathered(roots[..|roots| - 1], rows, top) + Members(rows, top, roots[|roots| - 1].id)
  }

  /** How many of the rows have the id. */
  function Named(rows: seq<Row>, id: string): nat {
    if rows == [] then 0 else Named(rows[..|rows| - 1], id) + if rows[|rows| - 1].id == id then 1 else 0
  }

  lemma {:induction false} MembersHold(rows: seq<Row>, top: string -> string, id: string, x: Row)
    ensures multiset(Members(rows, top, id))[x] == if top(x.id) == id then multiset(rows)[x] else 0
  {
    if rows != [] {
      var last := |rows| - 1;
      MembersHold(rows[..last], top, id, x);
      assert rows == rows[..last] + [rows[last]];
      assert multiset(rows) == multiset(rows[..last]) + multiset{rows[last]};
      if top(rows[last].id) == id {
        assert multiset(Members(rows, top, id)) == multiset(Members(rows[..last], top, id)) + multiset{rows[last]};
      }
    }
  }

  /** Every row is gathered once for each domain row with the id of its top. */
  lemma {:induction false} GatheredHold(roots: seq<Row>, rows: seq<Row>, top: string -> string, x: Row)
    ensures multiset(Gathered(roots, rows, top))[x] == multiset(rows)[x] * Named(roots, top(x.id))
  {
    if roots != [] {
      var last := |roots| - 1;
      GatheredHold(roots[..last], rows, top, x);
      MembersHold(rows, top, roots[last].id, x);
      assert multiset(Gathered(roots, rows, top))
          == multiset(Gathered(roots[..last], rows, top)) + multiset(Members(rows, top, roots[last].id));
      Spread(multiset(rows)[x], Named(roots[..last], top(x.id)), if roots[last].id == top(x.id) then 1 else 0);
    }
  }

  lemma Spread(n: nat, a: nat, b: nat)
    ensures n * (a + b) == n * a + n * b
  {
  }

  lemma {:induction false} SumOfBoth(a: seq<Row>, b: seq<Row>, amount: Row -> nat)
    ensures Sum(a + b, amount) == Sum(a, amount) + Sum(b, amount)
  {
    if b == [] {
      assert a + b == a;
    } else {
      var last := |b| - 1;
      assert (a + b)[..|a + b| - 1] == a + b[..last];
      SumOfBoth(a, b[..last], amount);
    }
  }

  lemma SplitAt(rows: seq<Row>, i: nat)
    requires i < |rows|
    ensures rows == rows[..i] + ([rows[i]] + rows[i + 1..])
  {
  }

  lemma TakenOut(front: seq<Row>, row: Row, back: seq<Row>, amount: Row -> nat)
    ensures multiset(front + ([row] + back)) == multiset(front + back) + multiset{row}
    ensures Sum(front + ([row] + back), amount) == Sum(front + back, amount) + amount(row)
  {
    SumOfBoth(front, [row] + back, amount);
    SumOfBoth([row], back, amount);
    SumOfBoth(front, back, amount);
    SumOfOne(row, amount);
  }

  lemma LastIsOut(rows: seq<Row>)
    requires rows != []
    ensures multiset(rows) == multiset(rows[..|rows| - 1]) + multiset{rows[|rows| - 1]}
  {
    assert rows == rows[..|rows| - 1] + [rows[|rows| - 1]];
  }

  lemma CancelOne(a: multiset<Row>, b: multiset<Row>, row: Row)
    requires a + multiset{row} == b + multiset{row}
    ensures a == b
  {
    assert a == a + multiset{row} - multiset{row};
    assert b == b + multiset{row} - multiset{row};
  }

  /** A sum does not depend on the order. */
  lemma {:induction false} SumOfSame(a: seq<Row>, b: seq<Row>, amount: Row -> nat)
    requires multiset(a) == multiset(b)
    ensures Sum(a, amount) == Sum(b, amount)
  {
    SameElements(a, b);
    if a != [] {
      var last := |a| - 1;
      assert a[last] in b;
      var i :| 0 <= i < |b| && b[i] == a[last];
      var front, back := b[..i], b[i + 1..];
      SplitAt(b, i);
      TakenOut(front, b[i], back, amount);
      LastIsOut(a);
      CancelOne(multiset(a[..last]), multiset(front + back), b[i]);
      SumOfSame(a[..last], front + back, amount);
    }
  }

  lemma SumOfOne(row: Row, amount: Row -> nat)
    ensures Sum([row], amount) == amount(row)
  {
    assert [row][..0] == [];
  }

  /** What the domains show adds up to what was gathered. */
  lemma {:induction false} FoldsAddUp(roots: seq<Row>, rows: seq<Row>, top: string -> string)
    ensures Sum(FoldAll(roots, rows, top), Open) == Sum(Gathered(roots, rows, top), Open)
    ensures Sum(FoldAll(roots, rows, top), Hosts) == |Gathered(roots, rows, top)|
    ensures Sum(FoldAll(roots, rows, top), TestedHosts) == Sum(Gathered(roots, rows, top), Tested)
  {
    if roots != [] {
      var last := |roots| - 1;
      FoldsAddUp(roots[..last], rows, top);
      SumOfBoth(Gathered(roots[..last], rows, top), Members(rows, top, roots[last].id), Open);
      SumOfBoth(Gathered(roots[..last], rows, top), Members(rows, top, roots[last].id), Tested);
      var folds := FoldAll(roots, rows, top);
      assert folds[..|folds| - 1] == FoldAll(roots[..last], rows, top);
    }
  }

  /** The rows that have a domain row among the roots, or those that have none. */
  function Having(rows: seq<Row>, roots: seq<Row>, top: string -> string, domain: bool): seq<Row> {
    if rows == [] then []
    else
      var last := rows[|rows| - 1];
      var front := Having(rows[..|rows| - 1], roots, top, domain);
      if (Named(roots, top(last.id)) > 0) == domain then front + [last] else front
  }

  lemma {:induction false} HavingSplits(rows: seq<Row>, roots: seq<Row>, top: string -> string, amount: Row -> nat)
    ensures Sum(rows, amount)
         == Sum(Having(rows, roots, top, true), amount) + Sum(Having(rows, roots, top, false), amount)
  {
    if rows != [] {
      var last := |rows| - 1;
      HavingSplits(rows[..last], roots, top, amount);
      var domain := Named(roots, top(rows[last].id)) > 0;
      var grown := Having(rows, roots, top, domain);
      assert grown[..|grown| - 1] == Having(rows[..last], roots, top, domain);
    }
  }

  lemma {:induction false} HavingHolds(rows: seq<Row>, roots: seq<Row>, top: string -> string, domain: bool, x: Row)
    ensures multiset(Having(rows, roots, top, domain))[x]
         == if (Named(roots, top(x.id)) > 0) == domain then multiset(rows)[x] else 0
  {
    if rows != [] {
      var last := |rows| - 1;
      HavingHolds(rows[..last], roots, top, domain, x);
      assert rows == rows[..last] + [rows[last]];
      assert multiset(rows) == multiset(rows[..last]) + multiset{rows[last]};
    }
  }

  lemma {:induction false} SumIsZero(rows: seq<Row>, amount: Row -> nat)
    ensures Sum(rows, amount) == 0 <==> forall x :: x in rows ==> amount(x) == 0
  {
    if rows != [] {
      SumIsZero(rows[..|rows| - 1], amount);
      assert rows == rows[..|rows| - 1] + [rows[|rows| - 1]];
    }
  }

  predicate IdsDiffer(rows: seq<Row>) {
    forall i, j :: 0 <= i < j < |rows| ==> rows[i].id != rows[j].id
  }

  /** The row is that of the domain with this id. */
  predicate IsDomainRow(row: Row, top: string -> string, id: string) {
    row.id == id && top(row.id) == row.id
  }

  /** The row's top-level domain is listed, as its own top-level domain. */
  predicate HasDomain(rows: seq<Row>, top: string -> string, row: Row) {
    exists i :: 0 <= i < |rows| && IsDomainRow(rows[i], top, top(row.id))
  }

  lemma RootsNamedStep(rows: seq<Row>, top: string -> string, id: string)
    requires rows != []
    ensures var last := |rows| - 1;
      Named(Roots(rows, top), id) == Named(Roots(rows[..last], top), id)
        + if IsDomainRow(rows[last], top, id) then 1 else 0
  {
    var last := |rows| - 1;
    var roots := Roots(rows, top);
    if top(rows[last].id) == rows[last].id {
      assert roots[..|roots| - 1] == Roots(rows[..last], top);
    }
  }

  lemma {:induction false} RootsNamed(rows: seq<Row>, top: string -> string, id: string)
    ensures Named(Roots(rows, top), id) > 0 <==> exists i :: 0 <= i < |rows| && IsDomainRow(rows[i], top, id)
  {
    if rows != [] {
      var last := |rows| - 1;
      var front := rows[..last];
      RootsNamed(front, top, id);
      RootsNamedStep(rows, top, id);
      if i :| 0 <= i < last && IsDomainRow(front[i], top, id) {
        assert IsDomainRow(rows[i], top, id);
      }
      if i :| 0 <= i < last && IsDomainRow(rows[i], top, id) {
        assert IsDomainRow(front[i], top, id);
      }
    }
  }

  lemma TimesOnce(m: nat, n: nat)
    requires n <= 1
    ensures m * n == if n > 0 then m else 0
  {
  }

  lemma GatheredAt(rows: seq<Row>, top: string -> string, x: Row)
    requires IdsDiffer(rows)
    ensures multiset(Gathered(Roots(rows, top), rows, top))[x] == multiset(Having(rows, Roots(rows, top), top, true))[x]
  {
    var n := Named(Roots(rows, top), top(x.id));
    GatheredHold(Roots(rows, top), rows, top, x);
    HavingHolds(rows, Roots(rows, top), top, true, x);
    RootsNamedOnce(rows, top, x);
    TimesOnce(multiset(rows)[x], n);
  }

  /** With different ids, exactly the rows whose domain is listed are gathered, each once. */
  lemma GatheredOnce(rows: seq<Row>, top: string -> string)
    requires IdsDiffer(rows)
    ensures multiset(Gathered(Roots(rows, top), rows, top)) == multiset(Having(rows, Roots(rows, top), top, true))
  {
    forall x
      ensures multiset(Gathered(Roots(rows, top), rows, top))[x]
        == multiset(Having(rows, Roots(rows, top), top, true))[x]
    {
      GatheredAt(rows, top, x);
    }
  }

  /** How much of the amount is counted again, by rows whose domain is listed more than once. */
  function Again(rows: seq<Row>, roots: seq<Row>, top: string -> string, amount: Row -> nat): nat {
    if rows == [] then 0
    else Again(rows[..|rows| - 1], roots, top, amount) + Extra(rows[|rows| - 1], roots, top, amount)
  }

  function Extra(row: Row, roots: seq<Row>, top: string -> string, amount: Row -> nat): (extra: nat)
    ensures extra == 0 <==> amount(row) == 0 || Named(roots, top(row.id)) <= 1
  {
    var times := Named(roots, top(row.id));
    if times > 0 then
      ProductIsZero(amount(row), times - 1);
      amount(row) * (times - 1)
    else 0
  }

  /** What is counted, with every row as often as its domain is listed. */
  function Counted(rows: seq<Row>, roots: seq<Row>, top: string -> string, amount: Row -> nat): nat {
    if rows == [] then 0
    else
      var last := rows[|rows| - 1];
      Counted(rows[..|rows| - 1], roots, top, amount) + amount(last) * Named(roots, top(last.id))
  }

  lemma {:induction false} CountedSplits(rows: seq<Row>, roots: seq<Row>, top: string -> string, amount: Row -> nat)
    ensures Counted(rows, roots, top, amount) + Sum(Having(rows, roots, top, false), amount)
         == Sum(rows, amount) + Again(rows, roots, top, amount)
  {
    if rows != [] {
      var last := |rows| - 1;
      CountedSplits(rows[..last], roots, top, amount);
      var times := Named(roots, top(rows[last].id));
      if times == 0 {
        var grown := Having(rows, roots, top, false);
        assert grown[..|grown| - 1] == Having(rows[..last], roots, top, false);
      } else {
        Spread(amount(rows[last]), times - 1, 1);
      }
    }
  }

  lemma {:induction false} CountedWithRoot(rows: seq<Row>, roots: seq<Row>, root: Row, top: string -> string,
                                           amount: Row -> nat)
    ensures Counted(rows, roots + [root], top, amount)
         == Counted(rows, roots, top, amount) + Sum(Members(rows, top, root.id), amount)
  {
    if rows != [] {
      var last := |rows| - 1;
      CountedWithRoot(rows[..last], roots, root, top, amount);
      var members := Members(rows, top, root.id);
      var own := if root.id == top(rows[last].id) then 1 else 0;
      assert (roots + [root])[..|roots|] == roots;
      Spread(amount(rows[last]), Named(roots, top(rows[last].id)), own);
      assert own == 1 ==> members[..|members| - 1] == Members(rows[..last], top, root.id);
    }
  }

  lemma {:induction false} CountedByNobody(rows: seq<Row>, top: string -> string, amount: Row -> nat)
    ensures Counted(rows, [], top, amount) == 0
  {
    if rows != [] {
      CountedByNobody(rows[..|rows| - 1], top, amount);
    }
  }

  lemma {:induction false} GatheredIsCounted(roots: seq<Row>, rows: seq<Row>, top: string -> string, amount: Row -> nat)
    ensures Sum(Gathered(roots, rows, top), amount) == Counted(rows, roots, top, amount)
  {
    if roots == [] {
      CountedByNobody(rows, top, amount);
    } else {
      var last := |roots| - 1;
      GatheredIsCounted(roots[..last], rows, top, amount);
      SumOfBoth(Gathered(roots[..last], rows, top), Members(rows, top, roots[last].id), amount);
      CountedWithRoot(rows, roots[..last], roots[last], top, amount);
      assert roots == roots[..last] + [roots[last]];
    }
  }

  lemma {:induction false} AgainIsZero(rows: seq<Row>, roots: seq<Row>, top: string -> string, amount: Row -> nat)
    ensures Again(rows, roots, top, amount) == 0
       <==> forall x :: x in rows && amount(x) > 0 ==> Named(roots, top(x.id)) <= 1
  {
    if rows != [] {
      var last := |rows| - 1;
      AgainIsZero(rows[..last], roots, top, amount);
      assert rows == rows[..last] + [rows[last]];
    }
  }

  lemma ProductIsZero(m: nat, n: nat)
    ensures m * n == 0 <==> m == 0 || n == 0
  {
  }

  /** What the rows without a domain have of the amount. */
  function Lost(rows: seq<Row>, top: string -> string, amount: Row -> nat): nat {
    Sum(Having(rows, Roots(rows, top), top, false), amount)
  }

  /** What the rows whose domain is listed more than once have of it, for every time after the first. */
  function Repeated(rows: seq<Row>, top: string -> string, amount: Row -> nat): nat {
    Again(rows, Roots(rows, top), top, amount)
  }

  /** At most one row is the row's domain. */
  predicate LandsAtMostOnce(rows: seq<Row>, top: string -> string, row: Row) {
    !exists i, j ::
      0 <= i < j < |rows| && IsDomainRow(rows[i], top, top(row.id)) && IsDomainRow(rows[j], top, top(row.id))
  }

  /** Every row with some of the amount has its domain listed. */
  predicate NoneIsLost(rows: seq<Row>, top: string -> string, amount: Row -> nat) {
    forall x :: x in rows && amount(x) > 0 ==> HasDomain(rows, top, x)
  }

  predicate NoneIsRepeated(rows: seq<Row>, top: string -> string, amount: Row -> nat) {
    forall x :: x in rows && amount(x) > 0 ==> LandsAtMostOnce(rows, top, x)
  }

  lemma {:induction false} RootsNamedOnce(rows: seq<Row>, top: string -> string, row: Row)
    ensures Named(Roots(rows, top), top(row.id)) <= 1 <==> LandsAtMostOnce(rows, top, row)
  {
    if rows != [] {
      RootsNamedOnce(rows[..|rows| - 1], top, row);
      RootsNamed(rows[..|rows| - 1], top, top(row.id));
      RootsNamedStep(rows, top, top(row.id));
      LandsStep(rows, top, row);
    }
  }

  lemma LandsStep(rows: seq<Row>, top: string -> string, row: Row)
    requires rows != []
    ensures var front, id := rows[..|rows| - 1], top(row.id);
      LandsAtMostOnce(rows, top, row) <==>
        && LandsAtMostOnce(front, top, row)
        && !(IsDomainRow(rows[|rows| - 1], top, id) && exists i :: 0 <= i < |front| && IsDomainRow(front[i], top, id))
  {
    var last, id := |rows| - 1, top(row.id);
    var front := rows[..last];
    assert forall i :: 0 <= i < last ==> front[i] == rows[i];
    if !LandsAtMostOnce(front, top, row) {
      var i, j :| 0 <= i < j < last && IsDomainRow(front[i], top, id) && IsDomainRow(front[j], top, id);
      assert IsDomainRow(rows[i], top, id) && IsDomainRow(rows[j], top, id);
    }
    if i :| 0 <= i < last && IsDomainRow(front[i], top, id) {
      assert IsDomainRow(rows[i], top, id);
    }
    if i, j :| 0 <= i < j < |rows| && IsDomainRow(rows[i], top, id) && IsDomainRow(rows[j], top, id) {
      assert IsDomainRow(front[i], top, id);
      assert j < last ==> IsDomainRow(front[j], top, id);
    }
  }

  lemma LostIsZero(rows: seq<Row>, top: string -> string, amount: Row -> nat)
    ensures Lost(rows, top, amount) == 0 <==> NoneIsLost(rows, top, amount)
  {
    var others := Having(rows, Roots(rows, top), top, false);
    SumIsZero(others, amount);
    forall x
      ensures x in others <==> x in rows && !HasDomain(rows, top, x)
    {
      HavingHolds(rows, Roots(rows, top), top, false, x);
      RootsNamed(rows, top, top(x.id));
      assert x in others <==> multiset(others)[x] > 0;
      assert x in rows <==> multiset(rows)[x] > 0;
    }
  }

  lemma RepeatedIsZero(rows: seq<Row>, top: string -> string, amount: Row -> nat)
    ensures Repeated(rows, top, amount) == 0 <==> NoneIsRepeated(rows, top, amount)
  {
    AgainIsZero(rows, Roots(rows, top), top, amount);
    forall x: Row
      ensures Named(Roots(rows, top), top(x.id)) <= 1 <==> LandsAtMostOnce(rows, top, x)
    {
      RootsNamedOnce(rows, top, x);
    }
  }

  /** What is shown and what is lost make up the total and what is repeated, for all rows whatsoever. */
  lemma GatheredAccounts(rows: seq<Row>, top: string -> string, amount: Row -> nat)
    ensures Sum(Gathered(Roots(rows, top), rows, top), amount) + Lost(rows, top, amount)
         == Sum(rows, amount) + Repeated(rows, top, amount)
    ensures Lost(rows, top, amount) == 0 <==> NoneIsLost(rows, top, amount)
    ensures Repeated(rows, top, amount) == 0 <==> NoneIsRepeated(rows, top, amount)
  {
    GatheredIsCounted(Roots(rows, top), rows, top, amount);
    CountedSplits(rows, Roots(rows, top), top, amount);
    LostIsZero(rows, top, amount);
    RepeatedIsZero(rows, top, amount);
  }

  lemma {:induction false} SumOfOnes(rows: seq<Row>)
    ensures Sum(rows, One) == |rows|
  {
    if rows != [] {
      SumOfOnes(rows[..|rows| - 1]);
    }
  }

  /**
   Open findings add up to the total exactly when what is lost equals what is repeated: if none is repeated, exactly
   when every row with an open finding has its domain listed; if none is lost, exactly when no such row has it twice.
   */
  lemma OpenFindingsAreConserved(rows: seq<Row>, top: string -> string)
    ensures Sum(Rolled(rows, top), Open) == Sum(rows, Open) <==> Lost(rows, top, Open) == Repeated(rows, top, Open)
    ensures NoneIsRepeated(rows, top, Open) ==>
      (Sum(Rolled(rows, top), Open) == Sum(rows, Open) <==> NoneIsLost(rows, top, Open))
    ensures NoneIsLost(rows, top, Open) ==>
      (Sum(Rolled(rows, top), Open) == Sum(rows, Open) <==> NoneIsRepeated(rows, top, Open))
  {
    FoldsAddUp(Roots(rows, top), rows, top);
    GatheredAccounts(rows, top, Open);
  }

  /** Host counts add up to the number of rows in the same cases, with every row counting as one host. */
  lemma HostCountsAreConserved(rows: seq<Row>, top: string -> string)
    ensures Sum(Rolled(rows, top), Hosts) == |rows| <==> Lost(rows, top, One) == Repeated(rows, top, One)
    ensures NoneIsRepeated(rows, top, One) ==> (Sum(Rolled(rows, top), Hosts) == |rows| <==> NoneIsLost(rows, top, One))
    ensures NoneIsLost(rows, top, One) ==> (Sum(Rolled(rows, top), Hosts) == |rows| <==> NoneIsRepeated(rows, top, One))
  {
    FoldsAddUp(Roots(rows, top), rows, top);
    GatheredAccounts(rows, top, One);
    SumOfOnes(rows);
    SumOfOnes(Gathered(Roots(rows, top), rows, top));
  }

  /** Tested hosts add up in the same cases, with every row that has a result of its own counting as one. */
  lemma TestedHostsAreConserved(rows: seq<Row>, top: string -> string)
    ensures Sum(Rolled(rows, top), TestedHosts) == Sum(rows, Tested)
       <==> Lost(rows, top, Tested) == Repeated(rows, top, Tested)
    ensures NoneIsRepeated(rows, top, Tested) ==>
      (Sum(Rolled(rows, top), TestedHosts) == Sum(rows, Tested) <==> NoneIsLost(rows, top, Tested))
    ensures NoneIsLost(rows, top, Tested) ==>
      (Sum(Rolled(rows, top), TestedHosts) == Sum(rows, Tested) <==> NoneIsRepeated(rows, top, Tested))
  {
    FoldsAddUp(Roots(rows, top), rows, top);
    GatheredAccounts(rows, top, Tested);
  }

  /** Each row is a member of exactly one domain if and only if every row has its domain listed, and listed once. */
  lemma LandsInOneDomain(rows: seq<Row>, top: string -> string)
    ensures multiset(Gathered(Roots(rows, top), rows, top)) == multiset(rows)
       <==> NoneIsLost(rows, top, One) && NoneIsRepeated(rows, top, One)
  {
    var gathered := Gathered(Roots(rows, top), rows, top);
    forall x: Row
      ensures multiset(gathered)[x] == multiset(rows)[x]
         <==> x !in rows || (HasDomain(rows, top, x) && LandsAtMostOnce(rows, top, x))
    {
      IsMemberOnce(rows, top, x);
    }
    if multiset(gathered) == multiset(rows) {
      forall x | x in rows
        ensures HasDomain(rows, top, x) && LandsAtMostOnce(rows, top, x)
      {
        assert multiset(gathered)[x] == multiset(rows)[x];
      }
    }
  }

  lemma IsMemberOnce(rows: seq<Row>, top: string -> string, x: Row)
    ensures multiset(Gathered(Roots(rows, top), rows, top))[x] == multiset(rows)[x]
       <==> x !in rows || (HasDomain(rows, top, x) && LandsAtMostOnce(rows, top, x))
  {
    var times := Named(Roots(rows, top), top(x.id));
    GatheredHold(Roots(rows, top), rows, top, x);
    RootsNamed(rows, top, top(x.id));
    RootsNamedOnce(rows, top, x);
    TimesIsSame(multiset(rows)[x], times);
    assert x in rows <==> multiset(rows)[x] > 0;
  }

  lemma TimesIsSame(m: nat, n: nat)
    ensures m == m * n <==> m == 0 || n == 1
  {
  }

  lemma DifferentIdsLandOnce(rows: seq<Row>, top: string -> string, amount: Row -> nat)
    requires IdsDiffer(rows)
    ensures NoneIsRepeated(rows, top, amount)
  {
  }

  // ---------- Totals that do not add up ----------

  /** A row whose domain is not listed is lost. */
  lemma MissingDomainLoses(row: Row, top: string -> string)
    requires top(row.id) != row.id
    ensures Rolled([row], top) == [] && Sum(Rolled([row], top), Hosts) == 0
    ensures Sum(Rolled([row], top), Open) == 0 && Sum([row], Open) == row.openFindings
  {
    assert [row][..0] == [];
    assert Roots([row], top) == [];
  }

  /** Two rows that share the id of a domain both have it listed, and everything they have is counted twice. */
  lemma SharedIdDoubles(a: Row, b: Row, top: string -> string)
    requires a.id == b.id == top(a.id)
    ensures forall x :: x in [a, b] ==> HasDomain([a, b], top, x)
    ensures Sum(Rolled([a, b], top), Open) == 2 * Sum([a, b], Open)
    ensures Sum(Rolled([a, b], top), Hosts) == 4
  {
    var rows := [a, b];
    assert rows[..1] == [a] && [a][..0] == [];
    assert Roots([a], top) == [a] && Roots(rows, top) == rows;
    assert Members([a], top, a.id) == [a] && Members(rows, top, a.id) == rows;
    FoldsAddUp(rows, rows, top);
    assert Gathered([a], rows, top) == [] + rows;
    assert Gathered(rows, rows, top) == rows + rows;
    SumOfBoth(rows, rows, Open);
    assert rows[0].id == top(a.id);
  }

  // ---------- The loops ----------

  /** The rows of each top-level domain. */
  method GroupByTop(rows: seq<Row>, top: string -> string) returns (byTop: map<string, seq<Row>>)
    ensures forall id :: id in byTop <==> Members(rows, top, id) != []
    ensures forall id :: id in byTop ==> byTop[id] == Members(rows, top, id)
  {
    byTop := map[];
    for i := 0 to |rows|
      invariant forall id :: id in byTop <==> Members(rows[..i], top, id) != []
      invariant forall id :: id in byTop ==> byTop[id] == Members(rows[..i], top, id)
    {
      assert rows[..i + 1][..i] == rows[..i];
      var id := top(rows[i].id);
      var held := if id in byTop then byTop[id] else [];
      byTop := byTop[id := held + [rows[i]]];
    }
    assert rows[..|rows|] == rows;
  }

  lemma {:induction false} RootIsMember(rows: seq<Row>, top: string -> string, row: Row)
    requires row in rows
    ensures Members(rows, top, top(row.id)) != []
  {
    var last := |rows| - 1;
    assert rows == rows[..last] + [rows[last]];
    if row in rows[..last] {
      RootIsMember(rows[..last], top, row);
    }
  }

  /** One row for each top-level domain with its members folded in, worst first, equal ones by value. */
  method RollUp(rows: seq<Row>, top: string -> string, values: (string, string) -> bool) returns (domains: seq<Row>)
    ensures domains == Sort(Rolled(rows, top), (a, b) => InOrder(values, a, b))
  {
    var byTop := GroupByTop(rows, top);
    domains := [];
    for i := 0 to |rows|
      invariant domains == FoldAll(Roots(rows[..i], top), rows, top)
    {
      assert rows[..i + 1][..i] == rows[..i];
      if top(rows[i].id) == rows[i].id {
        RootIsMember(rows, top, rows[i]);
        ghost var roots := Roots(rows[..i + 1], top);
        assert roots[..|roots| - 1] == Roots(rows[..i], top);
        domains := domains + [Fold(rows[i], byTop[rows[i].id])];
      }
    }
    assert rows[..|rows|] == rows;
    domains := Sort(domains, (a, b) => InOrder(values, a, b));
  }

  const LISTED: seq<Status> := [Gap, Review, NoResult, Pass]

  predicate IsListedBefore(a: Status, b: Status) {
    exists i, j :: 0 <= i < j < |LISTED| && LISTED[i] == a && LISTED[j] == b
  }

  /** Fixes come first, then what needs review, then what is unproven, then what passes; equal ones by value. */
  lemma OrderMeans(values: (string, string) -> bool, a: Row, b: Row)
    ensures InOrder(values, a, b) <==>
      IsListedBefore(a.status, b.status) || (a.status == b.status && values(a.value, b.value))
  {
    assert LISTED[Place(a.status)] == a.status && LISTED[Place(b.status)] == b.status;
    assert forall i :: 0 <= i < |LISTED| ==> Place(LISTED[i]) == i;
  }

  lemma {:induction false} RootsHold(rows: seq<Row>, top: string -> string, x: Row)
    ensures multiset(Roots(rows, top))[x] == if top(x.id) == x.id then multiset(rows)[x] else 0
  {
    if rows != [] {
      var last := |rows| - 1;
      RootsHold(rows[..last], top, x);
      assert rows == rows[..last] + [rows[last]];
      assert multiset(rows) == multiset(rows[..last]) + multiset{rows[last]};
    }
  }

  /** Which members count as tested. */
  lemma TestedMeans(row: Row)
    ensures Tested(row) == if row.status != NoResult || row.openFindings > 0 then 1 else 0
  {
  }

  /** Every domain keeps its id and value, and shows what its members add up to. */
  lemma {:induction false} RolledRow(roots: seq<Row>, rows: seq<Row>, top: string -> string, i: nat)
    requires i < |roots|
    ensures |FoldAll(roots, rows, top)| == |roots|
    ensures var row, members := FoldAll(roots, rows, top)[i], Members(rows, top, roots[i].id);
      && row.id == roots[i].id && row.value == roots[i].value && row.status == Worst(members)
      && row.openFindings == Sum(members, Open) && row.testedHostCount == Sum(members, Tested)
      && row.hostCount == |members|
  {
    var last := |roots| - 1;
    if last > 0 {
      RolledRow(roots[..last], rows, top, if i < last then i else 0);
    }
  }

  /** The list is in order and holds exactly the rolled-up rows. */
  lemma RolledUpInOrder(rows: seq<Row>, top: string -> string, values: (string, string) -> bool)
    requires IsPreorder(values)
    ensures var domains := Sort(Rolled(rows, top), (a, b) => InOrder(values, a, b));
      && IsSorted(domains, (a, b) => InOrder(values, a, b))
      && multiset(domains) == multiset(Rolled(rows, top))
      && Sum(domains, Open) == Sum(Rolled(rows, top), Open)
      && Sum(domains, Hosts) == Sum(Rolled(rows, top), Hosts)
  {
    var order := (a, b) => InOrder(values, a, b);
    SortSorts(Rolled(rows, top), order);
    SumOfSame(Sort(Rolled(rows, top), order), Rolled(rows, top), Open);
    SumOfSame(Sort(Rolled(rows, top), order), Rolled(rows, top), Hosts);
  }
}
