/** Comparing the findings of two stored reports: what was added, removed and changed, and that this is all of it. */
module ReportDiff {
  import opened Outcomes

  datatype Item = Item(id: string, title: string, severity: string, status: string)

  datatype Report = Report(id: string, frozen: bool, complete: bool, rows: seq<Item>)

  /** A map that keeps the order in which its keys were first set. */
  datatype Snapshot = Snapshot(order: seq<string>, items: map<string, Item>)

  ghost predicate IsSnapshot(s: Snapshot) {
    && (forall id :: id in s.order <==> id in s.items)
    && (forall i, j :: 0 <= i < j < |s.order| ==> s.order[i] != s.order[j])
    && (forall id :: id in s.items ==> s.items[id].id == id)
  }

  /** The rows that have an id, by id; of rows with one id, the last one counts. */
  function SnapshotOf(rows: seq<Item>): (s: Snapshot)
    ensures IsSnapshot(s)
  {
    if rows == [] then Snapshot([], map[])
    else
      var front, last := SnapshotOf(rows[..|rows| - 1]), rows[|rows| - 1];
      if last.id == "" then front
      else
        var order := if last.id in front.items then front.order else front.order + [last.id];
        Snapshot(order, front.items[last.id := last])
  }

  /** The place of the first row with the id. */
  function FirstAt(rows: seq<Item>, id: string): (i: nat)
    ensures i <= |rows| && (i < |rows| ==> rows[i].id == id)
    ensures forall j :: 0 <= j < i ==> rows[j].id != id
  {
    if rows == [] then 0
    else
      var i := FirstAt(rows[..|rows| - 1], id);
      if i < |rows| - 1 || rows[|rows| - 1].id == id then i else |rows|
  }

  /** The row is the last one with its id. */
  predicate IsLast(rows: seq<Item>, i: nat) {
    i < |rows| && forall j :: i < j < |rows| ==> rows[j].id != rows[i].id
  }

  lemma {:induction false} SnapshotHasIds(rows: seq<Item>, id: string)
    ensures id in SnapshotOf(rows).items <==> id != "" && FirstAt(rows, id) < |rows|
  {
    if rows != [] {
      SnapshotHasIds(rows[..|rows| - 1], id);
    }
  }

  /** One more row sets its own id, if it has one, and no other. */
  lemma SnapshotStep(rows: seq<Item>, row: Item, id: string)
    ensures var items := SnapshotOf(rows + [row]).items;
      if id == row.id && id != "" then id in items && items[id] == row
      else (id in items <==> id in SnapshotOf(rows).items) && (id in items ==> items[id] == SnapshotOf(rows).items[id])
  {
    assert (rows + [row])[..|rows|] == rows;
  }

  lemma {:induction false} SnapshotHasLast(rows: seq<Item>, id: string) returns (i: nat)
    requires id in SnapshotOf(rows).items
    ensures IsLast(rows, i) && rows[i] == SnapshotOf(rows).items[id]
  {
    SnapshotHasIds(rows, id);
    var front, last := rows[..|rows| - 1], rows[|rows| - 1];
    assert rows == front + [last];
    SnapshotStep(front, last, id);
    i := |front|;
    if id != last.id {
      i := SnapshotHasLast(front, id);
      LastStays(front, last, i);
    }
  }

  lemma LastStays(rows: seq<Item>, row: Item, i: nat)
    requires IsLast(rows, i) && row.id != rows[i].id
    ensures IsLast(rows + [row], i) && (rows + [row])[i] == rows[i]
  {
  }

  lemma FirstStays(rows: seq<Item>, row: Item, id: string)
    ensures FirstAt(rows, id) < |rows| ==> FirstAt(rows + [row], id) == FirstAt(rows, id)
    ensures FirstAt(rows, id) == |rows| ==> FirstAt(rows + [row], id) >= |rows|
  {
    assert (rows + [row])[..|rows|] == rows;
  }

  lemma {:induction false} SnapshotIsInOrder(rows: seq<Item>, i: nat, j: nat)
    requires i < j < |SnapshotOf(rows).order|
    ensures FirstAt(rows, SnapshotOf(rows).order[i]) < FirstAt(rows, SnapshotOf(rows).order[j])
  {
    var front, last := rows[..|rows| - 1], rows[|rows| - 1];
    assert rows == front + [last];
    var order, before := SnapshotOf(rows).order, SnapshotOf(front).order;
    assert order == before || order == before + [last.id];
    OrderedIsThere(front, i);
    FirstStays(front, last, order[i]);
    FirstStays(front, last, order[j]);
    if j < |before| {
      OrderedIsThere(front, j);
      SnapshotIsInOrder(front, i, j);
    } else {
      SnapshotHasIds(front, last.id);
    }
  }

  lemma OrderedIsThere(rows: seq<Item>, i: nat)
    requires i < |SnapshotOf(rows).order|
    ensures FirstAt(rows, SnapshotOf(rows).order[i]) < |rows|
  {
    SnapshotHasIds(rows, SnapshotOf(rows).order[i]);
  }

  /** A snapshot holds exactly the ids of rows that have one, each with its last row, in order of first appearance. */
  lemma SnapshotHolds(rows: seq<Item>)
    ensures forall id :: id in SnapshotOf(rows).items <==> id != "" && FirstAt(rows, id) < |rows|
    ensures forall id :: id in SnapshotOf(rows).items ==>
      exists i: nat :: IsLast(rows, i) && rows[i] == SnapshotOf(rows).items[id]
    ensures var order := SnapshotOf(rows).order;
      forall i, j :: 0 <= i < j < |order| ==> FirstAt(rows, order[i]) < FirstAt(rows, order[j])
  {
    forall id
      ensures id in SnapshotOf(rows).items <==> id != "" && FirstAt(rows, id) < |rows|
    {
      SnapshotHasIds(rows, id);
    }
    forall id | id in SnapshotOf(rows).items
      ensures exists i: nat :: IsLast(rows, i) && rows[i] == SnapshotOf(rows).items[id]
    {
      var i := SnapshotHasLast(rows, id);
    }
    forall i, j | 0 <= i < j < |SnapshotOf(rows).order|
      ensures FirstAt(rows, SnapshotOf(rows).order[i]) < FirstAt(rows, SnapshotOf(rows).order[j])
    {
      SnapshotIsInOrder(rows, i, j);
    }
  }

  datatype Change = Change(item: Item, from: string, to: string)

  datatype Diff = Diff(added: seq<Item>, removed: seq<Item>, statusChanged: seq<(Change, bool)>,
                       severityChanged: seq<Change>, same: nat)

  datatype Refusal = NoBaseline | NotFrozen | NotComplete

  // ---------- What the lists hold ----------

  /** The items of the first snapshot that the other one does not have, in order. */
  function Missing(order: seq<string>, has: map<string, Item>, other: map<string, Item>): seq<Item>
    requires forall id :: id in order ==> id in has
  {
    if order == [] then []
    else
      var front, id := Missing(order[..|order| - 1], has, other), order[|order| - 1];
      if id in other then front else front + [has[id]]
  }

  predicate IsAcceptedRisk(status: string) {
    status == "accepted_risk" || status == "accepted"
  }

  function StatusChanges(order: seq<string>, now: map<string, Item>, before: map<string, Item>): seq<(Change, bool)>
    requires forall id :: id in order ==> id in now
  {
    if order == [] then []
    else
      var front, id := StatusChanges(order[..|order| - 1], now, before), order[|order| - 1];
      if id in before && before[id].status != now[id].status then
        front + [(Change(now[id], before[id].status, now[id].status),
                  IsAcceptedRisk(now[id].status) && !IsAcceptedRisk(before[id].status))]
      else front
  }

  function SeverityChanges(order: seq<string>, now: map<string, Item>, before: map<string, Item>): seq<Change>
    requires forall id :: id in order ==> id in now
  {
    if order == [] then []
    else
      var front, id := SeverityChanges(order[..|order| - 1], now, before), order[|order| - 1];
      if id in before && before[id].severity != now[id].severity then
        front + [Change(now[id], before[id].severity, now[id].severity)]
      else front
  }

  predicate IsSameAs(a: Item, b: Item) {
    a.status == b.status && a.severity == b.severity
  }

  function Unchanged(order: seq<string>, now: map<string, Item>, before: map<string, Item>): nat
    requires forall id :: id in order ==> id in now
  {
    if order == [] then 0
    else
      var id := order[|order| - 1];
      Unchanged(order[..|order| - 1], now, before) + if id in before && IsSameAs(now[id], before[id]) then 1 else 0
  }

  function DiffOf(now: Snapshot, before: Snapshot): Diff
    requires forall id :: id in now.order ==> id in now.items
    requires forall id :: id in before.order ==> id in before.items
  {
    Diff(Missing(now.order, now.items, before.items), Missing(before.order, before.items, now.items),
         StatusChanges(now.order, now.items, before.items), SeverityChanges(now.order, now.items, before.items),
         Unchanged(now.order, now.items, before.items))
  }

  method FindRemoved(now: Snapshot, before: Snapshot) returns (removed: seq<Item>)
    requires IsSnapshot(now) && IsSnapshot(before)
    ensures removed == Missing(before.order, before.items, now.items)
  {
    removed := [];
    for i := 0 to |before.order|
      invariant removed == Missing(before.order[..i], before.items, now.items)
    {
      assert before.order[..i + 1][..i] == before.order[..i];
      if before.order[i] !in now.items {
        removed := removed + [before.items[before.order[i]]];
      }
    }
    assert before.order[..|before.order|] == before.order;
  }

  /** Compares item by item. */
  method DiffSnapshots(now: Snapshot, before: Snapshot) returns (diff: Diff)
    requires IsSnapshot(now) && IsSnapshot(before)
    ensures diff == DiffOf(now, before)
  {
    var added, statusChanged, severityChanged, same := [], [], [], 0;
    for i := 0 to |now.order|
      invariant added == Missing(now.order[..i], now.items, before.items)
      invariant statusChanged == StatusChanges(now.order[..i], now.items, before.items)
      invariant severityChanged == SeverityChanges(now.order[..i], now.items, before.items)
      invariant same == Unchanged(now.order[..i], now.items, before.items)
    {
      assert now.order[..i + 1][..i] == now.order[..i];
      var id := now.order[i];
      var item := now.items[id];
      if id !in before.items {
        added := added + [item];
      } else {
        var prior := before.items[id];
        var changed := false;
        if prior.status != item.status {
          var accepted := IsAcceptedRisk(item.status) && !IsAcceptedRisk(prior.status);
          statusChanged := statusChanged + [(Change(item, prior.status, item.status), accepted)];
          changed := true;
        }
        if prior.severity != item.severity {
          severityChanged := severityChanged + [Change(item, prior.severity, item.severity)];
          changed := true;
        }
        if !changed {
          same := same + 1;
        }
      }
    }
    assert now.order[..|now.order|] == now.order;
    var removed := FindRemoved(now, before);
    diff := Diff(added, removed, statusChanged, severityChanged, same);
  }

  /** Compares two reports, or says why they cannot be compared. */
  method DiffReports(current: Report, baseline: Option<Report>) returns (r: Outcome<Diff, Refusal>)
    ensures r.Ok?
       <==> baseline.Some? && current.frozen && baseline.value.frozen && current.complete && baseline.value.complete
    ensures r.Err? ==>
      r.error == if baseline.None? then NoBaseline
                 else if !current.frozen || !baseline.value.frozen then NotFrozen
                 else NotComplete
    ensures r.Ok? ==> r.value == DiffOf(SnapshotOf(current.rows), SnapshotOf(baseline.value.rows))
  {
    if baseline.None? {
      return Err(NoBaseline);
    }
    if !current.frozen || !baseline.value.frozen {
      return Err(NotFrozen);
    }
    if !current.complete || !baseline.value.complete {
      return Err(NotComplete);
    }
    var diff := DiffSnapshots(SnapshotOf(current.rows), SnapshotOf(baseline.value.rows));
    r := Ok(diff);
  }

  // ---------- The comparison is complete ----------

  lemma {:induction false} MissingAre(order: seq<string>, has: map<string, Item>, other: map<string, Item>, item: Item)
    requires forall id :: id in order ==> id in has && has[id].id == id
    ensures item in Missing(order, has, other) <==> item.id in order && item.id !in other && has[item.id] == item
  {
    if order != [] {
      MissingAre(order[..|order| - 1], has, other, item);
      assert order == order[..|order| - 1] + [order[|order| - 1]];
    }
  }

  /** What a report says of a finding. */
  datatype Fact = Fact(status: string, severity: string)

  function FactOf(item: Item): Fact {
    Fact(item.status, item.severity)
  }

  function Facts(items: map<string, Item>): map<string, Fact> {
    map id | id in items :: FactOf(items[id])
  }

  function Without(facts: map<string, Fact>, items: seq<Item>): map<string, Fact> {
    if items == [] then facts else Without(facts, items[..|items| - 1]) - {items[|items| - 1].id}
  }

  function With(facts: map<string, Fact>, items: seq<Item>): map<string, Fact> {
    if items == [] then facts
    else With(facts, items[..|items| - 1])[items[|items| - 1].id := FactOf(items[|items| - 1])]
  }

  function WithStatus(facts: map<string, Fact>, changes: seq<(Change, bool)>): map<string, Fact> {
    if changes == [] then facts
    else
      var front, change := WithStatus(facts, changes[..|changes| - 1]), changes[|changes| - 1].0;
      if change.item.id in front then front[change.item.id := front[change.item.id].(status := change.to)] else front
  }

  function WithSeverity(facts: map<string, Fact>, changes: seq<Change>): map<string, Fact> {
    if changes == [] then facts
    else
      var front, change := WithSeverity(facts, changes[..|changes| - 1]), changes[|changes| - 1];
      if change.item.id in front then front[change.item.id := front[change.item.id].(severity := change.to)] else front
  }

  /** Carries the differences out on the facts of the earlier report. */
  function Apply(diff: Diff, facts: map<string, Fact>): map<string, Fact> {
    WithSeverity(WithStatus(With(Without(facts, diff.removed), diff.added), diff.statusChanged), diff.severityChanged)
  }

  function Look(facts: map<string, Fact>, id: string): Option<Fact> {
    if id in facts then Some(facts[id]) else None
  }

  lemma WithoutStep(facts: map<string, Fact>, items: seq<Item>, item: Item, id: string)
    ensures Look(Without(facts, items + [item]), id) == if id == item.id then None else Look(Without(facts, items), id)
  {
    assert (items + [item])[..|items|] == items;
  }

  lemma WithStep(facts: map<string, Fact>, items: seq<Item>, item: Item, id: string)
    ensures Look(With(facts, items + [item]), id)
         == if id == item.id then Some(FactOf(item)) else Look(With(facts, items), id)
  {
    assert (items + [item])[..|items|] == items;
  }

  lemma {:induction false} WithoutAt(facts: map<string, Fact>, order: seq<string>, before: map<string, Item>,
                                     now: map<string, Item>, id: string)
    requires forall id :: id in order ==> id in before && before[id].id == id
    ensures Look(Without(facts, Missing(order, before, now)), id)
         == if id in order && id !in now then None else Look(facts, id)
  {
    if order != [] {
      var front, last := order[..|order| - 1], order[|order| - 1];
      WithoutAt(facts, front, before, now, id);
      assert order == front + [last];
      WithoutStep(facts, Missing(front, before, now), before[last], id);
    }
  }

  lemma {:induction false} WithAt(facts: map<string, Fact>, order: seq<string>, now: map<string, Item>,
                                  before: map<string, Item>, id: string)
    requires forall id :: id in order ==> id in now && now[id].id == id
    ensures Look(With(facts, Missing(order, now, before)), id)
         == if id in order && id !in before then Some(FactOf(now[id])) else Look(facts, id)
  {
    if order != [] {
      var front, last := order[..|order| - 1], order[|order| - 1];
      WithAt(facts, front, now, before, id);
      assert order == front + [last];
      WithStep(facts, Missing(front, now, before), now[last], id);
    }
  }

  lemma {:induction false} WithStatusAt(facts: map<string, Fact>, order: seq<string>, now: map<string, Item>,
                                        before: map<string, Item>, id: string)
    requires forall id :: id in order ==> id in now && now[id].id == id && id in facts
    ensures Look(WithStatus(facts, StatusChanges(order, now, before)), id)
         == if id in order && id in before && before[id].status != now[id].status then
              Some(facts[id].(status := now[id].status))
            else Look(facts, id)
  {
    if order != [] {
      var last := |order| - 1;
      WithStatusAt(facts, order[..last], now, before, id);
      assert order == order[..last] + [order[last]];
      var changes := StatusChanges(order, now, before);
      if order[last] in before && before[order[last]].status != now[order[last]].status {
        WithStatusAt(facts, order[..last], now, before, order[last]);
        assert changes[..|changes| - 1] == StatusChanges(order[..last], now, before);
      }
    }
  }

  lemma {:induction false} WithSeverityAt(facts: map<string, Fact>, order: seq<string>, now: map<string, Item>,
                                          before: map<string, Item>, id: string)
    requires forall id :: id in order ==> id in now && now[id].id == id && id in facts
    ensures Look(WithSeverity(facts, SeverityChanges(order, now, before)), id)
         == if id in order && id in before && before[id].severity != now[id].severity then
              Some(facts[id].(severity := now[id].severity))
            else Look(facts, id)
  {
    if order != [] {
      var last := |order| - 1;
      WithSeverityAt(facts, order[..last], now, before, id);
      assert order == order[..last] + [order[last]];
      var changes := SeverityChanges(order, now, before);
      if order[last] in before && before[order[last]].severity != now[order[last]].severity {
        WithSeverityAt(facts, order[..last], now, before, order[last]);
        assert changes[..|changes| - 1] == SeverityChanges(order[..last], now, before);
      }
    }
  }

  lemma FactsAt(items: map<string, Item>, id: string)
    ensures Look(Facts(items), id) == if id in items then Some(FactOf(items[id])) else None
  {
  }

  lemma RebuildsAt(now: Snapshot, before: Snapshot, id: string)
    requires IsSnapshot(now) && IsSnapshot(before)
    ensures Look(Apply(DiffOf(now, before), Facts(before.items)), id) == Look(Facts(now.items), id)
  {
    var diff := DiffOf(now, before);
    var kept := Without(Facts(before.items), diff.removed);
    var grown := With(kept, diff.added);
    forall x | x in now.order
      ensures x in grown
    {
      GrownAt(now, before, x);
    }
    GrownAt(now, before, id);
    FactsAt(now.items, id);
    FactsAt(before.items, id);
    WithStatusAt(grown, now.order, now.items, before.items, id);
    var settled := WithStatus(grown, diff.statusChanged);
    forall x | x in now.order
      ensures x in settled
    {
      WithStatusAt(grown, now.order, now.items, before.items, x);
    }
    WithSeverityAt(settled, now.order, now.items, before.items, id);
  }

  /** After removing and adding, exactly the current findings are there, old ones as they were. */
  lemma GrownAt(now: Snapshot, before: Snapshot, id: string)
    requires IsSnapshot(now) && IsSnapshot(before)
    ensures var diff := DiffOf(now, before);
      Look(With(Without(Facts(before.items), diff.removed), diff.added), id)
        == if id !in now.items then None
           else if id in before.items then Some(FactOf(before.items[id]))
           else Some(FactOf(now.items[id]))
  {
    var diff := DiffOf(now, before);
    FactsAt(before.items, id);
    WithoutAt(Facts(before.items), before.order, before.items, now.items, id);
    WithAt(Without(Facts(before.items), diff.removed), now.order, now.items, before.items, id);
  }

  /** Carried out on the earlier report, the differences give the current one. */
  lemma DiffRebuilds(now: Snapshot, before: Snapshot)
    requires IsSnapshot(now) && IsSnapshot(before)
    ensures Apply(DiffOf(now, before), Facts(before.items)) == Facts(now.items)
  {
    var rebuilt, facts := Apply(DiffOf(now, before), Facts(before.items)), Facts(now.items);
    forall id
      ensures id in rebuilt <==> id in facts
      ensures id in rebuilt ==> rebuilt[id] == facts[id]
    {
      RebuildsAt(now, before, id);
    }
  }

  // ---------- Counting ----------

  function StatusIds(changes: seq<(Change, bool)>): set<string> {
    set c | c in changes :: c.0.item.id
  }

  function SeverityIds(changes: seq<Change>): set<string> {
    set c | c in changes :: c.item.id
  }

  /** The ids that the comparison lists as changed. */
  function ChangedIds(order: seq<string>, now: map<string, Item>, before: map<string, Item>): set<string>
    requires forall id :: id in order ==> id in now
  {
    StatusIds(StatusChanges(order, now, before)) + SeverityIds(SeverityChanges(order, now, before))
  }

  lemma {:induction false} ChangedAre(order: seq<string>, now: map<string, Item>, before: map<string, Item>, id: string)
    requires forall id :: id in order ==> id in now && now[id].id == id
    ensures id in ChangedIds(order, now, before) <==> id in order && id in before && !IsSameAs(now[id], before[id])
  {
    if order != [] {
      var last := |order| - 1;
      ChangedAre(order[..last], now, before, id);
      assert order == order[..last] + [order[last]];
      StatusGrow(order, now, before);
      SeverityGrow(order, now, before);
    }
  }

  lemma StatusGrow(order: seq<string>, now: map<string, Item>, before: map<string, Item>)
    requires order != [] && forall id :: id in order ==> id in now && now[id].id == id
    ensures var id := order[|order| - 1];
      StatusIds(StatusChanges(order, now, before)) == StatusIds(StatusChanges(order[..|order| - 1], now, before))
        + if id in before && before[id].status != now[id].status then {id} else {}
  {
  }

  lemma SeverityGrow(order: seq<string>, now: map<string, Item>, before: map<string, Item>)
    requires order != [] && forall id :: id in order ==> id in now && now[id].id == id
    ensures var id := order[|order| - 1];
      SeverityIds(SeverityChanges(order, now, before))
        == SeverityIds(SeverityChanges(order[..|order| - 1], now, before))
        + if id in before && before[id].severity != now[id].severity then {id} else {}
  {
  }

  lemma UnionGrows(a: set<string>, b: set<string>, id: string, x: bool, y: bool)
    requires id !in a + b
    ensures |(a + if x then {id} else {}) + (b + if y then {id} else {})| == |a + b| + if x || y then 1 else 0
  {
    var both := (a + if x then {id} else {}) + (b + if y then {id} else {});
    if x || y {
      assert both == a + b + {id};
    } else {
      assert both == a + b;
    }
  }

  lemma ChangedGrow(order: seq<string>, now: map<string, Item>, before: map<string, Item>)
    requires order != [] && forall id :: id in order ==> id in now && now[id].id == id
    requires order[|order| - 1] !in order[..|order| - 1]
    ensures var id := order[|order| - 1];
      |ChangedIds(order, now, before)|
        == |ChangedIds(order[..|order| - 1], now, before)|
           + if id in before && !IsSameAs(now[id], before[id]) then 1 else 0
  {
    var front, id := order[..|order| - 1], order[|order| - 1];
    ChangedAre(front, now, before, id);
    StatusGrow(order, now, before);
    SeverityGrow(order, now, before);
    UnionGrows(StatusIds(StatusChanges(front, now, before)), SeverityIds(SeverityChanges(front, now, before)), id,
               id in before && before[id].status != now[id].status,
               id in before && before[id].severity != now[id].severity);
  }

  /** Every current finding is added, changed or unchanged, and only one of these. */
  lemma {:induction false} EveryFindingCounts(order: seq<string>, now: map<string, Item>, before: map<string, Item>)
    requires forall id :: id in order ==> id in now && now[id].id == id
    requires forall i, j :: 0 <= i < j < |order| ==> order[i] != order[j]
    ensures |Missing(order, now, before)| + |ChangedIds(order, now, before)| + Unchanged(order, now, before) == |order|
  {
    if order != [] {
      var last := |order| - 1;
      EveryFindingCounts(order[..last], now, before);
      assert order[last] !in order[..last];
      ChangedGrow(order, now, before);
    }
  }

  // ---------- The other way round ----------

  predicate HasStatusChange(changes: seq<(Change, bool)>, id: string, from: string, to: string) {
    exists c :: c in changes && c.0.item.id == id && c.0.from == from && c.0.to == to
  }

  predicate HasSeverityChange(changes: seq<Change>, id: string, from: string, to: string) {
    exists c :: c in changes && c.item.id == id && c.from == from && c.to == to
  }

  lemma {:induction false} StatusChangesAre(order: seq<string>, now: map<string, Item>, before: map<string, Item>,
                                            id: string, from: string, to: string)
    requires forall id :: id in order ==> id in now && now[id].id == id
    ensures HasStatusChange(StatusChanges(order, now, before), id, from, to)
       <==> (id in order && id in before && before[id].status == from != to == now[id].status)
  {
    if order != [] {
      StatusChangesAre(order[..|order| - 1], now, before, id, from, to);
      assert order == order[..|order| - 1] + [order[|order| - 1]];
    }
  }

  lemma {:induction false} SeverityChangesAre(order: seq<string>, now: map<string, Item>, before: map<string, Item>,
                                              id: string, from: string, to: string)
    requires forall id :: id in order ==> id in now && now[id].id == id
    ensures HasSeverityChange(SeverityChanges(order, now, before), id, from, to)
       <==> (id in order && id in before && before[id].severity == from != to == now[id].severity)
  {
    if order != [] {
      SeverityChangesAre(order[..|order| - 1], now, before, id, from, to);
      assert order == order[..|order| - 1] + [order[|order| - 1]];
    }
  }

  /** A change of status names the current finding, and is flagged when the risk is newly accepted. */
  lemma {:induction false} StatusChangeMeans(order: seq<string>, now: map<string, Item>, before: map<string, Item>,
                                             c: (Change, bool))
    requires forall id :: id in order ==> id in now && now[id].id == id
    requires c in StatusChanges(order, now, before)
    ensures c.0.item.id in order && c.0.item == now[c.0.item.id]
    ensures c.1 <==> c.0.to in {"accepted", "accepted_risk"} && c.0.from !in {"accepted", "accepted_risk"}
  {
    var last := |order| - 1;
    assert order == order[..last] + [order[last]];
    if c in StatusChanges(order[..last], now, before) {
      StatusChangeMeans(order[..last], now, before, c);
    }
  }

  lemma {:induction false} SeverityChangeMeans(order: seq<string>, now: map<string, Item>, before: map<string, Item>,
                                               c: Change)
    requires forall id :: id in order ==> id in now && now[id].id == id
    requires c in SeverityChanges(order, now, before)
    ensures c.item.id in order && c.item == now[c.item.id]
  {
    var last := |order| - 1;
    assert order == order[..last] + [order[last]];
    if c in SeverityChanges(order[..last], now, before) {
      SeverityChangeMeans(order[..last], now, before, c);
    }
  }

  /** The two ids come in this order. */
  predicate ComesBefore(order: seq<string>, a: string, b: string) {
    exists p, q :: 0 <= p < q < |order| && order[p] == a && order[q] == b
  }

  lemma ComesBeforeStill(order: seq<string>, a: string, b: string)
    requires order != [] && ComesBefore(order[..|order| - 1], a, b)
    ensures ComesBefore(order, a, b)
  {
    var front := order[..|order| - 1];
    var p, q :| 0 <= p < q < |front| && front[p] == a && front[q] == b;
    assert order[p] == a && order[q] == b;
  }

  lemma LastComesAfter(order: seq<string>, a: string)
    requires order != [] && a in order[..|order| - 1]
    ensures ComesBefore(order, a, order[|order| - 1])
  {
    var p :| 0 <= p < |order| - 1 && order[p] == a;
  }

  /** What was added or removed is listed in the order of its report. */
  lemma {:induction false} MissingInOrder(order: seq<string>, has: map<string, Item>, other: map<string, Item>, i: nat,
                                          j: nat)
    requires forall id :: id in order ==> id in has && has[id].id == id
    requires i < j < |Missing(order, has, other)|
    ensures ComesBefore(order, Missing(order, has, other)[i].id, Missing(order, has, other)[j].id)
  {
    var front := order[..|order| - 1];
    var before, all := Missing(front, has, other), Missing(order, has, other);
    if j < |before| {
      MissingInOrder(front, has, other, i, j);
      ComesBeforeStill(order, all[i].id, all[j].id);
    } else {
      MissingAre(front, has, other, before[i]);
      LastComesAfter(order, all[i].id);
    }
  }

  /** Changes of status are listed in the order of the current report. */
  lemma {:induction false} StatusChangesInOrder(order: seq<string>, now: map<string, Item>, before: map<string, Item>,
                                                i: nat, j: nat)
    requires forall id :: id in order ==> id in now && now[id].id == id
    requires i < j < |StatusChanges(order, now, before)|
    ensures var changes := StatusChanges(order, now, before);
      ComesBefore(order, changes[i].0.item.id, changes[j].0.item.id)
  {
    var front := order[..|order| - 1];
    var some, all := StatusChanges(front, now, before), StatusChanges(order, now, before);
    if j < |some| {
      StatusChangesInOrder(front, now, before, i, j);
      ComesBeforeStill(order, all[i].0.item.id, all[j].0.item.id);
    } else {
      StatusChangeMeans(front, now, before, some[i]);
      LastComesAfter(order, all[i].0.item.id);
    }
  }

  /** So are changes of severity. */
  lemma {:induction false} SeverityChangesInOrder(order: seq<string>, now: map<string, Item>, before: map<string, Item>,
                                                  i: nat, j: nat)
    requires forall id :: id in order ==> id in now && now[id].id == id
    requires i < j < |SeverityChanges(order, now, before)|
    ensures var changes := SeverityChanges(order, now, before);
      ComesBefore(order, changes[i].item.id, changes[j].item.id)
  {
    var front := order[..|order| - 1];
    var some, all := SeverityChanges(front, now, before), SeverityChanges(order, now, before);
    if j < |some| {
      SeverityChangesInOrder(front, now, before, i, j);
      ComesBeforeStill(order, all[i].item.id, all[j].item.id);
    } else {
      SeverityChangeMeans(front, now, before, some[i]);
      LastComesAfter(order, all[i].item.id);
    }
  }

  /** Swapping the reports swaps what was added with what was removed, and turns every change around. */
  lemma SwappingTurnsAround(now: Snapshot, before: Snapshot, id: string, from: string, to: string)
    requires IsSnapshot(now) && IsSnapshot(before)
    ensures var there, back := DiffOf(now, before), DiffOf(before, now);
      && there.added == back.removed && there.removed == back.added
      && (HasStatusChange(there.statusChanged, id, from, to) <==> HasStatusChange(back.statusChanged, id, to, from))
      && (HasSeverityChange(there.severityChanged, id, from, to)
          <==> HasSeverityChange(back.severityChanged, id, to, from))
  {
    StatusChangesAre(now.order, now.items, before.items, id, from, to);
    StatusChangesAre(before.order, before.items, now.items, id, to, from);
    SeverityChangesAre(now.order, now.items, before.items, id, from, to);
    SeverityChangesAre(before.order, before.items, now.items, id, to, from);
  }
}
