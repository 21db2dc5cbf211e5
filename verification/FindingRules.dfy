/** Findings grouped by rule: who leads a group, what its counts and dates are, and when its deadline has passed. */
module FindingRules {
  import opened Outcomes
  import opened Sorting

  datatype Severity = Critical | High | Medium | Low | Info | Unknown

  datatype Status = Open | InProgress | Closed | Resolved | Accepted | AcceptedRisk | Other(name: string)

  /** Times are in milliseconds; a time that is missing or does not parse is none. */
  datatype Finding = Finding(id: string, rule: string, status: Status, severity: Severity, openedAt: Option<int>,
                             closedAt: Option<int>)

  const HOUR: int := 3_600_000
  const MAX_SAFE_INTEGER: int := 9_007_199_254_740_991

  function Rank(s: Severity): nat {
    match s
    case Critical => 0
    case High => 1
    case Medium => 2
    case Low => 3
    case Info => 4
    case Unknown => 9
  }

  function SlaHours(s: Severity): nat {
    match s
    case Critical => 24
    case High => 48
    case Medium => 72
    case Low => 168
    case Info => 168
    case Unknown => 168
  }

  predicate IsActive(f: Finding) {
    f.status == Open || f.status == InProgress
  }

  predicate IsClosed(f: Finding) {
    f.status == Closed || f.status == Resolved
  }

  predicate IsAccepted(f: Finding) {
    f.status == Accepted || f.status == AcceptedRisk
  }

  function DueAt(f: Finding): Option<int> {
    match f.openedAt
    case None => None
    case Some(start) => Some(start + SlaHours(f.severity) * HOUR)
  }

  predicate IsBreach(f: Finding, now: int) {
    IsActive(f) && DueAt(f).Some? && now > DueAt(f).value
  }

  // ---------- Who leads a group ----------

  function OpenedOrLast(f: Finding): int {
    if f.openedAt.Some? then f.openedAt.value else MAX_SAFE_INTEGER
  }

  /** Open ones first, then the worst severity, then the one opened first. */
  function Compare(a: Finding, b: Finding): int {
    var openDelta := (if b.status == Open then 1 else 0) - (if a.status == Open then 1 else 0);
    if openDelta != 0 then openDelta
    else if Rank(a.severity) != Rank(b.severity) then Rank(a.severity) - Rank(b.severity)
    else OpenedOrLast(a) - OpenedOrLast(b)
  }

  predicate NotAfter(a: Finding, b: Finding) {
    Compare(a, b) <= 0
  }

  predicate NotMilder(a: Finding, b: Finding) {
    Rank(a.severity) <= Rank(b.severity)
  }

  lemma ComparesProperly()
    ensures IsPreorder(NotAfter) && IsPreorder(NotMilder)
  {
  }

  /** From the worst on. */
  const SEVERITIES: seq<Severity> := [Critical, High, Medium, Low, Info, Unknown]

  predicate IsWorse(a: Severity, b: Severity) {
    exists i, j :: 0 <= i < j < |SEVERITIES| && SEVERITIES[i] == a && SEVERITIES[j] == b
  }

  lemma RankMeans(a: Severity, b: Severity)
    ensures Rank(a) < Rank(b) <==> IsWorse(a, b)
    ensures Rank(a) == Rank(b) <==> a == b
  {
    assert SEVERITIES[if a.Unknown? then 5 else Rank(a)] == a && SEVERITIES[if b.Unknown? then 5 else Rank(b)] == b;
    assert forall i :: 0 <= i < |SEVERITIES| ==> Rank(SEVERITIES[i]) == if i == 5 then 9 else i;
  }

  /** The latest time that a date can stand for. */
  const LATEST: int := 8_640_000_000_000_000

  predicate IsDate(time: Option<int>) {
    time.Some? ==> time.value <= LATEST
  }

  /** Who comes first: one that is open, then one that is worse, then one opened earlier; without a date comes last. */
  lemma ComesFirstMeans(a: Finding, b: Finding)
    requires IsDate(a.openedAt) && IsDate(b.openedAt)
    ensures NotAfter(a, b) <==>
      || (a.status == Open && b.status != Open)
      || (&& (a.status == Open <==> b.status == Open)
          && (|| IsWorse(a.severity, b.severity)
              || (&& a.severity == b.severity
                  && (b.openedAt.None? || (a.openedAt.Some? && a.openedAt.value <= b.openedAt.value)))))
  {
    RankMeans(a.severity, b.severity);
  }

  // ---------- What a group shows ----------

  /** The least of the times that are there. */
  function Least(members: seq<Finding>, time: Finding -> Option<int>): Option<int> {
    if members == [] then None
    else
      var least, last := Least(members[..|members| - 1], time), time(members[|members| - 1]);
      if last.Some? && (least.None? || last.value < least.value) then last else least
  }

  function Greatest(members: seq<Finding>, time: Finding -> Option<int>): Option<int> {
    if members == [] then None
    else
      var greatest, last := Greatest(members[..|members| - 1], time), time(members[|members| - 1]);
      if last.Some? && (greatest.None? || last.value > greatest.value) then last else greatest
  }

  lemma {:induction false} LeastIsLeast(members: seq<Finding>, time: Finding -> Option<int>)
    ensures Least(members, time).None? <==> forall f :: f in members ==> time(f).None?
    ensures Least(members, time).Some? ==>
      && (exists f :: f in members && time(f) == Least(members, time))
      && forall f :: f in members && time(f).Some? ==> Least(members, time).value <= time(f).value
  {
    if members != [] {
      var last := |members| - 1;
      LeastIsLeast(members[..last], time);
      assert members == members[..last] + [members[last]];
    }
  }

  lemma {:induction false} GreatestIsGreatest(members: seq<Finding>, time: Finding -> Option<int>)
    ensures Greatest(members, time).None? <==> forall f :: f in members ==> time(f).None?
    ensures Greatest(members, time).Some? ==>
      && (exists f :: f in members && time(f) == Greatest(members, time))
      && forall f :: f in members && time(f).Some? ==> time(f).value <= Greatest(members, time).value
  {
    if members != [] {
      var last := |members| - 1;
      GreatestIsGreatest(members[..last], time);
      assert members == members[..last] + [members[last]];
    }
  }

  function OpenedTime(f: Finding): Option<int> {
    f.openedAt
  }

  function ClosedTime(f: Finding): Option<int> {
    if IsClosed(f) then f.closedAt else None
  }

  function ActiveDue(f: Finding): Option<int> {
    if IsActive(f) then DueAt(f) else None
  }

  function CountOf(members: seq<Finding>, status: Status): nat {
    if members == [] then 0
    else CountOf(members[..|members| - 1], status) + if members[|members| - 1].status == status then 1 else 0
  }

  datatype Group = Group(
    key: string, members: seq<Finding>, worst: Severity, statusCounts: map<Status, nat>, representativeId: string,
    firstOpenedAt: Option<int>, lastOpenedAt: Option<int>, lastClosedAt: Option<int>, earliestDueAt: Option<int>)

  /** The counts are those of the members, and name no other status. */
  ghost predicate Counts(counts: map<Status, nat>, members: seq<Finding>) {
    forall s :: (s in counts <==> CountOf(members, s) > 0) && (s in counts ==> counts[s] == CountOf(members, s))
  }

  /** The group says of its members what it should. */
  ghost predicate Describes(group: Group, key: string, members: seq<Finding>) {
    && group.key == key
    && multiset(group.members) == multiset(members)
    && IsSorted(group.members, NotAfter)
    && (members != [] ==> group.members != [] && group.representativeId == group.members[0].id)
    && (forall f :: f in members ==> Rank(group.worst) <= Rank(f.severity))
    && (members != [] ==> exists f :: f in members && f.severity == group.worst)
    && Counts(group.statusCounts, members)
    && group.firstOpenedAt == Least(group.members, OpenedTime)
    && group.lastOpenedAt == Greatest(group.members, OpenedTime)
    && group.lastClosedAt == Greatest(group.members, ClosedTime)
    && group.earliestDueAt == Least(group.members, ActiveDue)
  }

  // ---------- The deadline of a group ----------

  datatype Tone = Danger | Warn | Muted

  datatype Label =
    | ClosedOn(date: Option<int>)
    | RiskAccepted
    | NoActiveSla
    | Overdue(count: nat)
    | Pending
    | HoursLeft(hours: nat)
    | OnTrack

  datatype Cell = Cell(text: Label, tone: Tone, due: Option<int>)

  function Filter(members: seq<Finding>, keep: Finding -> bool): seq<Finding> {
    if members == [] then []
    else
      var front := Filter(members[..|members| - 1], keep);
      if keep(members[|members| - 1]) then front + [members[|members| - 1]] else front
  }

  /** `Math.round` of the hours from now to a time, not below zero. */
  function RoundedHours(from: int, to: int): nat {
    var half := 2 * (to - from) + HOUR;
    if half <= 0 then 0 else half / (2 * HOUR)
  }

  function SlaCell(members: seq<Finding>, earliestDueAt: Option<int>, lastClosedAt: Option<int>, now: int): Cell {
    var active := Filter(members, IsActive);
    if active == [] then
      var anyClosed, anyAccepted := Filter(members, IsClosed) != [], Filter(members, IsAccepted) != [];
      if anyClosed && !anyAccepted && |Filter(members, IsClosed)| == |members| then
        Cell(ClosedOn(lastClosedAt), Muted, None)
      else if anyAccepted && !anyClosed && |Filter(members, IsAccepted)| == |members| then
        Cell(RiskAccepted, Muted, None)
      else Cell(NoActiveSla, Muted, lastClosedAt)
    else
      var breached := |Filter(active, f => IsBreach(f, now))|;
      if breached > 0 then Cell(Overdue(breached), Danger, if earliestDueAt == Some(0) then None else earliestDueAt)
      else if earliestDueAt.None? || earliestDueAt == Some(0) then Cell(Pending, Muted, None)
      else
        var hours := RoundedHours(now, earliestDueAt.value);
        if hours <= 24 then Cell(HoursLeft(hours), Warn, earliestDueAt) else Cell(OnTrack, Muted, earliestDueAt)
  }

  lemma {:induction false} FilterKeeps(members: seq<Finding>, keep: Finding -> bool)
    ensures forall f :: f in Filter(members, keep) <==> f in members && keep(f)
    ensures |Filter(members, keep)| <= |members|
  {
    if members != [] {
      FilterKeeps(members[..|members| - 1], keep);
      assert members == members[..|members| - 1] + [members[|members| - 1]];
    }
  }

  lemma {:induction false} FilterTwice(members: seq<Finding>, first: Finding -> bool, second: Finding -> bool)
    requires forall f :: second(f) ==> first(f)
    ensures Filter(Filter(members, first), second) == Filter(members, second)
  {
    if members != [] {
      var last := |members| - 1;
      FilterTwice(members[..last], first, second);
      var front := Filter(members[..last], first);
      if first(members[last]) {
        assert (front + [members[last]])[..|front|] == front;
      }
    }
  }

  lemma SomeMember(members: seq<Finding>, keep: Finding -> bool)
    ensures Filter(members, keep) != [] <==> exists f :: f in members && keep(f)
  {
    FilterKeeps(members, keep);
    var kept := Filter(members, keep);
    if kept != [] {
      assert kept[0] in kept;
    }
  }

  /**
   The cell is red exactly when the earliest due time of an active member is past, and then it counts exactly the
   members that are individually in breach.
   */
  lemma DangerMeansPastDue(members: seq<Finding>, lastClosedAt: Option<int>, now: int)
    ensures var due := Least(members, ActiveDue);
      var cell := SlaCell(members, due, lastClosedAt, now);
      && (cell.tone == Danger <==> due.Some? && due.value < now)
      && (cell.tone == Danger <==> exists f :: f in members && IsBreach(f, now))
      && (cell.tone == Danger ==> cell.text == Overdue(|Filter(members, f => IsBreach(f, now))|))
  {
    var breach := f => IsBreach(f, now);
    FilterTwice(members, IsActive, breach);
    SomeMember(members, breach);
    SomeMember(members, IsActive);
    LeastIsLeast(members, ActiveDue);
  }

  lemma {:induction false} FilterAll(members: seq<Finding>, keep: Finding -> bool)
    ensures |Filter(members, keep)| == |members| <==> forall f :: f in members ==> keep(f)
  {
    FilterKeeps(members, keep);
    if members != [] {
      var last := |members| - 1;
      FilterAll(members[..last], keep);
      FilterKeeps(members[..last], keep);
      assert members == members[..last] + [members[last]];
    }
  }

  /**
   A group reads closed exactly when every member is closed, and accepted exactly when every member is: one never
   passes for the other.
   */
  lemma ClosedMeansAllClosed(members: seq<Finding>, earliestDueAt: Option<int>, lastClosedAt: Option<int>, now: int)
    ensures var cell := SlaCell(members, earliestDueAt, lastClosedAt, now);
      && (cell.text.ClosedOn? <==> members != [] && forall f :: f in members ==> f.status in {Closed, Resolved})
      && (cell.text.RiskAccepted? <==>
          members != [] && forall f :: f in members ==> f.status in {Accepted, AcceptedRisk})
      && (cell.text.ClosedOn? ==> cell.text.date == lastClosedAt)
  {
    FilterAll(members, IsClosed);
    FilterAll(members, IsAccepted);
    FilterKeeps(members, IsActive);
    FilterKeeps(members, IsClosed);
    FilterKeeps(members, IsAccepted);
    var active, closed, accepted := Filter(members, IsActive), Filter(members, IsClosed), Filter(members, IsAccepted);
    if members != [] {
      assert members[0] in members;
      assert active != [] ==> active[0] in active;
      assert closed != [] ==> closed[0] in closed;
      assert accepted != [] ==> accepted[0] in accepted;
    }
  }

  /**
   The cell is amber exactly when nothing is in breach and the earliest due time is less than 24 and a half hours
   away.
   */
  lemma WarnMeansDueSoon(members: seq<Finding>, lastClosedAt: Option<int>, now: int)
    ensures var due := Least(members, ActiveDue);
      SlaCell(members, due, lastClosedAt, now).tone == Warn <==>
        due.Some? && due.value != 0 && 0 <= due.value - now && 2 * (due.value - now) < 49 * HOUR
  {
    DangerMeansPastDue(members, lastClosedAt, now);
    SomeMember(members, IsActive);
    LeastIsLeast(members, ActiveDue);
    var due := Least(members, ActiveDue);
    if due.Some? && due.value >= now {
      HoursRound(now, due.value);
    }
  }

  const DAY: int := 86_400_000

  /** How many days a finding may stay open. */
  function DaysAllowed(s: Severity): int {
    if s == Critical then 1 else if s == High then 2 else if s == Medium then 3 else 7
  }

  /** Still open or worked on, and open for longer than allowed. */
  predicate IsLate(f: Finding, now: int) {
    f.status in {Open, InProgress} && f.openedAt.Some? && now - f.openedAt.value > DaysAllowed(f.severity) * DAY
  }

  /** Which times of a finding count. */
  lemma TimesMean(f: Finding, now: int, t: int)
    ensures ActiveDue(f) == Some(t) <==>
      f.status in {Open, InProgress} && f.openedAt.Some? && t == f.openedAt.value + DaysAllowed(f.severity) * DAY
    ensures ClosedTime(f) == Some(t) <==> f.status in {Closed, Resolved} && f.closedAt == Some(t)
    ensures OpenedTime(f) == f.openedAt && (IsBreach(f, now) <==> IsLate(f, now))
  {
  }

  /** What each wording of the cell says of the members. */
  lemma CellReads(members: seq<Finding>, lastClosedAt: Option<int>, now: int)
    ensures var due := Least(members, ActiveDue);
      var cell := SlaCell(members, due, lastClosedAt, now);
      && (cell.text.Overdue? <==> exists f :: f in members && IsLate(f, now))
      && (cell.text.Pending? <==>
          && (exists f :: f in members && f.status in {Open, InProgress})
          && (forall f :: f in members ==> !IsLate(f, now)) && (due.None? || due.value == 0))
      && (cell.text.OnTrack? <==>
          due.Some? && due.value != 0 && 2 * (due.value - now) >= 49 * HOUR)
      && (cell.text.HoursLeft? <==> cell.tone == Warn)
      && (cell.text.HoursLeft? ==> due.Some? && IsNearest(cell.text.hours, due.value - now))
  {
    var due := Least(members, ActiveDue);
    DangerMeansPastDue(members, lastClosedAt, now);
    WarnMeansDueSoon(members, lastClosedAt, now);
    SomeMember(members, IsActive);
    LeastIsLeast(members, ActiveDue);
    forall f | f in members
      ensures IsBreach(f, now) <==> IsLate(f, now)
      ensures IsActive(f) <==> f.status in {Open, InProgress}
    {
      TimesMean(f, now, 0);
    }
    if due.Some? && due.value >= now {
      HoursRound(now, due.value);
      HoursAreNearest(now, due.value);
    }
  }

  /** A whole number of hours nearest to a duration, the larger one of two. */
  predicate IsNearest(hours: nat, duration: int) {
    2 * hours * HOUR - HOUR <= 2 * duration < 2 * hours * HOUR + HOUR
  }

  lemma HoursAreNearest(from: int, to: int)
    requires from <= to
    ensures IsNearest(RoundedHours(from, to), to - from)
  {
  }

  lemma HoursRound(from: int, to: int)
    requires from <= to
    ensures RoundedHours(from, to) <= 24 <==> 2 * (to - from) < 49 * HOUR
  {
  }

  // ---------- Grouping ----------

  function OfRule(findings: seq<Finding>, key: string): seq<Finding> {
    if findings == [] then []
    else
      var front := OfRule(findings[..|findings| - 1], key);
      if findings[|findings| - 1].rule == key then front + [findings[|findings| - 1]] else front
  }

  /** The rules in the order they first appear. */
  function Rules(findings: seq<Finding>): seq<string> {
    if findings == [] then []
    else
      var front := Rules(findings[..|findings| - 1]);
      if findings[|findings| - 1].rule in front then front else front + [findings[|findings| - 1].rule]
  }

  lemma {:induction false} RulesAre(findings: seq<Finding>)
    ensures forall i, j :: 0 <= i < j < |Rules(findings)| ==> Rules(findings)[i] != Rules(findings)[j]
    ensures forall key :: key in Rules(findings) <==> OfRule(findings, key) != []
  {
    if findings != [] {
      RulesAre(findings[..|findings| - 1]);
    }
  }

  lemma {:induction false} OfRuleHolds(findings: seq<Finding>, key: string, x: Finding)
    ensures multiset(OfRule(findings, key))[x] == if x.rule == key then multiset(findings)[x] else 0
  {
    if findings != [] {
      var last := |findings| - 1;
      OfRuleHolds(findings[..last], key, x);
      assert findings == findings[..last] + [findings[last]];
      assert multiset(findings) == multiset(findings[..last]) + multiset{findings[last]};
    }
  }

  /** The members of all groups. */
  function AllMembers(groups: seq<Group>): seq<Finding> {
    if groups == [] then [] else AllMembers(groups[..|groups| - 1]) + groups[|groups| - 1].members
  }

  /** Each group describes the findings of its rule, and there is one for each rule in order of appearance. */
  ghost predicate AreGroups(groups: seq<Group>, rules: seq<string>, findings: seq<Finding>) {
    |groups| == |rules| && forall i :: 0 <= i < |groups| ==> Describes(groups[i], rules[i], OfRule(findings, rules[i]))
  }

  lemma {:induction false} GroupsHold(groups: seq<Group>, rules: seq<string>, findings: seq<Finding>, x: Finding)
    requires |groups| == |rules| && forall i, j :: 0 <= i < j < |rules| ==> rules[i] != rules[j]
    requires forall i :: 0 <= i < |groups| ==> multiset(groups[i].members) == multiset(OfRule(findings, rules[i]))
    ensures multiset(AllMembers(groups))[x] == if x.rule in rules then multiset(findings)[x] else 0
  {
    if groups != [] {
      var last := |groups| - 1;
      GroupsHold(groups[..last], rules[..last], findings, x);
      OfRuleHolds(findings, rules[last], x);
      assert rules == rules[..last] + [rules[last]];
      assert multiset(AllMembers(groups)) == multiset(AllMembers(groups[..last])) + multiset(groups[last].members);
    }
  }

  /** The groups share out the findings: every finding is a member of exactly one group, as often as it occurs. */
  lemma GroupsPartition(groups: seq<Group>, findings: seq<Finding>)
    requires AreGroups(groups, Rules(findings), findings)
    ensures multiset(AllMembers(groups)) == multiset(findings)
  {
    RulesAre(findings);
    forall x
      ensures multiset(AllMembers(groups))[x] == multiset(findings)[x]
    {
      GroupsHold(groups, Rules(findings), findings, x);
      OfRuleHolds(findings, x.rule, x);
      if multiset(findings)[x] > 0 {
        assert x in OfRule(findings, x.rule);
      }
    }
  }

  /** The first member leads: no member comes before it. */
  lemma LeaderIsFirst(group: Group, key: string, members: seq<Finding>, f: Finding)
    requires Describes(group, key, members) && f in members
    ensures NotAfter(group.members[0], f) && group.representativeId == group.members[0].id
  {
    SameElements(group.members, members);
    var i :| 0 <= i < |group.members| && group.members[i] == f;
    assert i == 0 || NotAfter(group.members[0], group.members[i]);
  }

  // ---------- Counts add up ----------

  ghost function Total(counts: map<Status, nat>): nat
    decreases |counts|
  {
    if counts == map[] then 0
    else
      var s :| s in counts;
      Smaller(counts, s);
      counts[s] + Total(counts - {s})
  }

  lemma Smaller(counts: map<Status, nat>, s: Status)
    requires s in counts
    ensures |counts - {s}| < |counts|
  {
    assert counts.Keys == (counts - {s}).Keys + {s};
    assert |counts.Keys| == |counts| && |(counts - {s}).Keys| == |counts - {s}|;
  }

  /** A total can be taken apart at any status. */
  lemma {:induction false} TotalWithout(counts: map<Status, nat>, s: Status)
    requires s in counts
    ensures Total(counts) == counts[s] + Total(counts - {s})
    decreases |counts|
  {
    var t :| t in counts && Total(counts) == counts[t] + Total(counts - {t});
    if t != s {
      Smaller(counts, t);
      Smaller(counts, s);
      TotalWithout(counts - {t}, s);
      TotalWithout(counts - {s}, t);
      RemovalsCommute(counts, s, t);
    }
  }

  lemma RemovalsCommute(counts: map<Status, nat>, s: Status, t: Status)
    ensures counts - {t} - {s} == counts - {s} - {t}
  {
  }

  function OneLess(counts: map<Status, nat>, s: Status): map<Status, nat>
    requires s in counts && counts[s] > 0
  {
    if counts[s] == 1 then counts - {s} else counts[s := counts[s] - 1]
  }

  lemma OneLessCounts(counts: map<Status, nat>, members: seq<Finding>)
    requires members != [] && Counts(counts, members)
    ensures var s := members[|members| - 1].status;
      && s in counts && counts[s] > 0
      && Counts(OneLess(counts, s), members[..|members| - 1]) && Total(counts) == Total(OneLess(counts, s)) + 1
  {
    var s := members[|members| - 1].status;
    assert CountOf(members, s) == CountOf(members[..|members| - 1], s) + 1;
    var less := OneLess(counts, s);
    TotalWithout(counts, s);
    if counts[s] > 1 {
      TotalWithout(less, s);
      assert less - {s} == counts - {s};
    }
  }

  /** The status counts of a group add up to its size. */
  lemma {:induction false} CountsAddUp(counts: map<Status, nat>, members: seq<Finding>)
    requires Counts(counts, members)
    ensures Total(counts) == |members|
    decreases |members|
  {
    if members == [] {
      assert counts == map[];
    } else {
      OneLessCounts(counts, members);
      CountsAddUp(OneLess(counts, members[|members| - 1].status), members[..|members| - 1]);
    }
  }

  // ---------- The loops ----------

  /** Puts the findings into buckets by rule. */
  method Bucket(findings: seq<Finding>) returns (keys: seq<string>, buckets: map<string, seq<Finding>>)
    ensures keys == Rules(findings)
    ensures forall key :: key in buckets <==> key in keys
    ensures forall key :: key in buckets ==> buckets[key] == OfRule(findings, key)
  {
    keys, buckets := [], map[];
    for i := 0 to |findings|
      invariant keys == Rules(findings[..i])
      invariant forall key :: key in buckets <==> key in keys
      invariant forall key :: key in buckets ==> buckets[key] == OfRule(findings[..i], key)
    {
      assert findings[..i + 1][..i] == findings[..i];
      RulesAre(findings[..i]);
      var key := findings[i].rule;
      var bucket := if key in buckets then buckets[key] else [];
      if key !in buckets {
        keys := keys + [key];
      }
      buckets := buckets[key := bucket + [findings[i]]];
    }
    assert findings[..|findings|] == findings;
  }

  method Tally(members: seq<Finding>) returns (counts: map<Status, nat>)
    ensures Counts(counts, members)
  {
    counts := map[];
    for i := 0 to |members|
      invariant Counts(counts, members[..i])
    {
      assert members[..i + 1][..i] == members[..i];
      var status := members[i].status;
      var count := if status in counts then counts[status] else 0;
      counts := counts[status := count + 1];
    }
    assert members[..|members|] == members;
  }

  /** The running least and greatest times of a group. */
  method Times(ranked: seq<Finding>)
    returns (firstOpenedAt: Option<int>, lastOpenedAt: Option<int>, lastClosedAt: Option<int>,
             earliestDueAt: Option<int>)
    ensures firstOpenedAt == Least(ranked, OpenedTime) && lastOpenedAt == Greatest(ranked, OpenedTime)
    ensures lastClosedAt == Greatest(ranked, ClosedTime) && earliestDueAt == Least(ranked, ActiveDue)
  {
    firstOpenedAt, lastOpenedAt, lastClosedAt, earliestDueAt := None, None, None, None;
    for i := 0 to |ranked|
      invariant firstOpenedAt == Least(ranked[..i], OpenedTime) && lastOpenedAt == Greatest(ranked[..i], OpenedTime)
      invariant lastClosedAt == Greatest(ranked[..i], ClosedTime) && earliestDueAt == Least(ranked[..i], ActiveDue)
    {
      assert ranked[..i + 1][..i] == ranked[..i];
      var closed := ClosedTime(ranked[i]);
      if closed.Some? && (lastClosedAt.None? || closed.value > lastClosedAt.value) {
        lastClosedAt := closed;
      }
      var start := ranked[i].openedAt;
      if start.Some? && (firstOpenedAt.None? || start.value < firstOpenedAt.value) {
        firstOpenedAt := start;
      }
      if start.Some? && (lastOpenedAt.None? || start.value > lastOpenedAt.value) {
        lastOpenedAt := start;
      }
      if IsActive(ranked[i]) {
        var due := DueAt(ranked[i]);
        if due.Some? && (earliestDueAt.None? || due.value < earliestDueAt.value) {
          earliestDueAt := due;
        }
      }
    }
    assert ranked[..|ranked|] == ranked;
  }

  lemma SortedFirst(members: seq<Finding>, leq: (Finding, Finding) -> bool)
    requires IsPreorder(leq) && members != []
    ensures Sort(members, leq)[0] in members
    ensures forall f :: f in members ==> leq(Sort(members, leq)[0], f)
  {
    var sorted := Sort(members, leq);
    SortSorts(members, leq);
    SameElements(sorted, members);
    assert sorted[0] in sorted;
    forall f | f in members
      ensures leq(sorted[0], f)
    {
      var i :| 0 <= i < |sorted| && sorted[i] == f;
      assert leq(sorted[0], sorted[0]);
    }
  }

  method Summarize(key: string, members: seq<Finding>) returns (group: Group)
    requires members != []
    ensures Describes(group, key, members)
  {
    ComparesProperly();
    var ranked := Sort(members, NotAfter);
    SortSorts(members, NotAfter);
    var bySeverity := Sort(members, NotMilder);
    SortedFirst(members, NotMilder);
    var counts := Tally(members);
    var first, last, closed, due := Times(ranked);
    group := Group(key, ranked, bySeverity[0].severity, counts, ranked[0].id, first, last, closed, due);
  }

  lemma GroupsGrow(groups: seq<Group>, rules: seq<string>, i: nat, group: Group, findings: seq<Finding>)
    requires i < |rules| && AreGroups(groups, rules[..i], findings)
    requires Describes(group, rules[i], OfRule(findings, rules[i]))
    ensures AreGroups(groups + [group], rules[..i + 1], findings)
  {
    var longer := groups + [group];
    forall j | 0 <= j < |longer|
      ensures Describes(longer[j], rules[..i + 1][j], OfRule(findings, rules[..i + 1][j]))
    {
      if j < i {
        assert Describes(groups[j], rules[..i][j], OfRule(findings, rules[..i][j]));
      }
    }
  }

  /** One group for each rule, in the order rules first appear. */
  method GroupByRule(findings: seq<Finding>) returns (groups: seq<Group>)
    ensures AreGroups(groups, Rules(findings), findings)
  {
    var keys, buckets := Bucket(findings);
    RulesAre(findings);
    groups := [];
    for i := 0 to |keys|
      invariant AreGroups(groups, keys[..i], findings)
    {
      assert keys[i] in keys;
      var group := Summarize(keys[i], buckets[keys[i]]);
      GroupsGrow(groups, keys, i, group, findings);
      groups := groups + [group];
    }
    assert keys[..|keys|] == keys;
  }
}
