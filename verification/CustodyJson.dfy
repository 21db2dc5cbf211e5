/** JSON values as the custody digest sees them, and their normal form: keys in order, nothing undefined. */
module CustodyJson {
  import opened Sorting

  /** Strings are sequences of UTF-16 code units. */
  type Unit = n: int | 0 <= n < 0x10000

  type Text = seq<Unit>

  predicate IsNumberUnit(u: Unit) {
    0x30 <= u <= 0x39 || u in {0x2B, 0x2D, 0x2E, 0x65}
  }

  /** The shortest decimal text of a finite number; both zeros have the same text. */
  type Numeral = t: Text | t != [] && forall i :: 0 <= i < |t| ==> IsNumberUnit(t[i])
    witness [0x30]

  datatype Entry<+T> = Entry(key: Text, value: T)

  datatype Json =
    | Null
    | Undefined
    | Bool(value: bool)
    | Finite(numeral: Numeral)
    | NonFinite
    | Str(text: Text)
    | Arr(items: seq<Json>)
    | Obj(members: seq<Entry<Json>>)

  /** Objects never hold a key twice. */
  ghost predicate IsWellFormed(v: Json) {
    match v
    case Arr(items) => forall i :: 0 <= i < |items| ==> IsWellFormed(items[i])
    case Obj(members) => KeysDiffer(members) && forall i :: 0 <= i < |members| ==> IsWellFormed(members[i].value)
    case _ => true
  }

  predicate KeysDiffer<T>(members: seq<Entry<T>>) {
    forall i, j :: 0 <= i < j < |members| ==> members[i].key != members[j].key
  }

  // ---------- Order of keys ----------

  /** The order of code units, which the default sort of strings uses. */
  predicate Precedes(a: Text, b: Text) {
    a == [] || (b != [] && (a[0] < b[0] || (a[0] == b[0] && Precedes(a[1..], b[1..]))))
  }

  predicate KeyOrder<T>(a: Entry<T>, b: Entry<T>) {
    Precedes(a.key, b.key)
  }

  lemma {:induction false} OrderIsTotal(a: Text, b: Text)
    ensures Precedes(a, b) || Precedes(b, a)
  {
    if a != [] && b != [] {
      OrderIsTotal(a[1..], b[1..]);
    }
  }

  lemma {:induction false} OrderIsTransitive(a: Text, b: Text, c: Text)
    requires Precedes(a, b) && Precedes(b, c)
    ensures Precedes(a, c)
  {
    if a != [] && a[0] == b[0] && b[0] == c[0] {
      OrderIsTransitive(a[1..], b[1..], c[1..]);
    }
  }

  lemma {:induction false} OrderIsStrict(a: Text, b: Text)
    requires Precedes(a, b) && Precedes(b, a)
    ensures a == b
  {
    if a != [] {
      OrderIsStrict(a[1..], b[1..]);
      assert a == [a[0]] + a[1..] && b == [b[0]] + b[1..];
    }
  }

  /** At the first place where they differ, the first text has the smaller unit, or it ends there. */
  predicate ComesBefore(a: Text, b: Text) {
    || (|a| < |b| && a == b[..|a|])
    || exists i :: 0 <= i < |a| && i < |b| && a[..i] == b[..i] && a[i] < b[i]
  }

  /** The order of keys is that of their units as numbers, from the left, the shorter one first. */
  lemma {:induction false} PrecedesMeans(a: Text, b: Text)
    ensures Precedes(a, b) <==> a == b || ComesBefore(a, b)
  {
    if a == [] {
      assert b[..0] == [];
    } else if b != [] && a[0] == b[0] {
      PrecedesMeans(a[1..], b[1..]);
      HeadsDrop(a, b);
    } else if b != [] && a[0] < b[0] {
      assert a[..0] == b[..0];
    }
  }

  lemma HeadsDrop(a: Text, b: Text)
    requires a != [] && b != [] && a[0] == b[0]
    ensures a == b <==> a[1..] == b[1..]
    ensures ComesBefore(a, b) <==> ComesBefore(a[1..], b[1..])
  {
    assert a == [a[0]] + a[1..] && b == [b[0]] + b[1..];
    if |a| < |b| {
      assert b[..|a|] == [b[0]] + b[1..][..|a| - 1];
    }
    if i :| 0 <= i < |a| && i < |b| && a[..i] == b[..i] && a[i] < b[i] {
      assert a[1..][..i - 1] == a[..i][1..] && b[1..][..i - 1] == b[..i][1..];
      assert a[1..][i - 1] == a[i] && b[1..][i - 1] == b[i];
    }
    if i :| 0 <= i < |a| - 1 && i < |b| - 1 && a[1..][..i] == b[1..][..i] && a[1..][i] < b[1..][i] {
      assert a[..i + 1] == [a[0]] + a[1..][..i] && b[..i + 1] == [b[0]] + b[1..][..i];
      assert a[i + 1] == a[1..][i] && b[i + 1] == b[1..][i];
    }
  }

  lemma KeyOrderIsPreorder<T(!new)>()
    ensures IsPreorder<Entry<T>>(KeyOrder)
  {
    forall a: Entry<T>, b: Entry<T>
      ensures KeyOrder(a, b) || KeyOrder(b, a)
    {
      OrderIsTotal(a.key, b.key);
    }
    forall a: Entry<T>, b: Entry<T>, c: Entry<T> | KeyOrder(a, b) && KeyOrder(b, c)
      ensures KeyOrder(a, c)
    {
      OrderIsTransitive(a.key, b.key, c.key);
    }
  }

  // ---------- The normal form ----------

  function Normal(v: Json): Json {
    match v
    case Undefined => Null
    case Arr(items) => Arr(NormalItems(items))
    case Obj(members) => Obj(Sort(NormalMembers(members), KeyOrder))
    case _ => v
  }

  function NormalItems(items: seq<Json>): (r: seq<Json>)
    ensures |r| == |items| && forall i :: 0 <= i < |items| ==> r[i] == Normal(items[i])
  {
    if items == [] then [] else [Normal(items[0])] + NormalItems(items[1..])
  }

  /** The members that are defined, each in its normal form. */
  function NormalMembers(members: seq<Entry<Json>>): seq<Entry<Json>> {
    if members == [] then []
    else
      var rest := NormalMembers(members[1..]);
      if members[0].value.Undefined? then rest else [Entry(members[0].key, Normal(members[0].value))] + rest
  }

  lemma {:induction false} NormalMembersAre(members: seq<Entry<Json>>, e: Entry<Json>)
    ensures e in NormalMembers(members) <==>
      exists i :: 0 <= i < |members| && !members[i].value.Undefined?
        && e == Entry(members[i].key, Normal(members[i].value))
  {
    if members != [] {
      NormalMembersAre(members[1..], e);
      if i :| 0 <= i < |members| && !members[i].value.Undefined?
              && e == Entry(members[i].key, Normal(members[i].value)) {
        assert i > 0 ==> members[1..][i - 1] == members[i];
      }
      if i :| 0 <= i < |members| - 1 && !members[1..][i].value.Undefined?
              && e == Entry(members[1..][i].key, Normal(members[1..][i].value)) {
        assert members[i + 1] == members[1..][i];
      }
    }
  }

  /** Before in the order of keys, under another key. */
  predicate Before<T>(a: Entry<T>, b: Entry<T>) {
    Precedes(a.key, b.key) && a.key != b.key
  }

  lemma BeforeIsStrict<T(!new)>()
    ensures IsStrict<Entry<T>>(Before)
  {
    forall a: Entry<T>, b: Entry<T> | Before(a, b) && Before(b, a)
      ensures false
    {
      OrderIsStrict(a.key, b.key);
    }
  }

  lemma KeysStayDifferent<T>(a: seq<Entry<T>>, b: seq<Entry<T>>)
    requires KeysDiffer(a) && multiset(a) == multiset(b)
    ensures KeysDiffer(b)
  {
    SameElements(a, b);
    forall i, j | 0 <= i < j < |b|
      ensures b[i].key != b[j].key
    {
      if b[i].key == b[j].key {
        assert b[i] in a && b[j] in a;
        assert b[i] == b[j];
        TwiceInMultiset(b, i, j);
        OnceInMultiset(a, b[i]);
      }
    }
  }

  lemma StrictlySorted<T>(members: seq<Entry<T>>)
    requires KeysDiffer(members) && IsSorted(members, KeyOrder)
    ensures IsSorted(members, Before)
  {
  }

  /** Sorting members by key puts them in strict order and keeps exactly them. */
  lemma SortedMembers<T(!new)>(members: seq<Entry<T>>)
    requires KeysDiffer(members)
    ensures IsSorted(Sort(members, KeyOrder), Before)
    ensures forall e :: e in Sort(members, KeyOrder) <==> e in members
  {
    var sorted := Sort(members, KeyOrder);
    assert IsSorted(sorted, KeyOrder) by {
      KeyOrderIsPreorder<T>();
      SortSorts(members, KeyOrder);
    }
    KeysStayDifferent(members, sorted);
    StrictlySorted(sorted);
    SameElements(members, sorted);
  }

  lemma {:induction false} NormalKeysDiffer(members: seq<Entry<Json>>)
    requires KeysDiffer(members)
    ensures KeysDiffer(NormalMembers(members))
  {
    if members != [] {
      NormalKeysDiffer(members[1..]);
      var rest := NormalMembers(members[1..]);
      forall j | 0 <= j < |rest|
        ensures rest[j].key != members[0].key
      {
        NormalMembersAre(members[1..], rest[j]);
      }
    }
  }

  // ---------- When two values are the same to custody ----------

  /** The list holds the key with a defined value that is the same as the given one. */
  ghost predicate Matches(v: Json, key: Text, members: seq<Entry<Json>>)
    decreases v, 1
  {
    exists j :: 0 <= j < |members| && members[j].key == key && !members[j].value.Undefined? && Same(v, members[j].value)
  }

  predicate Holds(members: seq<Entry<Json>>, key: Text) {
    exists i :: 0 <= i < |members| && members[i].key == key && !members[i].value.Undefined?
  }

  /**
   Equal but for the order of keys and for undefined members, at any depth; an undefined value or item is null.
   */
  ghost predicate Same(a: Json, b: Json)
    decreases a, 0
  {
    match a
    case Null => b.Null? || b.Undefined?
    case Undefined => b.Null? || b.Undefined?
    case Arr(items) => b.Arr? && |items| == |b.items| && forall i :: 0 <= i < |items| ==> Same(items[i], b.items[i])
    case Obj(members) =>
      && b.Obj?
      && (forall i :: 0 <= i < |members| && !members[i].value.Undefined? ==>
          Matches(members[i].value, members[i].key, b.members))
      && (forall j :: 0 <= j < |b.members| && !b.members[j].value.Undefined? ==> Holds(members, b.members[j].key))
    case _ => a == b
  }

  lemma KeyDecides(members: seq<Entry<Json>>, i: nat, j: nat)
    requires KeysDiffer(members) && i < |members| && j < |members| && members[i].key == members[j].key
    ensures i == j
  {
  }

  /** The members of a normal object are the defined members, in their normal form. */
  lemma NormalObject(members: seq<Entry<Json>>, e: Entry<Json>)
    requires KeysDiffer(members)
    ensures e in Normal(Obj(members)).members <==> e in NormalMembers(members)
    ensures IsSorted(Normal(Obj(members)).members, Before)
  {
    NormalKeysDiffer(members);
    SortedMembers(NormalMembers(members));
  }

  lemma SameMembersSameObject(a: seq<Entry<Json>>, b: seq<Entry<Json>>)
    requires KeysDiffer(a) && KeysDiffer(b)
    requires forall e :: e in NormalMembers(a) <==> e in NormalMembers(b)
    ensures Normal(Obj(a)) == Normal(Obj(b))
  {
    forall e
      ensures e in Normal(Obj(a)).members <==> e in Normal(Obj(b)).members
    {
      NormalObject(a, e);
      NormalObject(b, e);
    }
    NormalObject(a, Entry([], Null));
    NormalObject(b, Entry([], Null));
    BeforeIsStrict<Json>();
    StrictOrderIsUnique(Normal(Obj(a)).members, Normal(Obj(b)).members, Before);
  }

  /** Values that are the same have the same normal form. */
  lemma {:induction false} SameIsNormal(a: Json, b: Json)
    requires IsWellFormed(a) && IsWellFormed(b) && Same(a, b)
    ensures Normal(a) == Normal(b)
    decreases a
  {
    match a
    case Arr(items) =>
      forall i | 0 <= i < |items|
        ensures Normal(items[i]) == Normal(b.items[i])
      {
        SameIsNormal(items[i], b.items[i]);
      }
    case Obj(members) =>
      forall e
        ensures e in NormalMembers(members) <==> e in NormalMembers(b.members)
      {
        SameForward(members, b.members, e);
        SameBackward(members, b.members, e);
      }
      SameMembersSameObject(members, b.members);
    case _ =>
  }

  lemma {:induction false} SameForward(a: seq<Entry<Json>>, b: seq<Entry<Json>>, e: Entry<Json>)
    requires IsWellFormed(Obj(a)) && IsWellFormed(Obj(b)) && Same(Obj(a), Obj(b))
    ensures e in NormalMembers(a) ==> e in NormalMembers(b)
    decreases Obj(a), 0
  {
    NormalMembersAre(a, e);
    NormalMembersAre(b, e);
    if e in NormalMembers(a) {
      var i :| 0 <= i < |a| && !a[i].value.Undefined? && e == Entry(a[i].key, Normal(a[i].value));
      assert Matches(a[i].value, a[i].key, b);
      var j :| 0 <= j < |b| && b[j].key == a[i].key && !b[j].value.Undefined? && Same(a[i].value, b[j].value);
      SameIsNormal(a[i].value, b[j].value);
    }
  }

  lemma {:induction false} SameBackward(a: seq<Entry<Json>>, b: seq<Entry<Json>>, e: Entry<Json>)
    requires IsWellFormed(Obj(a)) && IsWellFormed(Obj(b)) && Same(Obj(a), Obj(b))
    ensures e in NormalMembers(b) ==> e in NormalMembers(a)
    decreases Obj(a), 0
  {
    NormalMembersAre(a, e);
    NormalMembersAre(b, e);
    if e in NormalMembers(b) {
      var j :| 0 <= j < |b| && !b[j].value.Undefined? && e == Entry(b[j].key, Normal(b[j].value));
      assert Holds(a, b[j].key);
      var i :| 0 <= i < |a| && a[i].key == b[j].key && !a[i].value.Undefined?;
      assert Matches(a[i].value, a[i].key, b);
      var k :| 0 <= k < |b| && b[k].key == a[i].key && !b[k].value.Undefined? && Same(a[i].value, b[k].value);
      KeyDecides(b, j, k);
      SameIsNormal(a[i].value, b[j].value);
    }
  }

  /** Values with the same normal form are the same. */
  lemma {:induction false} NormalIsSame(a: Json, b: Json)
    requires IsWellFormed(a) && IsWellFormed(b) && Normal(a) == Normal(b)
    ensures Same(a, b)
    decreases a
  {
    match a
    case Arr(items) =>
      forall i | 0 <= i < |items|
        ensures Same(items[i], b.items[i])
      {
        assert Normal(a).items[i] == Normal(b).items[i];
        NormalIsSame(items[i], b.items[i]);
      }
    case Obj(members) =>
      forall i | 0 <= i < |members| && !members[i].value.Undefined?
        ensures Matches(members[i].value, members[i].key, b.members)
      {
        var j := Counterpart(members, b.members, i);
        NormalIsSame(members[i].value, b.members[j].value);
      }
      forall j | 0 <= j < |b.members| && !b.members[j].value.Undefined?
        ensures Holds(members, b.members[j].key)
      {
        var i := Counterpart(b.members, members, j);
        assert members[i].key == b.members[j].key;
      }
    case _ =>
  }

  /** A defined member has a counterpart in every object with the same normal form. */
  lemma Counterpart(a: seq<Entry<Json>>, b: seq<Entry<Json>>, i: nat) returns (j: nat)
    requires KeysDiffer(a) && KeysDiffer(b) && Normal(Obj(a)) == Normal(Obj(b))
    requires i < |a| && !a[i].value.Undefined?
    ensures j < |b| && b[j].key == a[i].key && !b[j].value.Undefined? && Normal(b[j].value) == Normal(a[i].value)
  {
    var e := Entry(a[i].key, Normal(a[i].value));
    NormalMembersAre(a, e);
    NormalObject(a, e);
    NormalObject(b, e);
    NormalMembersAre(b, e);
    j :| 0 <= j < |b| && !b[j].value.Undefined? && e == Entry(b[j].key, Normal(b[j].value));
  }

  /** Nothing undefined, and keys in strict order, at any depth. */
  ghost predicate IsNormal(v: Json) {
    match v
    case Undefined => false
    case Arr(items) => forall i :: 0 <= i < |items| ==> IsNormal(items[i])
    case Obj(members) => IsSorted(members, Before) && forall i :: 0 <= i < |members| ==> IsNormal(members[i].value)
    case _ => true
  }

  /** At any depth, the keys of an object stand in the order of their units. */
  ghost predicate KeysAscend(v: Json) {
    match v
    case Arr(items) => forall i :: 0 <= i < |items| ==> KeysAscend(items[i])
    case Obj(members) =>
      && (forall i, j :: 0 <= i < j < |members| ==> ComesBefore(members[i].key, members[j].key))
      && forall i :: 0 <= i < |members| ==> KeysAscend(members[i].value)
    case _ => true
  }

  lemma {:induction false} NormalKeysAscend(v: Json)
    requires IsNormal(v)
    ensures KeysAscend(v)
  {
    match v
    case Arr(items) =>
      forall i | 0 <= i < |items|
        ensures KeysAscend(items[i])
      {
        NormalKeysAscend(items[i]);
      }
    case Obj(members) =>
      forall i | 0 <= i < |members|
        ensures KeysAscend(members[i].value)
      {
        NormalKeysAscend(members[i].value);
      }
      forall i, j | 0 <= i < j < |members|
        ensures ComesBefore(members[i].key, members[j].key)
      {
        assert Before(members[i], members[j]);
        PrecedesMeans(members[i].key, members[j].key);
      }
    case _ =>
  }

  /** In a normal form nothing is undefined, and keys are in the order of their units, at any depth. */
  lemma NormalFormIsNormal(v: Json)
    requires IsWellFormed(v)
    ensures IsNormal(Normal(v)) && KeysAscend(Normal(v))
  {
    FormIsNormal(v);
    NormalKeysAscend(Normal(v));
  }

  lemma {:induction false} FormIsNormal(v: Json)
    requires IsWellFormed(v)
    ensures IsNormal(Normal(v))
  {
    match v
    case Arr(items) =>
      forall i | 0 <= i < |items|
        ensures IsNormal(Normal(items[i]))
      {
        FormIsNormal(items[i]);
      }
    case Obj(members) =>
      var sorted := Normal(v).members;
      NormalObject(members, Entry([], Null));
      forall i | 0 <= i < |sorted|
        ensures IsNormal(sorted[i].value)
      {
        assert sorted[i] in sorted;
        NormalObject(members, sorted[i]);
        NormalMembersAre(members, sorted[i]);
        var k :| 0 <= k < |members| && !members[k].value.Undefined?
                 && sorted[i] == Entry(members[k].key, Normal(members[k].value));
        FormIsNormal(members[k].value);
      }
    case _ =>
  }

  lemma {:induction false} MembersStay(members: seq<Entry<Json>>)
    requires forall i :: 0 <= i < |members| ==>
      !members[i].value.Undefined? && Normal(members[i].value) == members[i].value
    ensures NormalMembers(members) == members
  {
    if members != [] {
      MembersStay(members[1..]);
      assert members == [members[0]] + members[1..];
    }
  }

  lemma {:induction false} NormalStays(v: Json)
    requires IsNormal(v)
    ensures Normal(v) == v
  {
    match v
    case Arr(items) =>
      forall i | 0 <= i < |items|
        ensures Normal(items[i]) == items[i]
      {
        NormalStays(items[i]);
      }
    case Obj(members) =>
      forall i | 0 <= i < |members|
        ensures Normal(members[i].value) == members[i].value
      {
        NormalStays(members[i].value);
      }
      MembersStay(members);
      SortedStays(members, KeyOrder);
    case _ =>
  }

  /** Normalizing twice is normalizing once. */
  lemma NormalIsIdempotent(v: Json)
    requires IsWellFormed(v)
    ensures Normal(Normal(v)) == Normal(v)
  {
    NormalFormIsNormal(v);
    NormalStays(Normal(v));
  }

  // ---------- Normalizing step by step ----------

  lemma {:induction false} NormalMembersSorted(members: seq<Entry<Json>>)
    requires IsSorted(members, Before)
    ensures IsSorted(NormalMembers(members), Before)
  {
    if members != [] {
      NormalMembersSorted(members[1..]);
      var rest := NormalMembers(members[1..]);
      forall j | 0 <= j < |rest|
        ensures Precedes(members[0].key, rest[j].key) && members[0].key != rest[j].key
      {
        assert rest[j] in rest;
        NormalMembersAre(members[1..], rest[j]);
        var i :| 0 <= i < |members[1..]| && rest[j].key == members[1..][i].key;
        assert Before(members[0], members[i + 1]);
      }
    }
  }

  lemma SameNormalMembers(a: seq<Entry<Json>>, b: seq<Entry<Json>>, e: Entry<Json>)
    requires forall x :: x in a ==> x in b
    ensures e in NormalMembers(a) ==> e in NormalMembers(b)
  {
    NormalMembersAre(a, e);
    NormalMembersAre(b, e);
    if e in NormalMembers(a) {
      var i :| 0 <= i < |a| && !a[i].value.Undefined? && e == Entry(a[i].key, Normal(a[i].value));
      assert a[i] in b;
      var j :| 0 <= j < |b| && b[j] == a[i];
    }
  }

  /** Sorting the keys first gives the same members as sorting them last. */
  lemma SortFirst(members: seq<Entry<Json>>)
    requires KeysDiffer(members)
    ensures NormalMembers(Sort(members, KeyOrder)) == Sort(NormalMembers(members), KeyOrder)
  {
    var sorted, normal := Sort(members, KeyOrder), NormalMembers(members);
    SortedMembers(members);
    NormalMembersSorted(sorted);
    NormalKeysDiffer(members);
    SortedMembers(normal);
    forall e
      ensures e in NormalMembers(sorted) <==> e in Sort(normal, KeyOrder)
    {
      SameNormalMembers(sorted, members, e);
      SameNormalMembers(members, sorted, e);
    }
    BeforeIsStrict<Json>();
    StrictOrderIsUnique(NormalMembers(sorted), Sort(normal, KeyOrder), Before);
  }

  lemma {:induction false} NormalMembersGrow(members: seq<Entry<Json>>, e: Entry<Json>)
    ensures NormalMembers(members + [e])
         == NormalMembers(members) + if e.value.Undefined? then [] else [Entry(e.key, Normal(e.value))]
  {
    if members == [] {
      assert members + [e] == [e];
    } else {
      assert (members + [e])[1..] == members[1..] + [e];
      NormalMembersGrow(members[1..], e);
    }
  }

  lemma SortedIsMember(members: seq<Entry<Json>>, i: nat) returns (k: nat)
    requires i < |members|
    ensures k < |members| && Sort(members, KeyOrder)[i] == members[k]
  {
    var sorted := Sort(members, KeyOrder);
    SameElements(sorted, members);
    assert sorted[i] in sorted;
    k :| 0 <= k < |members| && members[k] == sorted[i];
  }

  /** Normalizes a value, filling lists and objects item by item. */
  method Normalize(v: Json) returns (r: Json)
    requires IsWellFormed(v)
    ensures r == Normal(v)
    decreases v, 1
  {
    match v {
      case Undefined => r := Null;
      case Arr(items) => r := NormalizeItems(v);
      case Obj(members) => r := NormalizeMembers(v);
      case _ => r := v;
    }
  }

  method NormalizeItems(v: Json) returns (r: Json)
    requires IsWellFormed(v) && v.Arr?
    ensures r == Normal(v)
    decreases v, 0
  {
    var out := [];
    for i := 0 to |v.items|
      invariant out == NormalItems(v.items)[..i]
    {
      var item := Normalize(v.items[i]);
      out := out + [item];
    }
    r := Arr(out);
  }

  lemma NormalMembersStep(members: seq<Entry<Json>>, i: nat)
    requires i < |members|
    ensures NormalMembers(members[..i + 1])
         == NormalMembers(members[..i])
            + if members[i].value.Undefined? then [] else [Entry(members[i].key, Normal(members[i].value))]
  {
    assert members[..i + 1] == members[..i] + [members[i]];
    NormalMembersGrow(members[..i], members[i]);
  }

  method NormalizeMembers(v: Json) returns (r: Json)
    requires IsWellFormed(v) && v.Obj?
    ensures r == Normal(v)
    decreases v, 0
  {
    var sorted := Sort(v.members, KeyOrder);
    var out := [];
    for i := 0 to |sorted|
      invariant out == NormalMembers(sorted[..i])
    {
      NormalMembersStep(sorted, i);
      ghost var k := SortedIsMember(v.members, i);
      if !sorted[i].value.Undefined? {
        var member := Normalize(sorted[i].value);
        out := out + [Entry(sorted[i].key, member)];
      }
    }
    assert sorted[..|sorted|] == sorted;
    SortFirst(v.members);
    r := Obj(out);
  }
}
