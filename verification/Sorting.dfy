/** Stable sorting by a total preorder, as the built-in sorts of the original languages promise it. */
module Sorting {

  /** A comparison that sorts: total, and transitive. */
  ghost predicate IsPreorder<T(!new)>(leq: (T, T) -> bool) {
    && (forall a, b :: leq(a, b) || leq(b, a))
    && (forall a, b, c :: leq(a, b) && leq(b, c) ==> leq(a, c))
  }

  predicate IsSorted<T>(items: seq<T>, leq: (T, T) -> bool) {
    forall i, j :: 0 <= i < j < |items| ==> leq(items[i], items[j])
  }

  /** Puts an item after everything that is not above it. */
  function Insert<T>(item: T, items: seq<T>, leq: (T, T) -> bool): (r: seq<T>)
    ensures |r| == |items| + 1
    ensures multiset(r) == multiset(items) + multiset{item}
  {
    if items == [] then [item]
    else
      var last := |items| - 1;
      assert items == items[..last] + [items[last]];
      if leq(items[last], item) then items + [item]
      else Insert(item, items[..last], leq) + [items[last]]
  }

  function Sort<T>(items: seq<T>, leq: (T, T) -> bool): (r: seq<T>)
    ensures |r| == |items|
    ensures multiset(r) == multiset(items)
  {
    if items == [] then []
    else
      var last := |items| - 1;
      assert items == items[..last] + [items[last]];
      Insert(items[last], Sort(items[..last], leq), leq)
  }

  lemma SameElements<T>(a: seq<T>, b: seq<T>)
    requires multiset(a) == multiset(b)
    ensures |a| == |b| && forall x :: x in a <==> x in b
  {
    assert |multiset(a)| == |a| && |multiset(b)| == |b|;
    forall x
      ensures x in a <==> x in b
    {
      assert x in a <==> x in multiset(a);
    }
  }

  lemma {:induction false} InsertSorts<T(!new)>(item: T, items: seq<T>, leq: (T, T) -> bool)
    requires IsPreorder(leq) && IsSorted(items, leq)
    ensures IsSorted(Insert(item, items, leq), leq)
  {
    if items != [] {
      var last := |items| - 1;
      if leq(items[last], item) {
        forall i | 0 <= i < |items|
          ensures leq(items[i], item)
        {
          assert i == last || leq(items[i], items[last]);
        }
      } else {
        var front := items[..last];
        InsertSorts(item, front, leq);
        var r := Insert(item, front, leq);
        assert multiset(r) == multiset(front + [item]);
        SameElements(r, front + [item]);
        forall i | 0 <= i < |r|
          ensures leq(r[i], items[last])
        {
          assert r[i] in r;
          assert r[i] in front + [item];
        }
      }
    }
  }

  lemma {:induction false} SortSorts<T(!new)>(items: seq<T>, leq: (T, T) -> bool)
    requires IsPreorder(leq)
    ensures IsSorted(Sort(items, leq), leq)
  {
    if items != [] {
      var last := |items| - 1;
      SortSorts(items[..last], leq);
      InsertSorts(items[last], Sort(items[..last], leq), leq);
    }
  }

  // ---------- Lists without repetition ----------

  lemma TwiceInMultiset<T>(s: seq<T>, i: nat, j: nat)
    requires i < j < |s| && s[i] == s[j]
    ensures multiset(s)[s[i]] >= 2
  {
    assert s == s[..j] + [s[j]] + s[j + 1..];
    assert s[..j][i] == s[i];
    assert multiset(s) == multiset(s[..j]) + multiset{s[j]} + multiset(s[j + 1..]);
  }

  lemma {:induction false} OnceInMultiset<T>(s: seq<T>, x: T)
    requires forall i, j :: 0 <= i < j < |s| && s[i] == x ==> s[j] != x
    ensures multiset(s)[x] <= 1
  {
    if s != [] {
      assert s == [s[0]] + s[1..];
      OnceInMultiset(s[1..], x);
      assert multiset(s) == multiset{s[0]} + multiset(s[1..]);
      if x == s[0] {
        assert x !in s[1..];
      }
    }
  }

  /** An order in which no two items come before each other. */
  ghost predicate IsStrict<T(!new)>(less: (T, T) -> bool) {
    forall a, b :: !(less(a, b) && less(b, a))
  }

  /** Two lists of the same items in strict order are the same list. */
  lemma {:induction false} StrictOrderIsUnique<T(!new)>(a: seq<T>, b: seq<T>, less: (T, T) -> bool)
    requires IsStrict(less) && IsSorted(a, less) && IsSorted(b, less)
    requires forall x :: x in a <==> x in b
    ensures a == b
  {
    HasAnItem(a);
    HasAnItem(b);
    if a != [] && b != [] {
      assert a[0] in b && b[0] in a;
      assert a[0] == b[0];
      forall x
        ensures x in a[1..] <==> x in b[1..]
      {
        InTail(a, less, x);
        InTail(b, less, x);
      }
      StrictOrderIsUnique(a[1..], b[1..], less);
      assert a == [a[0]] + a[1..] && b == [b[0]] + b[1..];
    }
  }

  lemma HasAnItem<T>(a: seq<T>)
    ensures a != [] ==> exists x :: x in a
  {
    if a != [] {
      assert a[0] in a;
    }
  }

  lemma InTail<T(!new)>(a: seq<T>, less: (T, T) -> bool, x: T)
    requires a != [] && IsStrict(less) && IsSorted(a, less)
    ensures x in a[1..] <==> x in a && x != a[0]
  {
    if x in a && x != a[0] {
      var i :| 0 <= i < |a| && a[i] == x;
      assert a[1..][i - 1] == x;
    }
    if x in a[1..] {
      var i :| 0 <= i < |a| - 1 && a[1..][i] == x;
      assert a[i + 1] == x && less(a[0], a[i + 1]);
    }
  }

  lemma InsertLast<T>(item: T, items: seq<T>, leq: (T, T) -> bool)
    requires items == [] || leq(items[|items| - 1], item)
    ensures Insert(item, items, leq) == items + [item]
  {
  }

  /** Sorting leaves a sorted list as it is. */
  lemma {:induction false} SortedStays<T>(items: seq<T>, leq: (T, T) -> bool)
    requires IsSorted(items, leq)
    ensures Sort(items, leq) == items
  {
    if items != [] {
      var last := |items| - 1;
      SortedStays(items[..last], leq);
      InsertLast(items[last], items[..last], leq);
    }
  }

  predicate Ascends(items: seq<nat>) {
    forall i, j :: 0 <= i < j < |items| ==> items[i] < items[j]
  }

  function Ascending(items: seq<nat>): seq<nat> {
    Sort(items, (a: nat, b: nat) => a <= b)
  }

  predicate AllDistinct<T(==)>(items: seq<T>) {
    forall i, j :: 0 <= i < j < |items| ==> items[i] != items[j]
  }

  /** Sorted numbers, none of them twice, ascend. */
  lemma SortedAscends(items: seq<nat>)
    requires AllDistinct(items)
    ensures Ascends(Ascending(items)) && forall x :: x in Ascending(items) <==> x in items
  {
    var order := Ascending(items);
    SortSorts(items, (a: nat, b: nat) => a <= b);
    SameElements(order, items);
    forall i, j | 0 <= i < j < |order|
      ensures order[i] < order[j]
    {
      if order[i] == order[j] {
        TwiceInMultiset(order, i, j);
        OnceInMultiset(items, order[i]);
      }
    }
  }

  function Elements<T>(items: seq<T>): set<T> {
    set x | x in items
  }

  /** Two ascending lists of the same numbers are the same list. */
  lemma AscendingIsUnique(a: seq<nat>, b: seq<nat>)
    requires Ascends(a) && Ascends(b) && Elements(a) == Elements(b)
    ensures a == b
  {
    forall x
      ensures x in a <==> x in b
    {
      assert x in Elements(a) <==> x in a;
      assert x in Elements(b) <==> x in b;
    }
    StrictOrderIsUnique(a, b, (x: nat, y: nat) => x < y);
  }
}
