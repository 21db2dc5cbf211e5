/** The canonical text of a value, and why it can be read back in only one way. */
module CustodyText {
  import opened Sorting
  import opened CustodyJson

  const QUOTE: Unit := 0x22
  const BACKSLASH: Unit := 0x5C
  const COMMA: Unit := 0x2C
  const COLON: Unit := 0x3A
  const OPEN_LIST: Unit := 0x5B
  const CLOSE_LIST: Unit := 0x5D
  const OPEN_OBJECT: Unit := 0x7B
  const CLOSE_OBJECT: Unit := 0x7D
  const NULL: Text := [0x6E, 0x75, 0x6C, 0x6C]
  const TRUE: Text := [0x74, 0x72, 0x75, 0x65]
  const FALSE: Text := [0x66, 0x61, 0x6C, 0x73, 0x65]

  // ---------- Quoted strings ----------

  function HexDigit(n: nat): Unit
    requires n < 16
  {
    if n < 10 then 0x30 + n else 0x57 + n
  }

  function Hex(u: Unit): Text {
    [HexDigit(u / 0x1000), HexDigit(u / 0x100 % 0x10), HexDigit(u / 0x10 % 0x10), HexDigit(u % 0x10)]
  }

  predicate IsHigh(u: Unit) {
    0xD800 <= u <= 0xDBFF
  }

  predicate IsLow(u: Unit) {
    0xDC00 <= u <= 0xDFFF
  }

  /** A surrogate without its other half. */
  predicate IsLone(s: Text, i: nat)
    requires i < |s|
  {
    || (IsHigh(s[i]) && !(i + 1 < |s| && IsLow(s[i + 1])))
    || (IsLow(s[i]) && !(i > 0 && IsHigh(s[i - 1])))
  }

  /** The letter after the backslash, where there is a short escape. */
  function ShortEscape(u: Unit): Unit {
    if u == QUOTE then QUOTE
    else if u == BACKSLASH then BACKSLASH
    else if u == 0x08 then 0x62
    else if u == 0x09 then 0x74
    else if u == 0x0A then 0x6E
    else if u == 0x0C then 0x66
    else if u == 0x0D then 0x72
    else 0
  }

  function EscapeUnit(u: Unit, lone: bool): Text {
    if ShortEscape(u) != 0 then [BACKSLASH, ShortEscape(u)]
    else if u < 0x20 || lone then [BACKSLASH, 0x75] + Hex(u)
    else [u]
  }

  function Escape(s: Text, i: nat): Text
    requires i <= |s|
    decreases |s| - i
  {
    if i == |s| then [] else EscapeUnit(s[i], IsLone(s, i)) + Escape(s, i + 1)
  }

  function Quote(s: Text): Text {
    [QUOTE] + Escape(s, 0) + [QUOTE]
  }

  lemma Cancel<T>(a: seq<T>, x: seq<T>, b: seq<T>, y: seq<T>)
    requires a + x == b + y && |a| == |b|
    ensures a == b && x == y
  {
    assert a == (a + x)[..|a|] && b == (b + y)[..|b|];
    assert x == (a + x)[|a|..] && y == (b + y)[|b|..];
  }

  lemma DigitIsUnique(m: nat, n: nat)
    requires m < 16 && n < 16 && HexDigit(m) == HexDigit(n)
    ensures m == n
  {
  }

  lemma DigitsAddUp(u: Unit)
    ensures u == 0x1000 * (u / 0x1000) + 0x100 * (u / 0x100 % 0x10) + 0x10 * (u / 0x10 % 0x10) + u % 0x10
  {
    var q := u / 0x10;
    assert u == 0x10 * q + u % 0x10;
    var r := q / 0x10;
    assert q == 0x10 * r + q % 0x10 && r == u / 0x100;
    assert r == 0x10 * (r / 0x10) + r % 0x10 && r / 0x10 == u / 0x1000;
  }

  lemma HexIsUnique(u: Unit, v: Unit)
    requires Hex(u) == Hex(v)
    ensures u == v
  {
    var a, b := Hex(u), Hex(v);
    assert a[0] == b[0] && a[1] == b[1] && a[2] == b[2] && a[3] == b[3];
    DigitIsUnique(u / 0x1000, v / 0x1000);
    DigitIsUnique(u / 0x100 % 0x10, v / 0x100 % 0x10);
    DigitIsUnique(u / 0x10 % 0x10, v / 0x10 % 0x10);
    DigitIsUnique(u % 0x10, v % 0x10);
    DigitsAddUp(u);
    DigitsAddUp(v);
  }

  lemma EscapeUnitIsUnique(u: Unit, m: bool, x: Text, v: Unit, n: bool, y: Text)
    requires EscapeUnit(u, m) + x == EscapeUnit(v, n) + y
    ensures u == v && x == y
  {
    var a, b := EscapeUnit(u, m), EscapeUnit(v, n);
    assert (a + x)[0] == a[0] && (b + y)[0] == b[0];
    if |a| > 1 && |b| > 1 {
      assert (a + x)[1] == a[1] && (b + y)[1] == b[1];
    }
    assert |a| == |b|;
    Cancel(a, x, b, y);
    if |a| == 6 {
      assert a[2..] == Hex(u) && b[2..] == Hex(v);
      HexIsUnique(u, v);
    }
  }

  lemma EscapeIsNoQuote(u: Unit, lone: bool)
    ensures EscapeUnit(u, lone) != [] && EscapeUnit(u, lone)[0] != QUOTE
  {
  }

  lemma {:induction false} EscapeIsUnique(s: Text, i: nat, x: Text, t: Text, j: nat, y: Text)
    requires i <= |s| && j <= |t|
    requires Escape(s, i) + ([QUOTE] + x) == Escape(t, j) + ([QUOTE] + y)
    ensures s[i..] == t[j..] && x == y
    decreases |s| - i
  {
    if i == |s| || j == |t| {
      EscapeEnds(s, i, x, t, j, y);
      Cancel([QUOTE], x, [QUOTE], y);
    } else {
      EscapeStep(s, i, x);
      EscapeStep(t, j, y);
      var restS, restT := Escape(s, i + 1) + ([QUOTE] + x), Escape(t, j + 1) + ([QUOTE] + y);
      EscapeUnitIsUnique(s[i], IsLone(s, i), restS, t[j], IsLone(t, j), restT);
      EscapeIsUnique(s, i + 1, x, t, j + 1, y);
      SameTails(s, i, t, j);
    }
  }

  lemma SameTails(s: Text, i: nat, t: Text, j: nat)
    requires i < |s| && j < |t| && s[i] == t[j] && s[i + 1..] == t[j + 1..]
    ensures s[i..] == t[j..]
  {
    assert s[i..] == [s[i]] + s[i + 1..] && t[j..] == [t[j]] + t[j + 1..];
  }

  lemma EscapeStep(s: Text, i: nat, x: Text)
    requires i < |s|
    ensures Escape(s, i) + ([QUOTE] + x) == EscapeUnit(s[i], IsLone(s, i)) + (Escape(s, i + 1) + ([QUOTE] + x))
  {
  }

  lemma EscapeStarts(s: Text, i: nat, x: Text)
    requires i <= |s|
    ensures (Escape(s, i) + ([QUOTE] + x))[0] == QUOTE <==> i == |s|
  {
    if i < |s| {
      EscapeIsNoQuote(s[i], IsLone(s, i));
    }
  }

  lemma EscapeEnds(s: Text, i: nat, x: Text, t: Text, j: nat, y: Text)
    requires i <= |s| && j <= |t| && (i == |s| || j == |t|)
    requires Escape(s, i) + ([QUOTE] + x) == Escape(t, j) + ([QUOTE] + y)
    ensures i == |s| && j == |t| && Escape(s, i) == [] && Escape(t, j) == []
    ensures [QUOTE] + x == [QUOTE] + y
  {
    EscapeStarts(s, i, x);
    EscapeStarts(t, j, y);
    assert [] + ([QUOTE] + x) == [QUOTE] + x && [] + ([QUOTE] + y) == [QUOTE] + y;
  }

  lemma QuoteIsUnique(s: Text, x: Text, t: Text, y: Text)
    requires Quote(s) + x == Quote(t) + y
    ensures s == t && x == y
  {
    var a, b := Escape(s, 0) + ([QUOTE] + x), Escape(t, 0) + ([QUOTE] + y);
    assert Quote(s) + x == [QUOTE] + a && Quote(t) + y == [QUOTE] + b;
    Cancel([QUOTE], a, [QUOTE], b);
    EscapeIsUnique(s, 0, x, t, 0, y);
    assert s[0..] == s && t[0..] == t;
  }

  // ---------- The text of a value ----------

  /** Nothing undefined is left in the value. */
  ghost predicate IsDefined(v: Json) {
    match v
    case Undefined => false
    case Arr(items) => forall i :: 0 <= i < |items| ==> IsDefined(items[i])
    case Obj(members) => forall i :: 0 <= i < |members| ==> IsDefined(members[i].value)
    case _ => true
  }

  function Stringify(v: Json): Text
    requires IsDefined(v)
  {
    match v
    case Null => NULL
    case NonFinite => NULL
    case Bool(value) => if value then TRUE else FALSE
    case Finite(numeral) => numeral
    case Str(text) => Quote(text)
    case Arr(items) => [OPEN_LIST] + ListText(Texts(items))
    case Obj(members) => [OPEN_OBJECT] + ObjectText(Sort(MemberTexts(members), KeyOrder))
  }

  function Texts(items: seq<Json>): (r: seq<Text>)
    requires forall i :: 0 <= i < |items| ==> IsDefined(items[i])
    ensures |r| == |items| && forall i :: 0 <= i < |items| ==> r[i] == Stringify(items[i])
  {
    if items == [] then [] else [Stringify(items[0])] + Texts(items[1..])
  }

  function MemberTexts(members: seq<Entry<Json>>): (r: seq<Entry<Text>>)
    requires forall i :: 0 <= i < |members| ==> IsDefined(members[i].value)
    ensures |r| == |members| && forall i :: 0 <= i < |members| ==>
      r[i] == Entry(members[i].key, Stringify(members[i].value))
  {
    if members == [] then [] else [Entry(members[0].key, Stringify(members[0].value))] + MemberTexts(members[1..])
  }

  /** Items joined by commas, and the bracket that closes them. */
  function ListText(texts: seq<Text>): Text
    decreases texts, 0
  {
    if texts == [] then [CLOSE_LIST] else texts[0] + ListRest(texts[1..])
  }

  function ListRest(texts: seq<Text>): Text
    decreases texts, 1
  {
    if texts == [] then [CLOSE_LIST] else [COMMA] + ListText(texts)
  }

  function MemberText(member: Entry<Text>): Text {
    Quote(member.key) + [COLON] + member.value
  }

  /** Members joined by commas, and the brace that closes them. */
  function ObjectText(members: seq<Entry<Text>>): Text
    decreases members, 0
  {
    if members == [] then [CLOSE_OBJECT] else MemberText(members[0]) + ObjectRest(members[1..])
  }

  function ObjectRest(members: seq<Entry<Text>>): Text
    decreases members, 1
  {
    if members == [] then [CLOSE_OBJECT] else [COMMA] + ObjectText(members)
  }

  lemma {:induction false} NormalIsDefined(v: Json)
    requires IsNormal(v)
    ensures IsDefined(v)
  {
    match v
    case Arr(items) =>
      forall i | 0 <= i < |items|
        ensures IsDefined(items[i])
      {
        NormalIsDefined(items[i]);
      }
    case Obj(members) =>
      forall i | 0 <= i < |members|
        ensures IsDefined(members[i].value)
      {
        NormalIsDefined(members[i].value);
      }
    case _ =>
  }

  /** The keys of a normal object are written in the order they stand. */
  lemma NormalObjectText(members: seq<Entry<Json>>)
    requires IsNormal(Obj(members)) && IsDefined(Obj(members))
    ensures Stringify(Obj(members)) == [OPEN_OBJECT] + ObjectText(MemberTexts(members))
  {
    var texts := MemberTexts(members);
    forall i, j | 0 <= i < j < |texts|
      ensures KeyOrder(texts[i], texts[j])
    {
      assert Before(members[i], members[j]);
    }
    SortedStays(texts, KeyOrder);
  }

  /** Numbers that are not finite are written as null. */
  function Collapse(v: Json): Json {
    match v
    case NonFinite => Null
    case Arr(items) => Arr(CollapseItems(items))
    case Obj(members) => Obj(CollapseMembers(members))
    case _ => v
  }

  function CollapseItems(items: seq<Json>): (r: seq<Json>)
    ensures |r| == |items| && forall i :: 0 <= i < |items| ==> r[i] == Collapse(items[i])
  {
    if items == [] then [] else [Collapse(items[0])] + CollapseItems(items[1..])
  }

  function CollapseMembers(members: seq<Entry<Json>>): (r: seq<Entry<Json>>)
    ensures |r| == |members| && forall i :: 0 <= i < |members| ==>
      r[i] == Entry(members[i].key, Collapse(members[i].value))
  {
    if members == [] then [] else [Entry(members[0].key, Collapse(members[0].value))] + CollapseMembers(members[1..])
  }

  // ---------- Reading back ----------

  /** A value may end here: no unit follows that could belong to a number. */
  predicate Ends(x: Text) {
    x == [] || !IsNumberUnit(x[0])
  }

  /** The first unit of the text tells what the value is. */
  function Sign(v: Json): Unit
    requires !v.Undefined?
  {
    match v
    case Null => NULL[0]
    case NonFinite => NULL[0]
    case Bool(value) => if value then TRUE[0] else FALSE[0]
    case Finite(numeral) => numeral[0]
    case Str(_) => QUOTE
    case Arr(_) => OPEN_LIST
    case Obj(_) => OPEN_OBJECT
  }

  lemma SignIsFirst(v: Json, x: Text)
    requires IsDefined(v)
    ensures Stringify(v) != [] && (Stringify(v) + x)[0] == Sign(v)
  {
  }

  lemma SignDecides(a: Json, b: Json)
    requires IsDefined(a) && IsDefined(b) && Sign(a) == Sign(b)
    ensures a.Finite? <==> b.Finite?
    ensures a.Str? <==> b.Str?
    ensures a.Arr? <==> b.Arr?
    ensures a.Obj? <==> b.Obj?
    ensures !(a.Finite? || a.Str? || a.Arr? || a.Obj?) ==>
      Collapse(a) == Collapse(b) && |Stringify(a)| == |Stringify(b)|
  {
    assert a.Finite? ==> IsNumberUnit(Sign(a));
    assert b.Finite? ==> IsNumberUnit(Sign(b));
  }

  lemma SignOpens(v: Json)
    requires IsDefined(v)
    ensures Sign(v) != CLOSE_LIST
  {
    if v.Finite? {
      assert IsNumberUnit(v.numeral[0]);
    }
  }

  lemma NotLonger(s: Numeral, x: Text, t: Numeral, y: Text)
    requires s + x == t + y && Ends(y)
    ensures |s| <= |t|
  {
    assert forall i :: 0 <= i < |s| ==> (t + y)[i] == s[i];
    assert y != [] ==> (t + y)[|t|] == y[0];
  }

  lemma NumeralIsUnique(s: Numeral, x: Text, t: Numeral, y: Text)
    requires s + x == t + y && Ends(x) && Ends(y)
    ensures s == t && x == y
  {
    NotLonger(s, x, t, y);
    NotLonger(t, y, s, x);
    Cancel(s, x, t, y);
  }

  lemma Regroup<T>(a: seq<T>, b: seq<T>, c: seq<T>)
    ensures a + b + c == a + (b + c)
  {
  }

  lemma RestEnds(texts: seq<Text>, members: seq<Entry<Text>>, x: Text)
    ensures (ListRest(texts) + x)[0] == if texts == [] then CLOSE_LIST else COMMA
    ensures (ObjectRest(members) + x)[0] == if members == [] then CLOSE_OBJECT else COMMA
    ensures Ends(ListRest(texts) + x) && Ends(ObjectRest(members) + x)
  {
  }

  lemma TextsTail(items: seq<Json>, members: seq<Entry<Json>>)
    requires forall i :: 0 <= i < |items| ==> IsDefined(items[i])
    requires forall i :: 0 <= i < |members| ==> IsDefined(members[i].value)
    ensures items != [] ==> Texts(items)[1..] == Texts(items[1..])
    ensures members != [] ==> MemberTexts(members)[1..] == MemberTexts(members[1..])
  {
  }

  /** A value cannot start where a list or an object closes. */
  lemma ItemsStart(items: seq<Json>, x: Text)
    requires forall i :: 0 <= i < |items| ==> IsDefined(items[i])
    ensures (ListText(Texts(items)) + x)[0] == CLOSE_LIST <==> items == []
  {
    if items != [] {
      var first, rest := Stringify(items[0]), ListRest(Texts(items)[1..]);
      SignIsFirst(items[0], rest + x);
      Regroup(first, rest, x);
      SignOpens(items[0]);
    }
  }

  lemma MembersStart(members: seq<Entry<Text>>, x: Text)
    ensures (ObjectText(members) + x)[0] == if members == [] then CLOSE_OBJECT else QUOTE
  {
  }

  ghost predicate AllNormal(items: seq<Json>) {
    forall i :: 0 <= i < |items| ==> IsNormal(items[i]) && IsDefined(items[i])
  }

  /**
   A text, followed by something that ends a value, is the text of one value only, up to numbers that are not finite.
   */
  lemma {:induction false} ValueIsUnique(a: Json, x: Text, b: Json, y: Text)
    requires IsNormal(a) && IsNormal(b) && IsDefined(a) && IsDefined(b) && Ends(x) && Ends(y)
    requires Stringify(a) + x == Stringify(b) + y
    ensures Collapse(a) == Collapse(b) && x == y
    decreases a, 1
  {
    SignIsFirst(a, x);
    SignIsFirst(b, y);
    SignDecides(a, b);
    if a.Finite? {
      NumeralIsUnique(a.numeral, x, b.numeral, y);
    } else if a.Str? {
      QuoteIsUnique(a.text, x, b.text, y);
    } else if a.Arr? {
      Regroup([OPEN_LIST], ListText(Texts(a.items)), x);
      Regroup([OPEN_LIST], ListText(Texts(b.items)), y);
      Cancel([OPEN_LIST], ListText(Texts(a.items)) + x, [OPEN_LIST], ListText(Texts(b.items)) + y);
      ItemsAreUnique(a.items, x, b.items, y);
    } else if a.Obj? {
      NormalObjectText(a.members);
      NormalObjectText(b.members);
      Regroup([OPEN_OBJECT], ObjectText(MemberTexts(a.members)), x);
      Regroup([OPEN_OBJECT], ObjectText(MemberTexts(b.members)), y);
      Cancel([OPEN_OBJECT], ObjectText(MemberTexts(a.members)) + x, [OPEN_OBJECT],
             ObjectText(MemberTexts(b.members)) + y);
      MembersAreUnique(a.members, x, b.members, y);
    } else {
      Cancel(Stringify(a), x, Stringify(b), y);
    }
  }

  lemma {:induction false} ItemsAreUnique(a: seq<Json>, x: Text, b: seq<Json>, y: Text)
    requires AllNormal(a) && AllNormal(b)
    requires ListText(Texts(a)) + x == ListText(Texts(b)) + y
    ensures CollapseItems(a) == CollapseItems(b) && x == y
    decreases a, 0
  {
    ItemsStart(a, x);
    ItemsStart(b, y);
    if a == [] {
      Cancel([CLOSE_LIST], x, [CLOSE_LIST], y);
    } else {
      TextsTail(a, []);
      TextsTail(b, []);
      var p, q := ListRest(Texts(a[1..])), ListRest(Texts(b[1..]));
      Regroup(Stringify(a[0]), p, x);
      Regroup(Stringify(b[0]), q, y);
      RestEnds(Texts(a[1..]), [], x);
      RestEnds(Texts(b[1..]), [], y);
      ValueIsUnique(a[0], p + x, b[0], q + y);
      if |a| == 1 {
        Cancel([CLOSE_LIST], x, [CLOSE_LIST], y);
      } else {
        Regroup([COMMA], ListText(Texts(a[1..])), x);
        Regroup([COMMA], ListText(Texts(b[1..])), y);
        Cancel([COMMA], ListText(Texts(a[1..])) + x, [COMMA], ListText(Texts(b[1..])) + y);
        ItemsAreUnique(a[1..], x, b[1..], y);
      }
    }
  }

  lemma {:induction false} MembersAreUnique(a: seq<Entry<Json>>, x: Text, b: seq<Entry<Json>>, y: Text)
    requires forall i :: 0 <= i < |a| ==> IsNormal(a[i].value) && IsDefined(a[i].value)
    requires forall i :: 0 <= i < |b| ==> IsNormal(b[i].value) && IsDefined(b[i].value)
    requires ObjectText(MemberTexts(a)) + x == ObjectText(MemberTexts(b)) + y
    ensures CollapseMembers(a) == CollapseMembers(b) && x == y
    decreases a, 0
  {
    MembersStart(MemberTexts(a), x);
    MembersStart(MemberTexts(b), y);
    if a == [] {
      Cancel([CLOSE_OBJECT], x, [CLOSE_OBJECT], y);
    } else {
      TextsTail([], a);
      TextsTail([], b);
      var p, q := ObjectRest(MemberTexts(a[1..])), ObjectRest(MemberTexts(b[1..]));
      var s, t := Stringify(a[0].value), Stringify(b[0].value);
      RegroupMember(a[0].key, s, p, x);
      RegroupMember(b[0].key, t, q, y);
      QuoteIsUnique(a[0].key, [COLON] + (s + (p + x)), b[0].key, [COLON] + (t + (q + y)));
      Cancel([COLON], s + (p + x), [COLON], t + (q + y));
      RestEnds([], MemberTexts(a[1..]), x);
      RestEnds([], MemberTexts(b[1..]), y);
      ValueIsUnique(a[0].value, p + x, b[0].value, q + y);
      if |a| == 1 {
        Cancel([CLOSE_OBJECT], x, [CLOSE_OBJECT], y);
      } else {
        Regroup([COMMA], ObjectText(MemberTexts(a[1..])), x);
        Regroup([COMMA], ObjectText(MemberTexts(b[1..])), y);
        Cancel([COMMA], ObjectText(MemberTexts(a[1..])) + x, [COMMA], ObjectText(MemberTexts(b[1..])) + y);
        MembersAreUnique(a[1..], x, b[1..], y);
      }
    }
  }

  lemma RegroupMember(key: Text, value: Text, rest: Text, x: Text)
    ensures MemberText(Entry(key, value)) + rest + x == Quote(key) + ([COLON] + (value + (rest + x)))
  {
    Regroup(MemberText(Entry(key, value)), rest, x);
    Regroup(Quote(key) + [COLON], value, rest + x);
    Regroup(Quote(key), [COLON], value + (rest + x));
  }

  // ---------- Canonical text ----------

  /** The text that the digest is taken of. */
  function Canonical(v: Json): Text
    requires IsWellFormed(v)
  {
    NormalFormIsNormal(v);
    NormalIsDefined(Normal(v));
    Stringify(Normal(v))
  }

  lemma {:induction false} CollapsedText(v: Json)
    requires IsNormal(v) && IsDefined(v)
    ensures IsNormal(Collapse(v)) && IsDefined(Collapse(v)) && Stringify(Collapse(v)) == Stringify(v)
  {
    match v
    case Arr(items) =>
      forall i | 0 <= i < |items|
        ensures IsNormal(Collapse(items[i])) && IsDefined(Collapse(items[i]))
          && Stringify(Collapse(items[i])) == Stringify(items[i])
      {
        CollapsedText(items[i]);
      }
      assert Texts(CollapseItems(items)) == Texts(items);
    case Obj(members) =>
      var collapsed := CollapseMembers(members);
      forall i | 0 <= i < |members|
        ensures IsNormal(collapsed[i].value) && IsDefined(collapsed[i].value)
        ensures Stringify(collapsed[i].value) == Stringify(members[i].value)
      {
        CollapsedText(members[i].value);
      }
      forall i, j | 0 <= i < j < |collapsed|
        ensures Before(collapsed[i], collapsed[j])
      {
        assert Before(members[i], members[j]);
      }
      assert MemberTexts(collapsed) == MemberTexts(members);
    case _ =>
  }

  /**
   Two values have the same canonical text exactly when their normal forms agree, numbers that are not finite read as
   null.
   */
  lemma CanonicalTextDecides(a: Json, b: Json)
    requires IsWellFormed(a) && IsWellFormed(b)
    ensures Canonical(a) == Canonical(b) <==> Collapse(Normal(a)) == Collapse(Normal(b))
  {
    var m, n := Normal(a), Normal(b);
    NormalFormIsNormal(a);
    NormalFormIsNormal(b);
    NormalIsDefined(m);
    NormalIsDefined(n);
    CollapsedText(m);
    CollapsedText(n);
    if Canonical(a) == Canonical(b) {
      assert Stringify(m) + [] == Stringify(n) + [];
      ValueIsUnique(m, [], n, []);
    }
  }

  /** All numbers in the value are finite. */
  ghost predicate IsFinite(v: Json) {
    match v
    case NonFinite => false
    case Arr(items) => forall i :: 0 <= i < |items| ==> IsFinite(items[i])
    case Obj(members) => forall i :: 0 <= i < |members| ==> IsFinite(members[i].value)
    case _ => true
  }

  lemma {:induction false} FiniteStays(v: Json)
    requires IsFinite(v)
    ensures Collapse(v) == v
  {
    match v
    case Arr(items) =>
      forall i | 0 <= i < |items|
        ensures Collapse(items[i]) == items[i]
      {
        FiniteStays(items[i]);
      }
    case Obj(members) =>
      forall i | 0 <= i < |members|
        ensures Collapse(members[i].value) == members[i].value
      {
        FiniteStays(members[i].value);
      }
    case _ =>
  }

  lemma {:induction false} NormalStaysFinite(v: Json)
    requires IsWellFormed(v) && IsFinite(v)
    ensures IsFinite(Normal(v))
  {
    match v
    case Arr(items) =>
      forall i | 0 <= i < |items|
        ensures IsFinite(Normal(items[i]))
      {
        NormalStaysFinite(items[i]);
      }
    case Obj(members) =>
      var sorted := Normal(v).members;
      forall i | 0 <= i < |sorted|
        ensures IsFinite(sorted[i].value)
      {
        assert sorted[i] in sorted;
        NormalObject(members, sorted[i]);
        NormalMembersAre(members, sorted[i]);
        var k :| 0 <= k < |members| && sorted[i] == Entry(members[k].key, Normal(members[k].value));
        NormalStaysFinite(members[k].value);
      }
    case _ =>
  }

  /**
   For values without infinite numbers, the canonical text is the same exactly when the values are: it ignores
   the order of keys and undefined members at any depth, and nothing else.
   */
  lemma CanonicalTextIsFaithful(a: Json, b: Json)
    requires IsWellFormed(a) && IsWellFormed(b) && IsFinite(a) && IsFinite(b)
    ensures Canonical(a) == Canonical(b) <==> Same(a, b)
  {
    CanonicalTextDecides(a, b);
    NormalStaysFinite(a);
    NormalStaysFinite(b);
    FiniteStays(Normal(a));
    FiniteStays(Normal(b));
    if Same(a, b) {
      SameIsNormal(a, b);
    }
    if Normal(a) == Normal(b) {
      NormalIsSame(a, b);
    }
  }

  /** A number that is not finite has the text of null, though the two values differ. */
  lemma NotANumberReadsAsNull()
    ensures Canonical(NonFinite) == Canonical(Null) && !Same(NonFinite, Null)
  {
  }
}
