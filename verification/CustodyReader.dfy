/**
 A reader of JSON text as sections 2 to 7 of RFC 8259 lay it down, without space between tokens, and that it reads the
 canonical text of a value back. A number is kept as its text.
 */
module CustodyReader {
  import opened Outcomes
  import opened CustodyJson
  import opened CustodyText

  predicate Begins(t: Text, word: string) {
    |word| <= |t| && forall i :: 0 <= i < |word| ==> t[i] == word[i] as int
  }

  // ---------- Strings ----------

  predicate IsHexDigit(u: Unit) {
    '0' as int <= u <= '9' as int || 'a' as int <= u <= 'f' as int || 'A' as int <= u <= 'F' as int
  }

  function DigitValue(u: Unit): (n: nat)
    requires IsHexDigit(u)
    ensures n < 16
  {
    if u <= '9' as int then u - '0' as int else if u <= 'F' as int then u - 'A' as int + 10 else u - 'a' as int + 10
  }

  predicate AreFourDigits(t: Text) {
    |t| == 4 && IsHexDigit(t[0]) && IsHexDigit(t[1]) && IsHexDigit(t[2]) && IsHexDigit(t[3])
  }

  function HexValue(t: Text): Unit
    requires AreFourDigits(t)
  {
    ((DigitValue(t[0]) * 16 + DigitValue(t[1])) * 16 + DigitValue(t[2])) * 16 + DigitValue(t[3])
  }

  /** What a letter after the backslash stands for. */
  function Unescaped(u: Unit): Option<Unit> {
    if u == '"' as int || u == '\\' as int || u == '/' as int then Some(u)
    else if u == 'b' as int then Some(0x08)
    else if u == 'f' as int then Some(0x0C)
    else if u == 'n' as int then Some(0x0A)
    else if u == 'r' as int then Some(0x0D)
    else if u == 't' as int then Some(0x09)
    else None
  }

  function After(u: Unit, r: Option<(Text, Text)>): Option<(Text, Text)> {
    if r.None? then None else Some(([u] + r.value.0, r.value.1))
  }

  /** A string from after its first quote to its last, and what follows. */
  function ReadString(t: Text): (r: Option<(Text, Text)>)
    ensures r.Some? ==> |r.value.1| < |t|
    decreases |t|
  {
    if t == [] || t[0] < ' ' as int then None
    else if t[0] == '"' as int then Some(([], t[1..]))
    else if t[0] != '\\' as int then After(t[0], ReadString(t[1..]))
    else if |t| < 2 then None
    else if t[1] == 'u' as int then
      if |t| >= 6 && AreFourDigits(t[2..6]) then After(HexValue(t[2..6]), ReadString(t[6..])) else None
    else if Unescaped(t[1]).Some? then After(Unescaped(t[1]).value, ReadString(t[2..]))
    else None
  }

  // ---------- Numbers ----------

  predicate IsNumeric(u: Unit) {
    '0' as int <= u <= '9' as int || u == '+' as int || u == '-' as int || u == '.' as int || u == 'e' as int
  }

  function NumberLength(t: Text): (n: nat)
    ensures n <= |t| && forall i :: 0 <= i < n ==> IsNumberUnit(t[i])
  {
    if t != [] && IsNumeric(t[0]) then 1 + NumberLength(t[1..]) else 0
  }

  // ---------- Values ----------

  /** A value at the start of a text, and what follows it. */
  function ReadValue(t: Text): (r: Option<(Json, Text)>)
    ensures r.Some? ==> |r.value.1| < |t|
    decreases |t|, 0
  {
    if Begins(t, "null") then Some((Null, t[4..]))
    else if Begins(t, "true") then Some((Bool(true), t[4..]))
    else if Begins(t, "false") then Some((Bool(false), t[5..]))
    else if Begins(t, "\"") then
      var r := ReadString(t[1..]);
      if r.Some? then Some((Str(r.value.0), r.value.1)) else None
    else if Begins(t, "[]") then Some((Arr([]), t[2..]))
    else if Begins(t, "[") then
      var r := ReadItems(t[1..]);
      if r.Some? then Some((Arr(r.value.0), r.value.1)) else None
    else if Begins(t, "{}") then Some((Obj([]), t[2..]))
    else if Begins(t, "{") then
      var r := ReadMembers(t[1..]);
      if r.Some? then Some((Obj(r.value.0), r.value.1)) else None
    else
      var n := NumberLength(t);
      if n > 0 then Some((Finite(t[..n]), t[n..])) else None
  }

  /** Items with commas between them, up to the bracket that closes them. */
  function ReadItems(t: Text): (r: Option<(seq<Json>, Text)>)
    ensures r.Some? ==> |r.value.1| < |t|
    decreases |t|, 1
  {
    var first := ReadValue(t);
    if first.None? then None
    else if Begins(first.value.1, "]") then Some(([first.value.0], first.value.1[1..]))
    else if Begins(first.value.1, ",") then
      var rest := ReadItems(first.value.1[1..]);
      if rest.Some? then Some(([first.value.0] + rest.value.0, rest.value.1)) else None
    else None
  }

  /** A quoted key, a colon and a value. */
  function ReadMember(t: Text): (r: Option<(Entry<Json>, Text)>)
    ensures r.Some? ==> |r.value.1| < |t|
    decreases |t|, 1
  {
    if !Begins(t, "\"") then None
    else
      var key := ReadString(t[1..]);
      if key.None? || !Begins(key.value.1, ":") then None
      else
        var value := ReadValue(key.value.1[1..]);
        if value.Some? then Some((Entry(key.value.0, value.value.0), value.value.1)) else None
  }

  /** Members with commas between them, up to the brace that closes them. */
  function ReadMembers(t: Text): (r: Option<(seq<Entry<Json>>, Text)>)
    ensures r.Some? ==> |r.value.1| < |t|
    decreases |t|, 2
  {
    var first := ReadMember(t);
    if first.None? then None
    else if Begins(first.value.1, "}") then Some(([first.value.0], first.value.1[1..]))
    else if Begins(first.value.1, ",") then
      var rest := ReadMembers(first.value.1[1..]);
      if rest.Some? then Some(([first.value.0] + rest.value.0, rest.value.1)) else None
    else None
  }

  // ---------- What is written is read ----------

  lemma DigitIsRead(n: nat)
    requires n < 16
    ensures IsHexDigit(HexDigit(n)) && DigitValue(HexDigit(n)) == n
  {
  }

  lemma HexIsRead(u: Unit)
    ensures AreFourDigits(Hex(u)) && HexValue(Hex(u)) == u
  {
    DigitIsRead(u / 0x1000);
    DigitIsRead(u / 0x100 % 0x10);
    DigitIsRead(u / 0x10 % 0x10);
    DigitIsRead(u % 0x10);
    DigitsAddUp(u);
  }

  lemma UnitIsRead(u: Unit, lone: bool, x: Text)
    ensures ReadString(EscapeUnit(u, lone) + x) == After(u, ReadString(x))
  {
    var e := EscapeUnit(u, lone);
    var t := e + x;
    assert t[0] == e[0] && t[|e|..] == x;
    if |e| == 2 {
      assert t[1] == e[1];
    } else if |e| == 6 {
      assert t[1] == e[1] && t[2..6] == Hex(u);
      HexIsRead(u);
    }
  }

  lemma {:induction false} EscapeIsRead(s: Text, i: nat, x: Text)
    requires i <= |s|
    ensures ReadString(Escape(s, i) + ([QUOTE] + x)) == Some((s[i..], x))
    decreases |s| - i
  {
    if i == |s| {
      assert Escape(s, i) + ([QUOTE] + x) == [QUOTE] + x && ([QUOTE] + x)[1..] == x;
    } else {
      EscapeStep(s, i, x);
      UnitIsRead(s[i], IsLone(s, i), Escape(s, i + 1) + ([QUOTE] + x));
      EscapeIsRead(s, i + 1, x);
      assert s[i..] == [s[i]] + s[i + 1..];
    }
  }

  lemma QuoteIsRead(s: Text, x: Text)
    ensures Begins(Quote(s) + x, "\"") && ReadString((Quote(s) + x)[1..]) == Some((s, x))
  {
    assert Quote(s) + x == [QUOTE] + (Escape(s, 0) + ([QUOTE] + x));
    assert ([QUOTE] + (Escape(s, 0) + ([QUOTE] + x)))[1..] == Escape(s, 0) + ([QUOTE] + x);
    EscapeIsRead(s, 0, x);
    assert s[0..] == s;
  }

  lemma {:induction false} NumeralIsRead(t: Text, x: Text)
    requires (forall i :: 0 <= i < |t| ==> IsNumberUnit(t[i])) && Ends(x)
    ensures NumberLength(t + x) == |t|
  {
    if t == [] {
      assert t + x == x;
    } else {
      assert (t + x)[1..] == t[1..] + x;
      NumeralIsRead(t[1..], x);
    }
  }

  lemma OneCharacter(c: char, u: Unit, x: Text)
    requires c as int == u
    ensures Begins([u] + x, [c]) && ([u] + x)[1..] == x
  {
  }

  /** The first unit of a text tells which branch reads it. */
  lemma BeginsDecide(t: Text)
    requires t != []
    ensures forall word: string :: word != "" && Begins(t, word) ==> word[0] as int == t[0]
  {
  }

  lemma NullIsRead(x: Text)
    ensures ReadValue(NULL + x) == Some((Null, x))
  {
    var t := NULL + x;
    assert forall i :: 0 <= i < 4 ==> t[i] == NULL[i];
    assert Begins(t, "null") && t[4..] == x;
  }

  lemma TrueIsRead(x: Text)
    ensures ReadValue(TRUE + x) == Some((Bool(true), x))
  {
    var t := TRUE + x;
    assert forall i :: 0 <= i < 4 ==> t[i] == TRUE[i];
    BeginsDecide(t);
    assert Begins(t, "true") && !Begins(t, "null") && t[4..] == x;
  }

  lemma FalseIsRead(x: Text)
    ensures ReadValue(FALSE + x) == Some((Bool(false), x))
  {
    var t := FALSE + x;
    assert forall i :: 0 <= i < 5 ==> t[i] == FALSE[i];
    BeginsDecide(t);
    assert Begins(t, "false") && !Begins(t, "null") && !Begins(t, "true") && t[5..] == x;
  }

  lemma WordIsRead(v: Json, x: Text)
    requires v.Null? || v.NonFinite? || v.Bool?
    ensures ReadValue(Stringify(v) + x) == Some((Collapse(v), x))
  {
    if v == Bool(true) {
      TrueIsRead(x);
    } else if v == Bool(false) {
      FalseIsRead(x);
    } else {
      NullIsRead(x);
    }
  }

  lemma NumberIsRead(numeral: Numeral, x: Text)
    requires Ends(x)
    ensures ReadValue(numeral + x) == Some((Finite(numeral), x))
  {
    var t := numeral + x;
    BeginsDecide(t);
    assert t[0] == numeral[0] && IsNumberUnit(t[0]);
    NumeralIsRead(numeral, x);
    assert t[..|numeral|] == numeral && t[|numeral|..] == x;
  }

  lemma StringIsRead(text: Text, x: Text)
    ensures ReadValue(Quote(text) + x) == Some((Str(text), x))
  {
    var t := Quote(text) + x;
    BeginsDecide(t);
    assert t[0] == QUOTE;
    QuoteIsRead(text, x);
  }

  /** Text that is written for a value, followed by something that can end it, is read as that value. */
  lemma {:induction false} ValueIsRead(v: Json, x: Text)
    requires IsNormal(v) && IsDefined(v) && Ends(x)
    ensures ReadValue(Stringify(v) + x) == Some((Collapse(v), x))
    decreases v, 1
  {
    match v
    case Arr(items) =>
      Regroup([OPEN_LIST], ListText(Texts(items)), x);
      var rest := ListText(Texts(items)) + x;
      ItemsStart(items, x);
      if items == [] {
        EmptyIsRead(v, x);
      } else {
        ItemsAreRead(items, x);
        ListIsRead(rest);
      }
    case Obj(members) =>
      NormalObjectText(members);
      Regroup([OPEN_OBJECT], ObjectText(MemberTexts(members)), x);
      var rest := ObjectText(MemberTexts(members)) + x;
      MembersStart(MemberTexts(members), x);
      if members == [] {
        EmptyIsRead(v, x);
      } else {
        MembersAreRead(members, x);
        ObjectIsRead(rest);
      }
    case Finite(numeral) => NumberIsRead(numeral, x);
    case Str(text) => StringIsRead(text, x);
    case _ => WordIsRead(v, x);
  }

  lemma EmptyIsRead(v: Json, x: Text)
    requires v == Arr([]) || v == Obj([])
    ensures ReadValue(Stringify(v) + x) == Some((v, x))
  {
    var t := Stringify(v) + x;
    BeginsDecide(t);
    if v.Arr? {
      assert Stringify(v) == [OPEN_LIST, CLOSE_LIST];
    } else {
      assert MemberTexts(v.members) == [];
      assert Stringify(v) == [OPEN_OBJECT, CLOSE_OBJECT];
    }
    assert t[0] == Stringify(v)[0] && t[1] == Stringify(v)[1] && t[2..] == x;
  }

  lemma ListIsRead(rest: Text)
    requires rest != [] && rest[0] != CLOSE_LIST
    ensures var r := ReadItems(rest);
      ReadValue([OPEN_LIST] + rest) == if r.Some? then Some((Arr(r.value.0), r.value.1)) else None
  {
    var t := [OPEN_LIST] + rest;
    BeginsDecide(t);
    assert t[1] == rest[0] && t[1..] == rest;
    assert Begins(t, "[") && !Begins(t, "[]");
  }

  lemma ObjectIsRead(rest: Text)
    requires rest != [] && rest[0] != CLOSE_OBJECT
    ensures var r := ReadMembers(rest);
      ReadValue([OPEN_OBJECT] + rest) == if r.Some? then Some((Obj(r.value.0), r.value.1)) else None
  {
    var t := [OPEN_OBJECT] + rest;
    BeginsDecide(t);
    assert t[1] == rest[0] && t[1..] == rest;
    assert Begins(t, "{") && !Begins(t, "{}");
  }

  lemma LastItem(t: Text, v: Json, rest: Text)
    requires ReadValue(t) == Some((v, rest)) && Begins(rest, "]")
    ensures ReadItems(t) == Some(([v], rest[1..]))
  {
  }

  lemma MoreItems(t: Text, v: Json, rest: Text, more: Text)
    requires ReadValue(t) == Some((v, rest)) && Begins(rest, ",") && rest[1..] == more && ReadItems(more).Some?
    ensures ReadItems(t) == Some(([v] + ReadItems(more).value.0, ReadItems(more).value.1))
  {
    BeginsDecide(rest);
    assert !Begins(rest, "]");
  }

  lemma LastMember(t: Text, e: Entry<Json>, rest: Text)
    requires ReadMember(t) == Some((e, rest)) && Begins(rest, "}")
    ensures ReadMembers(t) == Some(([e], rest[1..]))
  {
  }

  lemma MoreMembers(t: Text, e: Entry<Json>, rest: Text, more: Text)
    requires ReadMember(t) == Some((e, rest)) && Begins(rest, ",") && rest[1..] == more && ReadMembers(more).Some?
    ensures ReadMembers(t) == Some(([e] + ReadMembers(more).value.0, ReadMembers(more).value.1))
  {
    BeginsDecide(rest);
    assert !Begins(rest, "}");
  }

  lemma {:induction false} ItemsAreRead(items: seq<Json>, x: Text)
    requires AllNormal(items) && items != []
    ensures ReadItems(ListText(Texts(items)) + x) == Some((CollapseItems(items), x))
    decreases items, 0
  {
    TextsTail(items, []);
    var rest := ListRest(Texts(items[1..])) + x;
    Regroup(Stringify(items[0]), ListRest(Texts(items[1..])), x);
    RestEnds(Texts(items[1..]), [], x);
    ValueIsRead(items[0], rest);
    var t := ListText(Texts(items)) + x;
    if |items| == 1 {
      OneCharacter(']', CLOSE_LIST, x);
      assert rest == [CLOSE_LIST] + x;
      LastItem(t, Collapse(items[0]), rest);
      assert CollapseItems(items) == [Collapse(items[0])];
    } else {
      var more := ListText(Texts(items[1..])) + x;
      Regroup([COMMA], ListText(Texts(items[1..])), x);
      OneCharacter(',', COMMA, more);
      assert rest == [COMMA] + more;
      ItemsAreRead(items[1..], x);
      MoreItems(t, Collapse(items[0]), rest, more);
      assert CollapseItems(items) == [Collapse(items[0])] + CollapseItems(items[1..]);
    }
  }

  lemma MemberIsRead(key: Text, value: Json, rest: Text)
    requires IsDefined(value) && ReadValue(Stringify(value) + rest) == Some((Collapse(value), rest))
    ensures ReadMember(Quote(key) + ([COLON] + (Stringify(value) + rest))) == Some((Entry(key, Collapse(value)), rest))
  {
    QuoteIsRead(key, [COLON] + (Stringify(value) + rest));
    OneCharacter(':', COLON, Stringify(value) + rest);
  }

  lemma {:induction false} MembersAreRead(members: seq<Entry<Json>>, x: Text)
    requires (forall i :: 0 <= i < |members| ==> IsNormal(members[i].value) && IsDefined(members[i].value))
      && members != []
    ensures ReadMembers(ObjectText(MemberTexts(members)) + x) == Some((CollapseMembers(members), x))
    decreases members, 0
  {
    TextsTail([], members);
    var rest := ObjectRest(MemberTexts(members[1..])) + x;
    RegroupMember(members[0].key, Stringify(members[0].value), ObjectRest(MemberTexts(members[1..])), x);
    RestEnds([], MemberTexts(members[1..]), x);
    ValueIsRead(members[0].value, rest);
    MemberIsRead(members[0].key, members[0].value, rest);
    var t := ObjectText(MemberTexts(members)) + x;
    var first := Entry(members[0].key, Collapse(members[0].value));
    if |members| == 1 {
      OneCharacter('}', CLOSE_OBJECT, x);
      assert rest == [CLOSE_OBJECT] + x;
      LastMember(t, first, rest);
      assert CollapseMembers(members) == [first];
    } else {
      var more := ObjectText(MemberTexts(members[1..])) + x;
      Regroup([COMMA], ObjectText(MemberTexts(members[1..])), x);
      OneCharacter(',', COMMA, more);
      assert rest == [COMMA] + more;
      MembersAreRead(members[1..], x);
      MoreMembers(t, first, rest, more);
      assert CollapseMembers(members) == [first] + CollapseMembers(members[1..]);
    }
  }

  /** The canonical text of a value reads back as its normal form, and nothing is left over. */
  lemma CanonicalIsRead(v: Json)
    requires IsWellFormed(v)
    ensures ReadValue(Canonical(v)) == Some((Collapse(Normal(v)), []))
  {
    NormalFormIsNormal(v);
    NormalIsDefined(Normal(v));
    ValueIsRead(Normal(v), []);
    assert Canonical(v) + [] == Canonical(v);
  }

  // ---------- How strings are written ----------

  /** The unit is written as these characters. */
  predicate IsWritten(u: Unit, lone: bool, word: string) {
    |EscapeUnit(u, lone)| == |word| && Begins(EscapeUnit(u, lone), word)
  }

  /** A lower-case hexadecimal digit, as a character. */
  predicate IsLowerDigit(u: Unit) {
    '0' as int <= u <= '9' as int || 'a' as int <= u <= 'f' as int
  }

  /**
   Seven units have an escape of two characters; other control units, and surrogates without their other half, have
   one of six, with four lower-case digits; every other unit stands for itself.
   */
  lemma UnitIsWritten(u: Unit, lone: bool)
    ensures u == '"' as int ==> IsWritten(u, lone, "\\\"")
    ensures u == '\\' as int ==> IsWritten(u, lone, "\\\\")
    ensures u == 0x08 ==> IsWritten(u, lone, "\\b")
    ensures u == 0x09 ==> IsWritten(u, lone, "\\t")
    ensures u == 0x0A ==> IsWritten(u, lone, "\\n")
    ensures u == 0x0C ==> IsWritten(u, lone, "\\f")
    ensures u == 0x0D ==> IsWritten(u, lone, "\\r")
    ensures u !in {0x22, 0x5C, 0x08, 0x09, 0x0A, 0x0C, 0x0D} && (u < 0x20 || lone) ==>
      var e := EscapeUnit(u, lone);
      && |e| == 6 && Begins(e, "\\u") && AreFourDigits(e[2..]) && HexValue(e[2..]) == u
      && forall i :: 2 <= i < 6 ==> IsLowerDigit(e[i])
    ensures u !in {0x22, 0x5C} && u >= 0x20 && !lone ==> EscapeUnit(u, lone) == [u]
  {
    var e := EscapeUnit(u, lone);
    if |e| == 6 {
      assert e[2..] == Hex(u);
      HexIsRead(u);
    }
  }

  /** A unit is without its other half if it is a high surrogate not before a low one, or a low one not after a high. */
  lemma LoneMeans(s: Text, i: nat)
    requires i < |s|
    ensures IsLone(s, i) <==>
      || (0xD800 <= s[i] < 0xDC00 && !(i + 1 < |s| && 0xDC00 <= s[i + 1] < 0xE000))
      || (0xDC00 <= s[i] < 0xE000 && !(0 < i && 0xD800 <= s[i - 1] < 0xDC00))
  {
  }
}
