/**
 The line format that names a backup pair: the artifact's name and the nine identity fields of the
 artifact and of its manifest, separated by tabs.
 */
module IdentityRecord {
  import opened Outcomes
  import opened Text
  import opened Filesystem

  datatype Record = Record(name: string, artifact: Identity, manifest: Identity)

  const MAX_LINE: nat := 2048
  const FIELD_COUNT: nat := 9

  function ManifestName(name: string): string {
    name + ".manifest.json"
  }

  predicate DigitsAt(s: string, from: nat, to: nat) {
    from <= to <= |s| && AllDigits(s[from..to])
  }

  predicate HexAt(s: string, from: nat, to: nat) {
    from <= to <= |s| && forall i :: from <= i < to ==> IsDigit(s[i]) || 'a' <= s[i] <= 'f'
  }

  /** `postgres-YYYY-MM-DDTHH-MM-SS-mmmZ-<12 hex digits>.dump.enc`, character by character. */
  predicate HasNameShape(s: string) {
    && |s| == 55
    && s[..9] == "postgres-"
    && DigitsAt(s, 9, 13) && s[13] == '-'
    && DigitsAt(s, 14, 16) && s[16] == '-'
    && DigitsAt(s, 17, 19) && s[19] == 'T'
    && DigitsAt(s, 20, 22) && s[22] == '-'
    && DigitsAt(s, 23, 25) && s[25] == '-'
    && DigitsAt(s, 26, 28) && s[28] == '-'
    && DigitsAt(s, 29, 32) && s[32..34] == "Z-"
    && HexAt(s, 34, 46)
    && s[46..] == ".dump.enc"
  }

  function DaysIn(year: nat, month: nat): nat
    requires 1 <= month <= 12
  {
    if month == 2 then
      if year % 4 == 0 && (year % 100 != 0 || year % 400 == 0) then 29 else 28
    else if month in {4, 6, 9, 11} then 30 else 31
  }

  predicate HasValidTimestamp(s: string)
    requires HasNameShape(s)
  {
    var month := Number(s[14..16]);
    && 1 <= month <= 12
    && 1 <= Number(s[17..19]) <= DaysIn(Number(s[9..13]), month)
    && Number(s[20..22]) <= 23 && Number(s[23..25]) <= 59 && Number(s[26..28]) <= 59
    && Number(s[29..32]) <= 999
  }

  predicate IsArtifactName(s: string) {
    HasNameShape(s) && HasValidTimestamp(s)
  }

  // ---------- What an artifact's name says ----------

  /** When a backup was taken, and the random part of its name. */
  datatype Stamp = Stamp(year: nat, month: nat, day: nat, hour: nat, minute: nat, second: nat, milli: nat,
                         suffix: string)

  predicate IsStamp(t: Stamp) {
    && t.year <= 9999 && 1 <= t.month <= 12 && 1 <= t.day <= DaysIn(t.year, t.month)
    && t.hour < 24 && t.minute < 60 && t.second < 60 && t.milli < 1000
    && |t.suffix| == 12 && HexAt(t.suffix, 0, 12)
  }

  /** The last digits of a number, with leading zeros. */
  function Padded(n: nat, width: nat): (s: string)
    ensures |s| == width && AllDigits(s)
  {
    if width == 0 then "" else Padded(n / 10, width - 1) + [DigitChar(n % 10)]
  }

  function DateOf(t: Stamp): (s: string)
    ensures |s| == 10
  {
    Padded(t.year, 4) + "-" + Padded(t.month, 2) + "-" + Padded(t.day, 2)
  }

  function TimeOf(t: Stamp): (s: string)
    ensures |s| == 12
  {
    Padded(t.hour, 2) + "-" + Padded(t.minute, 2) + "-" + Padded(t.second, 2) + "-" + Padded(t.milli, 3)
  }

  function NameOf(t: Stamp): string {
    "postgres-" + DateOf(t) + "T" + TimeOf(t) + "Z-" + t.suffix + ".dump.enc"
  }

  function Power(n: nat): (p: nat)
    ensures p > 0
  {
    if n == 0 then 1 else 10 * Power(n - 1)
  }

  lemma {:induction false} PaddedIsRead(n: nat, width: nat)
    requires n < Power(width)
    ensures Number(Padded(n, width)) == n
  {
    if width > 0 {
      PaddedIsRead(n / 10, width - 1);
      assert Padded(n, width)[..width - 1] == Padded(n / 10, width - 1);
    }
  }

  lemma {:induction false} ReadIsPadded(s: string)
    requires AllDigits(s)
    ensures Padded(Number(s), |s|) == s && Number(s) < Power(|s|)
  {
    if s != "" {
      ReadIsPadded(s[..|s| - 1]);
      assert s == s[..|s| - 1] + [s[|s| - 1]];
    }
  }

  /** The date reads back. */
  lemma DateParts(t: Stamp)
    requires t.year <= 9999 && t.month <= 12 && t.day <= 31
    ensures var s := DateOf(t);
            && s[4] == '-' == s[7] && AllDigits(s[0..4]) && AllDigits(s[5..7]) && AllDigits(s[8..10])
            && Number(s[0..4]) == t.year && Number(s[5..7]) == t.month && Number(s[8..10]) == t.day
  {
    var s := DateOf(t);
    assert s[0..4] == Padded(t.year, 4) && s[5..7] == Padded(t.month, 2) && s[8..10] == Padded(t.day, 2);
    assert Power(4) == 10000 && Power(2) == 100;
    PaddedIsRead(t.year, 4);
    PaddedIsRead(t.month, 2);
    PaddedIsRead(t.day, 2);
  }

  /** The time of day reads back. */
  lemma TimeParts(t: Stamp)
    requires t.hour < 24 && t.minute < 60 && t.second < 60 && t.milli < 1000
    ensures var s := TimeOf(t);
            && s[2] == '-' == s[5] && s[8] == '-'
            && AllDigits(s[0..2]) && AllDigits(s[3..5]) && AllDigits(s[6..8]) && AllDigits(s[9..12])
            && Number(s[0..2]) == t.hour && Number(s[3..5]) == t.minute && Number(s[6..8]) == t.second
            && Number(s[9..12]) == t.milli
  {
    var s := TimeOf(t);
    assert s[0..2] == Padded(t.hour, 2) && s[3..5] == Padded(t.minute, 2) && s[6..8] == Padded(t.second, 2);
    assert s[9..12] == Padded(t.milli, 3) && Power(3) == 1000 && Power(2) == 100;
    PaddedIsRead(t.hour, 2);
    PaddedIsRead(t.minute, 2);
    PaddedIsRead(t.second, 2);
    PaddedIsRead(t.milli, 3);
  }

  lemma NameParts(date: string, time: string, suffix: string)
    requires |date| == 10 && |time| == 12 && |suffix| == 12
    ensures var s := "postgres-" + date + "T" + time + "Z-" + suffix + ".dump.enc";
            && |s| == 55 && s[..9] == "postgres-" && s[9..19] == date && s[19] == 'T' && s[20..32] == time
            && s[32..34] == "Z-" && s[34..46] == suffix && s[46..] == ".dump.enc"
  {
    var front := "postgres-" + date + "T" + time + "Z-" + suffix;
    assert (front + ".dump.enc")[|front|..] == ".dump.enc";
  }

  lemma SliceOfSlice(s: string, from: nat, to: nat, a: nat, b: nat)
    requires from <= to <= |s| && a <= b <= to - from
    ensures s[from..to][a..b] == s[from + a..from + b]
  {
    var inner, outer := s[from..to][a..b], s[from + a..from + b];
    assert forall i :: 0 <= i < b - a ==> inner[i] == s[from..to][a + i] == outer[i];
  }

  /** A stamp makes a name of an artifact. */
  lemma StampIsName(t: Stamp)
    requires IsStamp(t)
    ensures IsArtifactName(NameOf(t))
  {
    var s := NameOf(t);
    NameParts(DateOf(t), TimeOf(t), t.suffix);
    DateParts(t);
    TimeParts(t);
    SliceOfSlice(s, 9, 19, 0, 4);
    SliceOfSlice(s, 9, 19, 5, 7);
    SliceOfSlice(s, 9, 19, 8, 10);
    SliceOfSlice(s, 20, 32, 0, 2);
    SliceOfSlice(s, 20, 32, 3, 5);
    SliceOfSlice(s, 20, 32, 6, 8);
    SliceOfSlice(s, 20, 32, 9, 12);
    assert s[13] == s[9..19][4] && s[16] == s[9..19][7];
    assert s[22] == s[20..32][2] && s[25] == s[20..32][5] && s[28] == s[20..32][8];
    assert forall i :: 34 <= i < 46 ==> s[i] == s[34..46][i - 34];
  }

  function StampOf(s: string): Stamp
    requires HasNameShape(s)
  {
    Stamp(Number(s[9..13]), Number(s[14..16]), Number(s[17..19]), Number(s[20..22]), Number(s[23..25]),
          Number(s[26..28]), Number(s[29..32]), s[34..46])
  }

  lemma DateIsSpelled(s: string)
    requires HasNameShape(s)
    ensures StampOf(s).year <= 9999 && DateOf(StampOf(s)) == s[9..19]
  {
    ReadIsPadded(s[9..13]);
    ReadIsPadded(s[14..16]);
    ReadIsPadded(s[17..19]);
    assert Power(4) == 10000;
    assert s[9..19] == s[9..13] + "-" + s[14..16] + "-" + s[17..19];
  }

  lemma TimeIsSpelled(s: string)
    requires HasNameShape(s)
    ensures TimeOf(StampOf(s)) == s[20..32]
  {
    ReadIsPadded(s[20..22]);
    ReadIsPadded(s[23..25]);
    ReadIsPadded(s[26..28]);
    ReadIsPadded(s[29..32]);
    assert s[20..32] == s[20..22] + "-" + s[23..25] + "-" + s[26..28] + "-" + s[29..32];
  }

  lemma NameIsSpelled(s: string)
    requires HasNameShape(s)
    ensures s == "postgres-" + s[9..19] + "T" + s[20..32] + "Z-" + s[34..46] + ".dump.enc"
  {
  }

  /** A name is that of its stamp. */
  lemma NameHasStamp(s: string)
    requires IsArtifactName(s)
    ensures IsStamp(StampOf(s)) && s == NameOf(StampOf(s))
  {
    DateIsSpelled(s);
    TimeIsSpelled(s);
    NameIsSpelled(s);
  }

  /**
   The names of artifacts are those that a moment between the years 0 and 9999 and twelve hexadecimal digits make:
   `postgres-YYYY-MM-DDTHH-MM-SS-mmmZ-<digits>.dump.enc`.
   */
  lemma NamesAreStamps(s: string)
    ensures IsArtifactName(s) <==> exists t :: IsStamp(t) && s == NameOf(t)
  {
    if IsArtifactName(s) {
      NameHasStamp(s);
    }
    if t :| IsStamp(t) && s == NameOf(t) {
      StampIsName(t);
    }
  }

  /** How many days a year has, month by month. */
  function DaysUpTo(year: nat, month: nat): nat
    requires month <= 12
  {
    if month == 0 then 0 else DaysUpTo(year, month - 1) + DaysIn(year, month)
  }

  /** How many leap days there are up to the end of a year. */
  function LeapDays(year: nat): int {
    year / 4 - year / 100 + year / 400
  }

  /** The calendar is the Gregorian one: months alternate but for July and August, and years follow the leap rule. */
  lemma CalendarIsGregorian(year: nat, month: nat)
    requires 1 <= year && 1 <= month <= 12
    ensures month != 2 ==> DaysIn(year, month) == 30 + (month + month / 8) % 2
    ensures DaysUpTo(year, 12) == 365 + LeapDays(year) - LeapDays(year - 1)
  {
    LeapDayCount(year);
    HalfYears(year);
  }

  lemma HalfYears(year: nat)
    ensures DaysUpTo(year, 12) == DaysIn(year, 2) + 337
  {
    assert DaysUpTo(year, 1) == 31;
    assert DaysUpTo(year, 2) == 31 + DaysIn(year, 2);
    assert DaysUpTo(year, 3) == DaysUpTo(year, 2) + 31;
    assert DaysUpTo(year, 4) == DaysUpTo(year, 3) + 30;
    assert DaysUpTo(year, 5) == DaysUpTo(year, 4) + 31;
    assert DaysUpTo(year, 6) == DaysUpTo(year, 5) + 30;
    assert DaysUpTo(year, 7) == DaysUpTo(year, 6) + 31;
    assert DaysUpTo(year, 8) == DaysUpTo(year, 7) + 31;
    assert DaysUpTo(year, 9) == DaysUpTo(year, 8) + 30;
    assert DaysUpTo(year, 10) == DaysUpTo(year, 9) + 31;
    assert DaysUpTo(year, 11) == DaysUpTo(year, 10) + 30;
    assert DaysUpTo(year, 12) == DaysUpTo(year, 11) + 31;
  }

  lemma LeapDayCount(year: nat)
    requires 1 <= year
    ensures LeapDays(year) - LeapDays(year - 1)
         == if year % 4 == 0 && (year % 100 != 0 || year % 400 == 0) then 1 else 0
  {
    Every4(year);
    Every100(year);
    Every400(year);
    Multiples(year);
  }

  lemma Every4(n: nat)
    requires 1 <= n
    ensures n / 4 - (n - 1) / 4 == if n % 4 == 0 then 1 else 0
  {
  }

  lemma Every100(n: nat)
    requires 1 <= n
    ensures n / 100 - (n - 1) / 100 == if n % 100 == 0 then 1 else 0
  {
  }

  lemma Every400(n: nat)
    requires 1 <= n
    ensures n / 400 - (n - 1) / 400 == if n % 400 == 0 then 1 else 0
  {
  }

  lemma Multiples(n: nat)
    ensures n % 100 == 0 ==> n % 4 == 0
    ensures n % 400 == 0 ==> n % 100 == 0
  {
    if n % 100 == 0 {
      NothingOver4(n / 100, n / 4, n % 4);
    }
    if n % 400 == 0 {
      NothingOver100(n / 400, n / 100, n % 100);
    }
  }

  lemma NothingOver4(a: int, b: int, r: nat)
    requires 100 * a == 4 * b + r && r < 4
    ensures r == 0
  {
    var k := 25 * a - b;
    assert r == 4 * k;
  }

  lemma NothingOver100(a: int, b: int, r: nat)
    requires 400 * a == 100 * b + r && r < 100
    ensures r == 0
  {
    var k := 4 * a - b;
    assert r == 100 * k;
  }

  /** `mtime_ns` and `ctime_ns` may be negative. */
  predicate IsSigned(index: nat) {
    index == 3 || index == 4
  }

  function Negated(n: int): int {
    -n
  }

  function ParseInteger(s: string, signed: bool): Option<int> {
    if IsCanonical(s) then Some(Number(s))
    else if signed && |s| >= 2 && s[0] == '-' && IsCanonical(s[1..]) && s[1] != '0' then Some(Negated(Number(s[1..])))
    else None
  }

  function PrintInteger(n: int): string {
    if n < 0 then "-" + Numeral(-n) else Numeral(n)
  }

  function Fields(identity: Identity): (values: seq<int>)
    ensures |values| == FIELD_COUNT
  {
    [identity.dev, identity.ino, identity.size, identity.mtime, identity.ctime, identity.mode,
     identity.uid, identity.gid, identity.nlink]
  }

  /** Reads `count` fields from position `index` of an identity on. */
  function ParseFields(pieces: seq<string>, index: nat): (values: Option<seq<int>>)
    ensures values.Some? ==> |values.value| == |pieces|
  {
    if pieces == [] then Some([])
    else
      var first := ParseInteger(pieces[0], IsSigned(index));
      var rest := ParseFields(pieces[1..], index + 1);
      if first.Some? && rest.Some? then Some([first.value] + rest.value) else None
  }

  function ParseIdentity(pieces: seq<string>): Option<Identity>
    requires |pieces| == FIELD_COUNT
  {
    match ParseFields(pieces, 0)
    case None => None
    case Some(v) => Some(Identity(v[0], v[1], v[2], v[3], v[4], v[5], v[6], v[7], v[8]))
  }

  function Parse(line: string): Option<Record> {
    if line == "" || |line| > MAX_LINE || '\n' in line || '\r' in line then None
    else
      var pieces := Split(line, '\t');
      if |pieces| != 19 || !IsArtifactName(pieces[0]) then None
      else
        var artifact := ParseIdentity(pieces[1..10]);
        var manifest := ParseIdentity(pieces[10..19]);
        if artifact.None? || manifest.None? || artifact.value.nlink != 1 || manifest.value.nlink != 1 then None
        else Some(Record(pieces[0], artifact.value, manifest.value))
  }

  function PrintFields(values: seq<int>): seq<string> {
    seq(|values|, i requires 0 <= i < |values| => PrintInteger(values[i]))
  }

  /** The line for a record: tabs between the fields, canonical decimals. */
  function Print(record: Record): string {
    Join([record.name] + PrintFields(Fields(record.artifact)) + PrintFields(Fields(record.manifest)), '\t')
  }

  /** Only the signed fields are negative. */
  predicate InRange(values: seq<int>, index: nat) {
    forall i :: 0 <= i < |values| ==> IsSigned(index + i) || 0 <= values[i]
  }

  /** Of an identity these are its two times. */
  lemma RangeMeans(identity: Identity)
    ensures InRange(Fields(identity), 0) <==>
            && 0 <= identity.dev && 0 <= identity.ino && 0 <= identity.size && 0 <= identity.mode
            && 0 <= identity.uid && 0 <= identity.gid && 0 <= identity.nlink
  {
    var values := Fields(identity);
    if InRange(values, 0) {
      assert 0 <= values[0] && 0 <= values[1] && 0 <= values[2] && 0 <= values[5] && 0 <= values[6] && 0 <= values[7]
        && 0 <= values[8];
    }
  }

  /** The records that a line can carry. */
  predicate Expressible(record: Record) {
    && IsArtifactName(record.name)
    && InRange(Fields(record.artifact), 0) && InRange(Fields(record.manifest), 0)
    && record.artifact.nlink == 1 && record.manifest.nlink == 1
    && |Print(record)| <= MAX_LINE
  }

  lemma ParsedIsSpelled(s: string, signed: bool)
    requires ParseInteger(s, signed).Some?
    ensures s == PrintInteger(ParseInteger(s, signed).value) && (signed || 0 <= ParseInteger(s, signed).value)
  {
    if IsCanonical(s) {
      CanonicalIsNumeral(s);
    } else {
      var digits := s[1..];
      CanonicalIsNumeral(digits);
      NumeralIsCanonical(Number(digits));
      assert s == "-" + digits && digits[0] != '0';
    }
  }

  lemma SpelledIsParsed(n: int, signed: bool)
    requires signed || 0 <= n
    ensures ParseInteger(PrintInteger(n), signed) == Some(n)
  {
    if n < 0 {
      var digits := Numeral(-n);
      NumeralIsCanonical(-n);
      var s := "-" + digits;
      assert s[1..] == digits && s[0] == '-' && !IsDigit('-') && digits[0] != '0';
    } else {
      NumeralIsCanonical(n);
    }
  }

  /** An integer field has exactly one spelling, and that spelling has no separator. */
  lemma IntegerSpelling(s: string, signed: bool, n: int)
    ensures ParseInteger(s, signed) == Some(n) <==> s == PrintInteger(n) && (signed || 0 <= n)
    ensures forall c :: c in PrintInteger(n) ==> c == '-' || IsDigit(c)
  {
    if ParseInteger(s, signed) == Some(n) {
      ParsedIsSpelled(s, signed);
    }
    if signed || 0 <= n {
      SpelledIsParsed(n, signed);
    }
    NumeralIsCanonical(if n < 0 then -n else n);
  }

  lemma RangeOfRest(values: seq<int>, index: nat)
    requires values != []
    ensures InRange(values, index) <==> (IsSigned(index) || 0 <= values[0]) && InRange(values[1..], index + 1)
  {
    var rest := values[1..];
    assert forall i :: 0 <= i < |rest| ==> rest[i] == values[i + 1];
    if InRange(values, index) {
      assert IsSigned(index + 0) || 0 <= values[0];
      forall i | 0 <= i < |rest|
        ensures IsSigned(index + 1 + i) || 0 <= rest[i]
      {
        assert IsSigned(index + (i + 1)) || 0 <= values[i + 1];
      }
    }
    if (IsSigned(index) || 0 <= values[0]) && InRange(rest, index + 1) {
      forall i | 0 <= i < |values|
        ensures IsSigned(index + i) || 0 <= values[i]
      {
        assert i > 0 ==> IsSigned(index + 1 + (i - 1)) || 0 <= rest[i - 1];
      }
    }
  }

  lemma PrintOfRest(values: seq<int>)
    requires values != []
    ensures PrintFields(values) == [PrintInteger(values[0])] + PrintFields(values[1..])
  {
  }

  lemma {:induction false} FieldsSpelling(pieces: seq<string>, index: nat, values: seq<int>)
    ensures ParseFields(pieces, index) == Some(values) <==> pieces == PrintFields(values) && InRange(values, index)
    decreases |pieces|
  {
    if pieces != [] && values != [] {
      FieldsSpelling(pieces[1..], index + 1, values[1..]);
      IntegerSpelling(pieces[0], IsSigned(index), values[0]);
      RangeOfRest(values, index);
      PrintOfRest(values);
      SameHeadAndRest(pieces, PrintFields(values));
      assert values == [values[0]] + values[1..];
    }
  }

  lemma SameHeadAndRest(a: seq<string>, b: seq<string>)
    requires a != [] && b != []
    ensures a == b <==> a[0] == b[0] && a[1..] == b[1..]
  {
    assert a == [a[0]] + a[1..] && b == [b[0]] + b[1..];
  }

  lemma IdentitySpelling(pieces: seq<string>, identity: Identity)
    requires |pieces| == FIELD_COUNT
    ensures ParseIdentity(pieces) == Some(identity) <==>
            pieces == PrintFields(Fields(identity)) && InRange(Fields(identity), 0)
  {
    FieldsSpelling(pieces, 0, Fields(identity));
    var parsed := ParseFields(pieces, 0);
    if parsed.Some? && ParseIdentity(pieces) == Some(identity) {
      assert parsed.value == Fields(identity);
    }
  }

  lemma PrintedPieces(record: Record)
    requires Expressible(record)
    ensures var line := Print(record);
            && line != "" && '\n' !in line && '\r' !in line
            && Split(line, '\t') ==
               [record.name] + PrintFields(Fields(record.artifact)) + PrintFields(Fields(record.manifest))
  {
    var pieces := [record.name] + PrintFields(Fields(record.artifact)) + PrintFields(Fields(record.manifest));
    forall piece, c | piece in pieces && c in piece
      ensures c != '\t' && c != '\n' && c != '\r'
    {
      NameCharacters(record.name);
      if piece != record.name {
        var i :| 1 <= i < |pieces| && pieces[i] == piece;
        var n := if i < 10 then Fields(record.artifact)[i - 1] else Fields(record.manifest)[i - 10];
        assert piece == PrintInteger(n);
        IntegerSpelling(piece, true, n);
      }
    }
    forall piece | piece in pieces
      ensures '\t' !in piece
    {
    }
    SplitJoin(pieces, '\t');
    JoinedCharacters(pieces, '\t', '\n');
    JoinedCharacters(pieces, '\t', '\r');
    assert Join(pieces, '\t')[0] == record.name[0];
  }

  lemma NameCharacters(s: string)
    requires HasNameShape(s)
    ensures '\t' !in s && '\n' !in s && '\r' !in s
  {
    forall i | 0 <= i < |s|
      ensures s[i] >= '-'
    {
      if i < 9 { assert s[..9][i] == s[i]; }
      else if i < 13 { assert s[9..13][i - 9] == s[i]; }
      else if 14 <= i < 16 { assert s[14..16][i - 14] == s[i]; }
      else if 17 <= i < 19 { assert s[17..19][i - 17] == s[i]; }
      else if 20 <= i < 22 { assert s[20..22][i - 20] == s[i]; }
      else if 23 <= i < 25 { assert s[23..25][i - 23] == s[i]; }
      else if 26 <= i < 28 { assert s[26..28][i - 26] == s[i]; }
      else if 29 <= i < 32 { assert s[29..32][i - 29] == s[i]; }
      else if 32 <= i < 34 { assert s[32..34][i - 32] == s[i]; }
      else if 46 <= i { assert s[46..][i - 46] == s[i]; }
    }
  }

  lemma {:induction false} JoinedCharacters(pieces: seq<string>, sep: char, c: char)
    requires c != sep
    requires forall piece :: piece in pieces ==> c !in piece
    ensures c !in Join(pieces, sep)
  {
    if |pieces| > 1 {
      JoinedCharacters(pieces[1..], sep, c);
    }
  }

  /**
   Parsing is exact: a line yields a record if and only if the record is expressible and the line is
   its printed form. So no two lines yield the same record.
   */
  lemma ParseIsExact(line: string, record: Record)
    ensures Parse(line) == Some(record) <==> Expressible(record) && line == Print(record)
  {
    if Parse(line) == Some(record) {
      ParsePrints(line, record);
    }
    if Expressible(record) && line == Print(record) {
      PrintParses(record);
    }
  }

  lemma ParsePrints(line: string, record: Record)
    requires Parse(line) == Some(record)
    ensures Expressible(record) && line == Print(record)
  {
    var pieces := Split(line, '\t');
    IdentitySpelling(pieces[1..10], record.artifact);
    IdentitySpelling(pieces[10..19], record.manifest);
    assert pieces == [pieces[0]] + pieces[1..10] + pieces[10..19];
    JoinSplit(line, '\t');
  }

  lemma PrintParses(record: Record)
    requires Expressible(record)
    ensures Parse(Print(record)) == Some(record)
  {
    PrintedPieces(record);
    var pieces := Split(Print(record), '\t');
    assert pieces[1..10] == PrintFields(Fields(record.artifact));
    assert pieces[10..19] == PrintFields(Fields(record.manifest));
    IdentitySpelling(pieces[1..10], record.artifact);
    IdentitySpelling(pieces[10..19], record.manifest);
  }

  lemma ParseIsInjective(line1: string, line2: string)
    requires Parse(line1).Some? && Parse(line1) == Parse(line2)
    ensures line1 == line2
  {
    ParseIsExact(line1, Parse(line1).value);
    ParseIsExact(line2, Parse(line1).value);
  }

  /** What the pruning of a pair relies on of its name. */
  predicate IsPlainName(s: string) {
    |s| == 55 && s[0] == 'p'
  }

  lemma ShapeIsPlain(s: string)
    requires HasNameShape(s)
    ensures IsPlainName(s)
  {
    assert s[..9][0] == s[0];
  }

  /** An artifact's name is never a manifest's name, and no two manifests share one. */
  lemma NamesDoNotClash(a: string, b: string)
    requires IsPlainName(a) && IsPlainName(b)
    ensures a != ManifestName(b)
    ensures ManifestName(a) == ManifestName(b) ==> a == b
  {
    if ManifestName(a) == ManifestName(b) {
      assert a == ManifestName(a)[..55] == ManifestName(b)[..55] == b;
    }
  }
}
