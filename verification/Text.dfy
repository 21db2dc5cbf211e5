/** Splitting, joining and decimal numerals over strings. */
module Text {

  /** Pieces of a string between the occurrences of one character; never empty. */
  function Split(s: string, sep: char): (pieces: seq<string>)
    ensures pieces != []
  {
    if s == "" then [""]
    else
      var rest := Split(s[1..], sep);
      if s[0] == sep then [""] + rest else [[s[0]] + rest[0]] + rest[1..]
  }

  function Join(pieces: seq<string>, sep: char): string {
    if pieces == [] then ""
    else if |pieces| == 1 then pieces[0]
    else pieces[0] + [sep] + Join(pieces[1..], sep)
  }

  lemma {:induction false} JoinSplit(s: string, sep: char)
    ensures Join(Split(s, sep), sep) == s
    ensures forall piece :: piece in Split(s, sep) ==> sep !in piece
  {
    if s != "" {
      JoinSplit(s[1..], sep);
      var rest := Split(s[1..], sep);
      assert s == [s[0]] + s[1..];
      if s[0] == sep {
        assert ([""] + rest)[1..] == rest;
      } else {
        assert ([[s[0]] + rest[0]] + rest[1..])[1..] == rest[1..];
      }
    }
  }

  lemma {:induction false} SplitJoin(pieces: seq<string>, sep: char)
    requires pieces != []
    requires forall piece :: piece in pieces ==> sep !in piece
    ensures Split(Join(pieces, sep), sep) == pieces
  {
    if |pieces| == 1 {
      SplitPiece(pieces[0], "", sep);
      assert pieces[0] + "" == pieces[0];
    } else {
      SplitJoin(pieces[1..], sep);
      var rest := Join(pieces[1..], sep);
      assert Join(pieces, sep) == pieces[0] + ([sep] + rest);
      SplitPiece(pieces[0], [sep] + rest, sep);
      assert ([sep] + rest)[1..] == rest;
      assert Split([sep] + rest, sep) == [""] + pieces[1..];
      assert pieces[0] + "" == pieces[0];
    }
  }

  /** A piece without the separator is the first part of the first piece. */
  lemma {:induction false} SplitPiece(piece: string, rest: string, sep: char)
    requires sep !in piece
    ensures Split(piece + rest, sep) == [piece + Split(rest, sep)[0]] + Split(rest, sep)[1..]
  {
    if piece == "" {
      assert piece + rest == rest && piece + Split(rest, sep)[0] == Split(rest, sep)[0];
    } else {
      SplitPiece(piece[1..], rest, sep);
      assert (piece + rest)[1..] == piece[1..] + rest;
      var tail := Split(rest, sep);
      assert [piece[0]] + (piece[1..] + tail[0]) == piece + tail[0];
    }
  }

  predicate IsDigit(c: char) {
    '0' <= c <= '9'
  }

  predicate AllDigits(s: string) {
    forall i :: 0 <= i < |s| ==> IsDigit(s[i])
  }

  function DigitValue(c: char): nat
    requires IsDigit(c)
  {
    c as int - '0' as int
  }

  function DigitChar(d: nat): (c: char)
    requires d < 10
    ensures IsDigit(c) && DigitValue(c) == d
  {
    ('0' as int + d) as char
  }

  /** The value of a digit string. */
  function Number(s: string): nat
    requires AllDigits(s)
  {
    if s == "" then 0 else Number(s[..|s| - 1]) * 10 + DigitValue(s[|s| - 1])
  }

  function Numeral(n: nat): (s: string)
    ensures AllDigits(s) && s != ""
  {
    if n < 10 then [DigitChar(n)] else Numeral(n / 10) + [DigitChar(n % 10)]
  }

  /** `0` or a digit string that does not start with one. */
  predicate IsCanonical(s: string) {
    s != "" && AllDigits(s) && (s[0] == '0' ==> s == "0")
  }

  lemma {:induction false} NumeralIsCanonical(n: nat)
    ensures IsCanonical(Numeral(n)) && Number(Numeral(n)) == n
    ensures Numeral(n) == "0" <==> n == 0
  {
    if n < 10 {
      assert Numeral(n)[..0] == "";
      assert Number("") == 0;
    } else {
      NumeralIsCanonical(n / 10);
      assert Numeral(n)[..|Numeral(n)| - 1] == Numeral(n / 10);
    }
  }

  lemma {:induction false} CanonicalIsNumeral(s: string)
    requires IsCanonical(s)
    ensures Numeral(Number(s)) == s
  {
    if |s| == 1 {
      assert s[..0] == "";
      assert Number("") == 0;
    } else {
      var front := s[..|s| - 1];
      assert front[0] == s[0];
      CanonicalIsNumeral(front);
      NumeralIsCanonical(Number(front));
      assert Number(front) > 0;
      assert s == front + [s[|s| - 1]];
    }
  }
}
