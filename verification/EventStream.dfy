/**
 Reading the discovery stream: text arrives in chunks cut anywhere, frames end with a blank line, and the `data:`
 lines of a frame hold one message. A subset of sections 9.2.5 and 9.2.6 of the WHATWG HTML Living Standard.
 */
module EventStream {
  import opened Outcomes

  // ---------- Where frames end ----------

  /** The length of the line end at a position, `\r\n` or `\n`; zero if there is none. */
  function LineEnd(s: string, i: nat): nat {
    if i < |s| && s[i] == '\n' then 1
    else if i + 1 < |s| && s[i] == '\r' && s[i + 1] == '\n' then 2
    else 0
  }

  /** The length of the two line ends at a position; zero if they are not there. */
  function Gap(s: string, i: nat): nat {
    var first := LineEnd(s, i);
    var second := LineEnd(s, i + first);
    if first == 0 || second == 0 then 0 else first + second
  }

  /** The first gap at or after a position, or the end. */
  function FirstGap(s: string, from: nat): (i: nat)
    requires from <= |s|
    ensures from <= i <= |s| && (i < |s| ==> 0 < Gap(s, i) <= |s| - i)
    decreases |s| - from
  {
    if from == |s| || Gap(s, from) > 0 then from else FirstGap(s, from + 1)
  }

  lemma {:induction false} NoGapBefore(s: string, from: nat, j: nat)
    requires from <= |s| && from <= j < FirstGap(s, from)
    ensures Gap(s, j) == 0
    decreases |s| - from
  {
    if from < j {
      NoGapBefore(s, from + 1, j);
    }
  }

  lemma {:induction false} FirstGapIs(s: string, from: nat, i: nat)
    requires from <= i <= |s| && (i < |s| ==> Gap(s, i) > 0)
    requires forall j :: from <= j < i ==> Gap(s, j) == 0
    ensures FirstGap(s, from) == i
    decreases i - from
  {
    if from < i {
      FirstGapIs(s, from + 1, i);
    }
  }

  /** The frames that end in a text, and what follows the last of them. */
  datatype Pieces = Pieces(frames: seq<string>, rest: string)

  function Split(s: string): Pieces
    decreases |s|, 1
  {
    SplitAt(s, FirstGap(s, 0))
  }

  function SplitAt(s: string, i: nat): Pieces
    requires i <= |s| && (i < |s| ==> 0 < Gap(s, i) <= |s| - i)
    decreases |s|, 0
  {
    if i == |s| then Pieces([], s)
    else
      var after := Split(s[i + Gap(s, i)..]);
      Pieces([s[..i]] + after.frames, after.rest)
  }

  function Frames(s: string): seq<string> {
    Split(s).frames
  }

  function Rest(s: string): string {
    Split(s).rest
  }

  lemma GapStays(a: string, c: string, i: nat)
    ensures Gap(a, i) > 0 ==> Gap(a + c, i) == Gap(a, i)
    ensures i + Gap(a + c, i) <= |a| ==> Gap(a, i) == Gap(a + c, i)
  {
  }

  /** More text cannot bring a gap before one that is already there. */
  lemma NoEarlierGap(a: string, c: string, i: nat, q: nat)
    requires i < q && Gap(a, q) > 0 && Gap(a, i) == 0
    ensures Gap(a + c, i) == 0
  {
    GapStays(a, c, i);
    GapStays(a, c, q);
  }

  lemma FirstGapStays(a: string, c: string)
    requires FirstGap(a, 0) < |a|
    ensures FirstGap(a + c, 0) == FirstGap(a, 0)
    ensures Gap(a + c, FirstGap(a, 0)) == Gap(a, FirstGap(a, 0))
  {
    var q := FirstGap(a, 0);
    GapStays(a, c, q);
    forall i | 0 <= i < q
      ensures Gap(a + c, i) == 0
    {
      NoGapBefore(a, 0, i);
      NoEarlierGap(a, c, i, q);
    }
    FirstGapIs(a + c, 0, q);
  }

  lemma CutAt(s: string, i: nat, tail: string)
    requires FirstGap(s, 0) == i < |s| && tail == s[i + Gap(s, i)..]
    ensures Split(s) == Pieces([s[..i]] + Split(tail).frames, Split(tail).rest)
  {
  }

  lemma FrameFirst(split: string -> Pieces, a: string, c: string, tail: string, frame: string)
    requires split(a) == Pieces([frame] + split(tail).frames, split(tail).rest)
    requires split(a + c) == Pieces([frame] + split(tail + c).frames, split(tail + c).rest)
    requires split(tail + c)
      == Pieces(split(tail).frames + split(split(tail).rest + c).frames, split(split(tail).rest + c).rest)
    ensures split(a + c) == Pieces(split(a).frames + split(split(a).rest + c).frames, split(split(a).rest + c).rest)
  {
    assert [frame] + (split(tail).frames + split(split(tail).rest + c).frames)
        == [frame] + split(tail).frames + split(split(tail).rest + c).frames;
  }

  lemma CutLonger(a: string, c: string, i: nat, tail: string)
    requires FirstGap(a, 0) == i < |a| && tail == a[i + Gap(a, i)..]
    ensures Split(a + c) == Pieces([a[..i]] + Split(tail + c).frames, Split(tail + c).rest)
  {
    FirstGapStays(a, c);
    var whole, next := a + c, i + Gap(a, i);
    assert whole[next..] == tail + c && whole[..i] == a[..i] by {
      DropAppended(a, c, i, next);
    }
    CutAt(whole, i, tail + c);
  }

  lemma DropAppended(a: string, c: string, i: nat, next: nat)
    requires i <= next <= |a|
    ensures (a + c)[next..] == a[next..] + c && (a + c)[..i] == a[..i]
  {
  }

  lemma NoGapYet(a: string, c: string)
    requires FirstGap(a, 0) == |a|
    ensures Split(a + c) == Pieces(Frames(a) + Frames(Rest(a) + c), Rest(Rest(a) + c))
  {
    assert Split(a) == Pieces([], a);
    assert [] + Frames(a + c) == Frames(a + c);
  }

  /** Splitting what is there, and then the rest with more text, splits the whole. */
  lemma {:induction false} SplitExtends(a: string, c: string)
    ensures Split(a + c) == Pieces(Frames(a) + Frames(Rest(a) + c), Rest(Rest(a) + c))
    decreases |a|
  {
    var i := FirstGap(a, 0);
    if i < |a| {
      var tail := a[i + Gap(a, i)..];
      SplitExtends(tail, c);
      CutAt(a, i, tail);
      CutLonger(a, c, i, tail);
      FrameFirst(Split, a, c, tail, a[..i]);
    } else {
      NoGapYet(a, c);
    }
  }

  lemma {:induction false} RestHasNoGap(s: string, i: nat)
    ensures Gap(Rest(s), i) == 0
    decreases |s|
  {
    var q := FirstGap(s, 0);
    if q < |s| {
      RestHasNoGap(s[q + Gap(s, q)..], i);
      CutAt(s, q, s[q + Gap(s, q)..]);
    } else {
      assert Split(s) == Pieces([], s);
      if i < |s| {
        NoGapBefore(s, 0, i);
      }
    }
  }

  lemma NoGapIsRest(s: string)
    requires forall i :: 0 <= i < |s| ==> Gap(s, i) == 0
    ensures Split(s) == Pieces([], s)
  {
    FirstGapIs(s, 0, |s|);
  }

  /** Text without a line feed ends no frame. */
  lemma TailJoinsRest(s: string, t: string)
    requires '\n' !in t
    ensures Frames(s + t) == Frames(s) && Rest(s + t) == Rest(s) + t
  {
    SplitExtends(s, t);
    var r := Rest(s);
    forall i | 0 <= i < |r + t|
      ensures Gap(r + t, i) == 0
    {
      RestHasNoGap(s, i);
      GapStays(r, t, i);
    }
    NoGapIsRest(r + t);
  }

  // ---------- The message of a frame ----------

  predicate IsSpace(c: char) {
    || c in {'\t', '\n', '\U{000B}', '\U{000C}', '\r', ' ', '\U{00A0}', '\U{1680}'}
    || c in {'\U{2028}', '\U{2029}', '\U{202F}', '\U{205F}', '\U{3000}', '\U{FEFF}'}
    || '\U{2000}' <= c <= '\U{200A}'
  }

  function TrimLeft(s: string): string {
    if s != [] && IsSpace(s[0]) then TrimLeft(s[1..]) else s
  }

  function TrimRight(s: string): string {
    if s != [] && IsSpace(s[|s| - 1]) then TrimRight(s[..|s| - 1]) else s
  }

  function Trim(s: string): string {
    TrimRight(TrimLeft(s))
  }

  function FirstLineEnd(s: string, from: nat): (i: nat)
    requires from <= |s|
    ensures from <= i <= |s| && (i < |s| ==> 0 < LineEnd(s, i) <= |s| - i)
    ensures forall j :: from <= j < i ==> LineEnd(s, j) == 0
    decreases |s| - from
  {
    if from == |s| || LineEnd(s, from) > 0 then from else FirstLineEnd(s, from + 1)
  }

  function Lines(s: string): seq<string>
    decreases |s|
  {
    var i := FirstLineEnd(s, 0);
    if i == |s| then [s] else [s[..i]] + Lines(s[i + LineEnd(s, i)..])
  }

  const FIELD := "data:"

  /** The `data:` lines, without the field name and surrounding space. */
  function DataLines(lines: seq<string>): seq<string> {
    if lines == [] then []
    else if FIELD <= lines[0] then [Trim(lines[0][|FIELD|..])] + DataLines(lines[1..])
    else DataLines(lines[1..])
  }

  function JoinLines(lines: seq<string>): string {
    if lines == [] then "" else if |lines| == 1 then lines[0] else lines[0] + "\n" + JoinLines(lines[1..])
  }

  function DataOf(frame: string): string {
    JoinLines(DataLines(Lines(frame)))
  }

  // ---------- Taking in messages ----------

  /** A parsed message; a result without a payload does not count as a result. */
  datatype Item = Progress(report: string) | Result(payload: Option<string>) | Error(reason: string) | Other

  datatype Failure = Malformed(data: string) | Reported(payload: string) | NoResult

  /** What the reader has handed on so far. */
  datatype Reading = Reading(reports: seq<string>, result: Option<string>, failure: Option<Failure>)

  /** `JSON.parse`; none if it throws. */
  type Parser = string -> Option<Item>

  const START := Reading([], None, None)

  function Consume(reading: Reading, frame: string, parse: Parser): Reading {
    var data := DataOf(frame);
    if data == "" then reading else Take(reading, data, parse)
  }

  function Take(reading: Reading, data: string, parse: Parser): Reading {
    match parse(data)
    case None => reading.(failure := Some(Malformed(data)))
    case Some(Progress(report)) => reading.(reports := reading.reports + [report])
    case Some(Result(payload)) => reading.(result := payload)
    case Some(Error(payload)) => reading.(failure := Some(Reported(payload)))
    case Some(Other) => reading
  }

  /** Takes in frames up to the first failure. */
  function ConsumeAll(reading: Reading, frames: seq<string>, parse: Parser): Reading
    decreases |frames|
  {
    if frames == [] || reading.failure.Some? then reading
    else ConsumeAll(Consume(reading, frames[0], parse), frames[1..], parse)
  }

  /** The end of the stream: a last frame without its gap, and a result or a failure. */
  function Finish(reading: Reading, rest: string, parse: Parser): Reading {
    if reading.failure.Some? then reading
    else
      var last := if Trim(rest) != "" then Consume(reading, rest, parse) else reading;
      if last.failure.None? && last.result.None? then last.(failure := Some(NoResult)) else last
  }

  /** What a text says, read at once. */
  function ReadText(text: string, parse: Parser): Reading {
    Finish(ConsumeAll(START, Frames(text), parse), Rest(text), parse)
  }

  function Concat(chunks: seq<string>): string {
    if chunks == [] then "" else Concat(chunks[..|chunks| - 1]) + chunks[|chunks| - 1]
  }

  lemma {:induction false} ConsumeInParts(reading: Reading, a: seq<string>, b: seq<string>, parse: Parser)
    ensures ConsumeAll(reading, a + b, parse) == ConsumeAll(ConsumeAll(reading, a, parse), b, parse)
    decreases |a|
  {
    if a == [] {
      assert a + b == b;
    } else if reading.failure.None? {
      assert (a + b)[1..] == a[1..] + b;
      ConsumeInParts(Consume(reading, a[0], parse), a[1..], b, parse);
    }
  }

  lemma {:induction false} ConcatGrows(chunks: seq<string>, i: nat)
    requires i <= |chunks|
    ensures Concat(chunks[..i]) <= Concat(chunks)
    decreases |chunks|
  {
    if i == |chunks| {
      assert chunks[..i] == chunks;
    } else {
      var front := chunks[..|chunks| - 1];
      ConcatGrows(front, i);
      assert front[..i] == chunks[..i];
    }
  }

  lemma FramesExtend(text: string, more: string, parse: Parser)
    ensures ConsumeAll(START, Frames(text + more), parse)
         == ConsumeAll(ConsumeAll(START, Frames(text), parse), Frames(Rest(text) + more), parse)
  {
    SplitExtends(text, more);
    ConsumeInParts(START, Frames(text), Frames(Rest(text) + more), parse);
  }

  /** A failure ends the reading, whatever text follows. */
  lemma FailureIsFinal(text: string, whole: string, parse: Parser)
    requires text <= whole && ConsumeAll(START, Frames(text), parse).failure.Some?
    ensures ReadText(whole, parse) == ConsumeAll(START, Frames(text), parse)
  {
    assert whole == text + whole[|text|..];
    FramesExtend(text, whole[|text|..], parse);
  }

  /** Takes in the frames of one chunk, in order, until one fails. */
  method ConsumeFrames(start: Reading, frames: seq<string>, parse: Parser) returns (reading: Reading)
    requires start.failure.None?
    ensures reading == ConsumeAll(start, frames, parse)
  {
    reading := start;
    var i := 0;
    while i < |frames| && reading.failure.None?
      invariant i <= |frames| && ConsumeAll(reading, frames[i..], parse) == ConsumeAll(start, frames, parse)
    {
      assert frames[i..][1..] == frames[i + 1..];
      reading := Consume(reading, frames[i], parse);
      i := i + 1;
    }
  }

  /** All frames that end in the text are taken in, and the buffer holds what follows. */
  ghost predicate HasRead(text: string, reading: Reading, buffer: string, parse: Parser) {
    reading == ConsumeAll(START, Frames(text), parse) && buffer == Rest(text)
  }

  method TakeChunk(start: Reading, held: string, chunk: string, parse: Parser, ghost text: string)
    returns (reading: Reading, buffer: string)
    requires HasRead(text, start, held, parse) && start.failure.None?
    ensures HasRead(text + chunk, reading, buffer, parse)
  {
    SplitExtends(text, chunk);
    buffer := held + chunk;
    ConsumeInParts(START, Frames(text), Frames(buffer), parse);
    reading := ConsumeFrames(start, Frames(buffer), parse);
    buffer := Rest(buffer);
  }

  /** After a failure the remaining chunks do not matter. */
  lemma FailureEndsStream(chunks: seq<string>, i: nat, tail: string, reading: Reading, buffer: string, parse: Parser)
    requires i <= |chunks| && HasRead(Concat(chunks[..i]), reading, buffer, parse) && reading.failure.Some?
    ensures reading == ReadText(Concat(chunks) + tail, parse)
  {
    ConcatGrows(chunks, i);
    FailureIsFinal(Concat(chunks[..i]), Concat(chunks) + tail, parse);
  }

  lemma NothingRead(parse: Parser)
    ensures HasRead("", START, "", parse)
  {
  }

  lemma EndOfStream(text: string, tail: string, reading: Reading, buffer: string, parse: Parser)
    requires HasRead(text, reading, buffer, parse) && '\n' !in tail
    ensures Finish(reading, buffer + tail, parse) == ReadText(text + tail, parse)
  {
    TailJoinsRest(text, tail);
  }

  lemma ConcatStep(chunks: seq<string>, i: nat)
    requires i < |chunks|
    ensures Concat(chunks[..i + 1]) == Concat(chunks[..i]) + chunks[i]
  {
    assert chunks[..i + 1][..i] == chunks[..i];
  }

  /**
   Reads the stream chunk by chunk: whatever the cuts, the reading is that of the whole text. `tail` is what the
   decoder holds back to the end, at most a replacement character.
   */
  method ReadStream(chunks: seq<string>, tail: string, parse: Parser) returns (reading: Reading)
    requires '\n' !in tail
    ensures reading == ReadText(Concat(chunks) + tail, parse)
  {
    NothingRead(parse);
    reading := START;
    var buffer := "";
    for i := 0 to |chunks|
      invariant reading.failure.None? && HasRead(Concat(chunks[..i]), reading, buffer, parse)
    {
      ConcatStep(chunks, i);
      reading, buffer := TakeChunk(reading, buffer, chunks[i], parse, Concat(chunks[..i]));
      if reading.failure.Some? {
        FailureEndsStream(chunks, i + 1, tail, reading, buffer, parse);
        return;
      }
    }
    assert chunks[..|chunks|] == chunks;
    EndOfStream(Concat(chunks), tail, reading, buffer, parse);
    reading := Finish(reading, buffer + tail, parse);
  }

  // ---------- What the server sends ----------

  /** A message as `JSON.stringify` writes an object: on one line, without space around it. */
  predicate IsMessage(m: string) {
    '\n' !in m && '\r' !in m && m != "" && !IsSpace(m[0]) && !IsSpace(m[|m| - 1])
  }

  function FrameOf(m: string): string {
    FIELD + " " + m
  }

  function FramesOf(messages: seq<string>): seq<string> {
    if messages == [] then [] else [FrameOf(messages[0])] + FramesOf(messages[1..])
  }

  function Encode(messages: seq<string>): string {
    if messages == [] then "" else FrameOf(messages[0]) + "\n\n" + Encode(messages[1..])
  }

  /** Taking in messages directly, without a stream. */
  function TakeAll(reading: Reading, messages: seq<string>, parse: Parser): Reading
    decreases |messages|
  {
    if messages == [] || reading.failure.Some? then reading
    else TakeAll(Take(reading, messages[0], parse), messages[1..], parse)
  }

  predicate AreMessages(messages: seq<string>) {
    forall i :: 0 <= i < |messages| ==> IsMessage(messages[i])
  }

  lemma FrameEnds(frame: string, more: string)
    requires '\n' !in frame && '\r' !in frame
    ensures FirstGap(frame + "\n\n" + more, 0) == |frame| && Gap(frame + "\n\n" + more, |frame|) == 2
  {
    var s := frame + "\n\n" + more;
    assert s[|frame|] == '\n' && s[|frame| + 1] == '\n';
    assert forall j :: 0 <= j < |frame| ==> s[j] == frame[j];
    FirstGapIs(s, 0, |frame|);
  }

  lemma CutFrame(frame: string, more: string)
    requires '\n' !in frame && '\r' !in frame
    ensures Split(frame + "\n\n" + more) == Pieces([frame] + Split(more).frames, Split(more).rest)
  {
    var s := frame + "\n\n" + more;
    FrameEnds(frame, more);
    assert s[..|frame|] == frame && s[|frame| + 2..] == more;
    CutAt(s, |frame|, more);
  }

  lemma FrameIsOneLine(m: string)
    requires IsMessage(m)
    ensures '\n' !in FrameOf(m) && '\r' !in FrameOf(m)
  {
  }

  lemma {:induction false} EncodedSplits(messages: seq<string>)
    requires AreMessages(messages)
    ensures Split(Encode(messages)) == Pieces(FramesOf(messages), "")
  {
    if messages != [] {
      FrameIsOneLine(messages[0]);
      CutFrame(FrameOf(messages[0]), Encode(messages[1..]));
      EncodedSplits(messages[1..]);
    }
  }

  lemma {:induction false} NoLineEnd(s: string, from: nat)
    requires '\n' !in s && from <= |s|
    ensures FirstLineEnd(s, from) == |s|
    decreases |s| - from
  {
    if from < |s| {
      NoLineEnd(s, from + 1);
    }
  }

  lemma TrimMessage(m: string)
    requires IsMessage(m)
    ensures Trim(" " + m) == m
  {
    assert IsSpace(' ') && (" " + m)[1..] == m;
    assert TrimLeft(" " + m) == TrimLeft(m) == m;
  }

  /** The data of a frame is the message it was made of. */
  lemma DataOfFrame(m: string)
    requires IsMessage(m)
    ensures DataOf(FrameOf(m)) == m
  {
    var frame := FrameOf(m);
    FrameIsOneLine(m);
    NoLineEnd(frame, 0);
    assert Lines(frame) == [frame];
    assert FIELD <= frame && frame[|FIELD|..] == " " + m;
    TrimMessage(m);
    assert DataLines([frame]) == [m];
  }

  lemma {:induction false} FramesCarryMessages(reading: Reading, messages: seq<string>, parse: Parser)
    requires AreMessages(messages)
    ensures ConsumeAll(reading, FramesOf(messages), parse) == TakeAll(reading, messages, parse)
    decreases |messages|
  {
    if messages != [] && reading.failure.None? {
      DataOfFrame(messages[0]);
      assert FramesOf(messages)[1..] == FramesOf(messages[1..]);
      FramesCarryMessages(Take(reading, messages[0], parse), messages[1..], parse);
    }
  }

  /** The client takes in exactly the messages the server sends, in order, up to the first failure. */
  lemma EncodedIsRead(messages: seq<string>, parse: Parser)
    requires AreMessages(messages)
    ensures ReadText(Encode(messages), parse) == Finish(TakeAll(START, messages, parse), "", parse)
  {
    EncodedSplits(messages);
    FramesCarryMessages(START, messages, parse);
  }

  // ---------- What a reading says ----------

  /** The places below `n` where something holds, in order. */
  ghost predicate Picks(at: seq<nat>, n: nat, holds: nat -> bool) {
    && (forall k :: 0 <= k < |at| ==> at[k] < n && holds(at[k]))
    && (forall j, k :: 0 <= j < k < |at| ==> at[j] < at[k])
    && (forall i: nat :: i < n && holds(i) ==> i in at)
  }

  lemma PicksMore(at: seq<nat>, n: nat, holds: nat -> bool)
    requires Picks(at, n, holds)
    ensures Picks(if holds(n) then at + [n] else at, n + 1, holds)
  {
    forall i: nat | i < n && holds(i)
      ensures i in at + [n]
    {
      assert i in at;
    }
  }

  /** Message `n` is the first that does not parse or reports an error; there is none if `n` is their number. */
  predicate EndsAt(messages: seq<string>, parse: Parser, n: nat) {
    && n <= |messages|
    && (forall i :: 0 <= i < n ==> parse(messages[i]).Some? && !parse(messages[i]).value.Error?)
    && (n < |messages| ==> parse(messages[n]).None? || parse(messages[n]).value.Error?)
  }

  predicate IsProgress(messages: seq<string>, parse: Parser, i: nat) {
    i < |messages| && parse(messages[i]).Some? && parse(messages[i]).value.Progress?
  }

  predicate IsResult(messages: seq<string>, parse: Parser, i: nat) {
    i < |messages| && parse(messages[i]).Some? && parse(messages[i]).value.Result?
  }

  /** The reports are those of the progress messages before the end, at these places. */
  ghost predicate ReportsAre(messages: seq<string>, parse: Parser, n: nat, at: seq<nat>, reports: seq<string>) {
    && Picks(at, n, (i: nat) => IsProgress(messages, parse, i)) && |at| == |reports|
    && forall k :: 0 <= k < |at| && at[k] < |messages| ==> parse(messages[at[k]]) == Some(Progress(reports[k]))
  }

  /** The result is the payload of the last result message before the end, if there is one. */
  ghost predicate ResultIs(messages: seq<string>, parse: Parser, n: nat, result: Option<string>) {
    && ((forall i: nat :: i < n ==> !IsResult(messages, parse, i)) ==> result == None)
    && (forall i: nat :: i < n && IsResult(messages, parse, i)
                         && (forall j: nat :: i < j < n ==> !IsResult(messages, parse, j)) ==>
          parse(messages[i]).value.payload == result)
  }

  /** The failure of the message at the end. */
  function FailureAt(messages: seq<string>, parse: Parser, n: nat): Option<Failure> {
    if n >= |messages| then None
    else if parse(messages[n]).None? then Some(Malformed(messages[n]))
    else if parse(messages[n]).value.Error? then Some(Reported(parse(messages[n]).value.reason))
    else None
  }

  /** What messages say up to the first failure. */
  ghost predicate Says(messages: seq<string>, parse: Parser, n: nat, at: seq<nat>, reading: Reading) {
    && EndsAt(messages, parse, n)
    && ReportsAre(messages, parse, n, at, reading.reports)
    && ResultIs(messages, parse, n, reading.result)
    && reading.failure == FailureAt(messages, parse, n)
  }

  lemma {:induction false} TakeInParts(reading: Reading, a: seq<string>, m: string, parse: Parser)
    ensures TakeAll(reading, a + [m], parse) == TakeAll(TakeAll(reading, a, parse), [m], parse)
    decreases |a|
  {
    if a == [] {
      assert a + [m] == [m];
    } else if reading.failure.None? {
      assert (a + [m])[1..] == a[1..] + [m];
      TakeInParts(Take(reading, a[0], parse), a[1..], m, parse);
    }
  }

  /** One more message after others that did not fail. */
  lemma SaysMore(front: seq<string>, m: string, parse: Parser, n: nat, at: seq<nat>, reading: Reading)
    returns (next: nat, places: seq<nat>)
    requires Says(front, parse, n, at, reading) && reading.failure.None?
    ensures Says(front + [m], parse, next, places, TakeAll(reading, [m], parse))
  {
    var messages := front + [m];
    var taken := Take(reading, m, parse);
    assert n == |front| && [m][1..] == [];
    assert TakeAll(reading, [m], parse) == taken;
    next := if taken.failure.Some? then n else n + 1;
    places := if IsProgress(messages, parse, n) then at + [n] else at;
    forall i: nat | i < n
      ensures messages[i] == front[i]
    {
    }
    ReportsGrow(front, m, parse, at, reading.reports);
    ResultGrows(front, m, parse, reading.result);
  }

  lemma ReportsGrow(front: seq<string>, m: string, parse: Parser, at: seq<nat>, reports: seq<string>)
    requires ReportsAre(front, parse, |front|, at, reports)
    ensures ReportsAre(front + [m], parse, |front|, at, reports)
    ensures var messages, n := front + [m], |front|;
      if IsProgress(messages, parse, n) then
        ReportsAre(messages, parse, n + 1, at + [n], reports + [parse(m).value.report])
      else ReportsAre(messages, parse, n + 1, at, reports)
  {
    var messages, n := front + [m], |front|;
    var was, later := (i: nat) => IsProgress(front, parse, i), (i: nat) => IsProgress(messages, parse, i);
    forall i: nat | i < n
      ensures was(i) == later(i)
    {
      assert messages[i] == front[i];
    }
    forall k | 0 <= k < |at|
      ensures at[k] < n && later(at[k]) && parse(messages[at[k]]) == Some(Progress(reports[k]))
    {
      assert was(at[k]) && messages[at[k]] == front[at[k]];
    }
    assert Picks(at, n, later) by {
      forall i: nat | i < n && later(i)
        ensures i in at
      {
        assert was(i);
      }
    }
    PicksMore(at, n, later);
    assert messages[n] == m;
  }

  lemma ResultGrows(front: seq<string>, m: string, parse: Parser, result: Option<string>)
    requires ResultIs(front, parse, |front|, result)
    ensures ResultIs(front + [m], parse, |front|, result)
    ensures var messages, n := front + [m], |front|;
      ResultIs(messages, parse, n + 1, if IsResult(messages, parse, n) then parse(m).value.payload else result)
  {
    var messages, n := front + [m], |front|;
    assert messages[n] == m;
    forall i: nat | i < n
      ensures messages[i] == front[i] && IsResult(messages, parse, i) == IsResult(front, parse, i)
    {
    }
  }

  lemma {:induction false} TakenSays(messages: seq<string>, parse: Parser) returns (n: nat, at: seq<nat>)
    ensures Says(messages, parse, n, at, TakeAll(START, messages, parse))
  {
    if messages == [] {
      n, at := 0, [];
    } else {
      var last := |messages| - 1;
      var front, m := messages[..last], messages[last];
      assert messages == front + [m];
      n, at := TakenSays(front, parse);
      var reading := TakeAll(START, front, parse);
      TakeInParts(START, front, m, parse);
      if reading.failure.None? {
        n, at := SaysMore(front, m, parse, n, at, reading);
      } else {
        FailedSaysOn(front, m, parse, n, at, reading);
      }
    }
  }

  lemma FailedSaysOn(front: seq<string>, m: string, parse: Parser, n: nat, at: seq<nat>, reading: Reading)
    requires Says(front, parse, n, at, reading) && reading.failure.Some?
    ensures Says(front + [m], parse, n, at, reading)
  {
    var messages := front + [m];
    forall i: nat | i <= n
      ensures messages[i] == front[i] && IsResult(messages, parse, i) == IsResult(front, parse, i)
      ensures IsProgress(messages, parse, i) == IsProgress(front, parse, i)
    {
    }
    var was, later := (i: nat) => IsProgress(front, parse, i), (i: nat) => IsProgress(messages, parse, i);
    assert Picks(at, n, later) by {
      forall k | 0 <= k < |at|
        ensures at[k] < n && later(at[k])
      {
        assert was(at[k]);
      }
      forall i: nat | i < n && later(i)
        ensures i in at
      {
        assert was(i);
      }
    }
  }

  /** The data of frames that have any. */
  function DataIn(frames: seq<string>): seq<string> {
    if frames == [] then []
    else if DataOf(frames[0]) == "" then DataIn(frames[1..])
    else [DataOf(frames[0])] + DataIn(frames[1..])
  }

  /** The messages of a text: those of its frames, and of what follows the last gap unless that is blank. */
  function MessagesIn(text: string): seq<string> {
    DataIn(Frames(text) + if Trim(Rest(text)) != "" then [Rest(text)] else [])
  }

  lemma {:induction false} ConsumedIsTaken(reading: Reading, frames: seq<string>, parse: Parser)
    ensures ConsumeAll(reading, frames, parse) == TakeAll(reading, DataIn(frames), parse)
    decreases |frames|
  {
    if frames != [] {
      var next := Consume(reading, frames[0], parse);
      ConsumedIsTaken(next, frames[1..], parse);
      if DataOf(frames[0]) == "" {
        ConsumedIsTaken(reading, frames[1..], parse);
      } else {
        assert DataIn(frames)[1..] == DataIn(frames[1..]);
      }
    }
  }

  /** A reading that ends without a failure needs a result. */
  function Concluded(reading: Reading): Reading {
    if reading.failure.None? && reading.result.None? then reading.(failure := Some(NoResult)) else reading
  }

  lemma TextIsTaken(text: string, parse: Parser)
    ensures ReadText(text, parse) == Concluded(TakeAll(START, MessagesIn(text), parse))
  {
    var frames, rest := Frames(text), Rest(text);
    var last := if Trim(rest) != "" then [rest] else [];
    ConsumeInParts(START, frames, last, parse);
    ConsumedIsTaken(START, frames + last, parse);
    var reading := ConsumeAll(START, frames, parse);
    if reading.failure.None? && last != [] {
      assert last[1..] == [];
      assert ConsumeAll(reading, last, parse) == Consume(reading, rest, parse);
    }
  }

  /**
   What a text says: up to the first message that does not parse or reports an error, the reports are those of the
   progress messages in order and the result is that of the last result message; the failure is that of the message
   at the end, or else that there is no result.
   */
  lemma TextSays(text: string, parse: Parser) returns (n: nat, at: seq<nat>)
    ensures var messages, reading := MessagesIn(text), ReadText(text, parse);
      && EndsAt(messages, parse, n)
      && ReportsAre(messages, parse, n, at, reading.reports)
      && ResultIs(messages, parse, n, reading.result)
      && (n < |messages| ==> reading.failure == FailureAt(messages, parse, n))
      && (n == |messages| ==> reading.failure == if reading.result.None? then Some(NoResult) else None)
  {
    TextIsTaken(text, parse);
    n, at := TakenSays(MessagesIn(text), parse);
  }

  lemma {:induction false} FramesHoldMessages(messages: seq<string>)
    requires AreMessages(messages)
    ensures DataIn(FramesOf(messages)) == messages
  {
    if messages != [] {
      DataOfFrame(messages[0]);
      assert FramesOf(messages)[1..] == FramesOf(messages[1..]);
      FramesHoldMessages(messages[1..]);
    }
  }

  /** The messages in what the server sends are those it sent. */
  lemma EncodedHoldsMessages(messages: seq<string>)
    requires AreMessages(messages)
    ensures MessagesIn(Encode(messages)) == messages
  {
    EncodedSplits(messages);
    FramesHoldMessages(messages);
    assert FramesOf(messages) + [] == FramesOf(messages);
  }

  // ---------- Lines and spaces ----------

  /** What is trimmed is space, and what is left neither begins nor ends with any. */
  lemma TrimCuts(text: string) returns (i: nat, j: nat)
    ensures i <= j <= |text| && Trim(text) == text[i..j]
    ensures forall k :: 0 <= k < i || j <= k < |text| ==> IsSpace(text[k])
    ensures i < j ==> !IsSpace(text[i]) && !IsSpace(text[j - 1])
  {
    i := LeftCut(text);
    var rest := text[i..];
    var m := RightCut(rest);
    j := i + m;
    assert rest[..m] == text[i..j];
    forall k | j <= k < |text|
      ensures IsSpace(text[k])
    {
      assert rest[k - i] == text[k];
    }
  }

  lemma {:induction false} LeftCut(text: string) returns (i: nat)
    ensures i <= |text| && TrimLeft(text) == text[i..] && (i < |text| ==> !IsSpace(text[i]))
    ensures forall k :: 0 <= k < i ==> IsSpace(text[k])
  {
    i := 0;
    if text != [] && IsSpace(text[0]) {
      var n := LeftCut(text[1..]);
      i := n + 1;
    }
  }

  lemma {:induction false} RightCut(text: string) returns (j: nat)
    ensures j <= |text| && TrimRight(text) == text[..j] && (j > 0 ==> !IsSpace(text[j - 1]))
    ensures forall k :: j <= k < |text| ==> IsSpace(text[k])
  {
    j := |text|;
    if text != [] && IsSpace(text[|text| - 1]) {
      j := RightCut(text[..|text| - 1]);
    }
  }

  /** A line as it stands between line ends. */
  predicate IsLine(line: string) {
    '\n' !in line && (line != "" ==> line[|line| - 1] != '\r')
  }

  /** Lines put together with an end between any two, a line feed or a carriage return and a line feed. */
  function Spelled(lines: seq<string>, end: string): string
    requires lines != []
  {
    if |lines| == 1 then lines[0] else lines[0] + end + Spelled(lines[1..], end)
  }

  lemma LineCut(line: string, end: string, rest: string)
    requires IsLine(line) && (end == "\n" || end == "\r\n")
    ensures Lines(line + end + rest) == [line] + Lines(rest)
  {
    var s := line + end + rest;
    forall j | 0 <= j < |line|
      ensures LineEnd(s, j) == 0
    {
      assert s[j] == line[j];
      assert j + 1 < |line| ==> s[j + 1] == line[j + 1];
      assert j + 1 == |line| ==> s[j + 1] == end[0] && line[j] != '\r';
    }
    assert s[|line|] == end[0] && (|end| == 2 ==> s[|line| + 1] == end[1]);
    var i := FirstLineEnd(s, 0);
    assert LineEnd(s, |line|) == |end|;
    assert i == |line|;
    assert s[..i] == line && s[i + |end|..] == rest;
  }

  lemma LastLine(line: string)
    requires IsLine(line)
    ensures Lines(line) == [line]
  {
    NoLineEnd(line, 0);
  }

  /** Lines are split at every end, of either kind. */
  lemma {:induction false} LinesAreSplit(lines: seq<string>, end: string)
    requires lines != [] && (forall i :: 0 <= i < |lines| ==> IsLine(lines[i])) && (end == "\n" || end == "\r\n")
    ensures Lines(Spelled(lines, end)) == lines
    decreases |lines|
  {
    if |lines| == 1 {
      LastLine(lines[0]);
    } else {
      LinesAreSplit(lines[1..], end);
      LineCut(lines[0], end, Spelled(lines[1..], end));
    }
  }

  predicate IsData(lines: seq<string>, i: nat) {
    i < |lines| && IsDataLine(lines[i])
  }

  predicate IsDataLine(line: string) {
    |line| >= 5 && line[..5] == "data:"
  }

  /** What follows the field name, without space around it. */
  function Payload(line: string): string
    requires IsDataLine(line)
  {
    Trim(line[5..])
  }

  /** The `data:` lines are at these places, each taken without the field name and without space around it. */
  ghost predicate DataAt(lines: seq<string>, at: seq<nat>, data: seq<string>) {
    && Picks(at, |lines|, (i: nat) => IsData(lines, i)) && |at| == |data|
    && forall k :: 0 <= k < |at| && IsData(lines, at[k]) ==> data[k] == Payload(lines[at[k]])
  }

  /** The data lines of a frame are its lines that begin with the field name, in order. */
  lemma {:induction false} DataLinesAre(lines: seq<string>) returns (at: seq<nat>)
    ensures DataAt(lines, at, DataLines(lines))
  {
    at := [];
    if lines != [] {
      var n := |lines| - 1;
      at := DataLinesAre(lines[..n]);
      DataLinesGrow(lines[..n], lines[n]);
      DataAtGrows(lines[..n], lines[n], at, DataLines(lines[..n]));
      assert lines == lines[..n] + [lines[n]];
      at := if IsDataLine(lines[n]) then at + [n] else at;
    }
  }

  lemma DataAtGrows(lines: seq<string>, line: string, at: seq<nat>, data: seq<string>)
    requires DataAt(lines, at, data)
    ensures if IsDataLine(line) then DataAt(lines + [line], at + [|lines|], data + [Payload(line)])
            else DataAt(lines + [line], at, data)
  {
    DataPlaces(lines, line, at);
    forall k | 0 <= k < |at|
      ensures IsData(lines, at[k]) && (lines + [line])[at[k]] == lines[at[k]]
    {
      var was := (i: nat) => IsData(lines, i);
      assert was(at[k]);
    }
  }

  lemma DataPlaces(lines: seq<string>, line: string, at: seq<nat>)
    requires Picks(at, |lines|, (i: nat) => IsData(lines, i))
    ensures var places := if IsDataLine(line) then at + [|lines|] else at;
      Picks(places, |lines| + 1, (i: nat) => IsData(lines + [line], i))
  {
    var longer, n := lines + [line], |lines|;
    var was, later := (i: nat) => IsData(lines, i), (i: nat) => IsData(longer, i);
    forall i: nat | i < n
      ensures was(i) == later(i)
    {
      assert longer[i] == lines[i];
    }
    PicksSame(at, n, was, later);
    PicksMore(at, n, later);
    assert longer[n] == line;
  }

  lemma PicksSame(at: seq<nat>, n: nat, was: nat -> bool, later: nat -> bool)
    requires Picks(at, n, was) && forall i: nat :: i < n ==> was(i) == later(i)
    ensures Picks(at, n, later)
  {
  }

  lemma {:induction false} DataLinesGrow(lines: seq<string>, line: string)
    ensures DataLines(lines + [line]) == DataLines(lines) + if IsDataLine(line) then [Payload(line)] else []
  {
    assert FIELD <= line <==> IsDataLine(line);
    if lines == [] {
      assert [line][1..] == [];
    } else {
      assert (lines + [line])[1..] == lines[1..] + [line];
      DataLinesGrow(lines[1..], line);
    }
  }

  /** The data of a frame is its data lines, with a line feed between any two. */
  lemma DataIsSpelled(frame: string)
    ensures DataOf(frame) == if DataLines(Lines(frame)) == [] then "" else Spelled(DataLines(Lines(frame)), "\n")
  {
    JoinIsSpelled(DataLines(Lines(frame)));
  }

  lemma {:induction false} JoinIsSpelled(lines: seq<string>)
    ensures JoinLines(lines) == if lines == [] then "" else Spelled(lines, "\n")
  {
    if |lines| > 1 {
      JoinIsSpelled(lines[1..]);
    }
  }

  lemma LineEndShifts(p: string, s: string, i: nat)
    ensures LineEnd(p + s, |p| + i) == LineEnd(s, i)
  {
  }

  /** A frame of lines has no gap in it, whatever follows its own. */
  lemma {:induction false} LinesHaveNoGap(lines: seq<string>, end: string, more: string, j: nat)
    requires lines != [] && (forall i :: 0 <= i < |lines| ==> IsLine(lines[i]) && lines[i] != "")
    requires (end == "\n" || end == "\r\n") && j < |Spelled(lines, end)|
    ensures Gap(Spelled(lines, end) + (end + end + more), j) == 0
    decreases |lines|
  {
    var line := lines[0];
    var tail := if |lines| == 1 then end + more else Spelled(lines[1..], end) + (end + end + more);
    var s := line + end + tail;
    assert s == Spelled(lines, end) + (end + end + more) by {
      if |lines| == 1 {
        assert line + end + (end + more) == line + (end + end + more);
      } else {
        assert line + end + (Spelled(lines[1..], end) + (end + end + more))
            == (line + end + Spelled(lines[1..], end)) + (end + end + more);
      }
    }
    var p := line + end;
    if j < |line| {
      NoEndInLine(line, end, tail, j);
    } else if j < |p| {
      assert |lines| > 1;
      NextLineIsNoEnd(lines[1..], end, end + end + more);
      LineEndShifts(p, tail, 0);
      EndLength(line, end, tail, j);
    } else {
      LinesHaveNoGap(lines[1..], end, more, j - |p|);
      LineEndShifts(p, tail, j - |p|);
      LineEndShifts(p, tail, j - |p| + LineEnd(tail, j - |p|));
    }
  }

  lemma NoEndInLine(line: string, end: string, tail: string, j: nat)
    requires IsLine(line) && (end == "\n" || end == "\r\n") && j < |line|
    ensures LineEnd(line + end + tail, j) == 0
  {
    var s := line + end + tail;
    assert s[j] == line[j];
    if j + 1 < |line| {
      assert s[j + 1] == line[j + 1];
    }
  }

  lemma EndLength(line: string, end: string, tail: string, j: nat)
    requires (end == "\n" || end == "\r\n") && |line| <= j < |line + end|
    ensures LineEnd(line + end + tail, j) == |line + end| - j
  {
    var s := line + end + tail;
    assert s[j] == end[j - |line|];
    if j == |line| && |end| == 2 {
      assert s[j + 1] == end[1];
    }
  }

  lemma NextLineIsNoEnd(lines: seq<string>, end: string, more: string)
    requires lines != [] && IsLine(lines[0]) && lines[0] != "" && (end == "\n" || end == "\r\n")
    requires |lines| == 1 ==> more != "" && more[0] == end[0]
    ensures LineEnd(Spelled(lines, end) + more, 0) == 0
  {
    var s := Spelled(lines, end) + more;
    assert s[0] == lines[0][0];
    if |lines[0]| > 1 {
      assert s[1] == lines[0][1];
    }
  }

  /** A text of frames, each of lines that are not blank, is split into these frames, with ends of either kind. */
  lemma FramesAreSplit(lines: seq<string>, end: string, more: string)
    requires lines != [] && (forall i :: 0 <= i < |lines| ==> IsLine(lines[i]) && lines[i] != "")
    requires end == "\n" || end == "\r\n"
    ensures Split(Spelled(lines, end) + (end + end + more))
         == Pieces([Spelled(lines, end)] + Split(more).frames, Split(more).rest)
  {
    var frame := Spelled(lines, end);
    var s := frame + (end + end + more);
    forall j | 0 <= j < |frame|
      ensures Gap(s, j) == 0
    {
      LinesHaveNoGap(lines, end, more, j);
    }
    var n := |frame|;
    LineEndShifts(frame, end + end + more, 0);
    LineEndShifts(frame, end + end + more, |end|);
    EndLength("", end, end + more, 0);
    assert "" + end + (end + more) == end + end + more;
    LineEndShifts(end, end + more, 0);
    EndLength("", end, more, 0);
    assert "" + end + more == end + more && end + (end + more) == end + end + more;
    assert Gap(s, n) == 2 * |end|;
    FirstGapIs(s, 0, n);
    assert s[..n] == frame && s[n + 2 * |end|..] == more;
    CutAt(s, n, more);
  }
}
