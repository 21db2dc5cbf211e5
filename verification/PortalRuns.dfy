/** What the cache holds after any run of commits and resets, said without replaying it. */
module PortalRuns {
  import opened Outcomes
  import opened PortalCache

  /** What a run leaves in the cache, in order: a reset, or the merge at the end of a call. */
  datatype Record = Cleared | Committed(identity: string, results: map<Dataset, LoadResult>, refreshed: bool)

  function Replay(log: seq<Record>): map<string, Entry> {
    if log == [] then map[]
    else Advance(Replay(log[..|log| - 1]), log[|log| - 1])
  }

  function Advance(cache: map<string, Entry>, record: Record): map<string, Entry> {
    match record
    case Cleared => map[]
    case Committed(identity, results, refreshed) =>
      cache[identity := Merged(EntryOf(cache, identity), results, refreshed)]
  }

  function After(log: seq<Record>, identity: string): Entry {
    EntryOf(Replay(log), identity)
  }

  /** The record merges a result for the dataset. */
  predicate Answers(record: Record, identity: string, d: Dataset) {
    record.Committed? && record.identity == identity && d in record.results
  }

  predicate Loads(record: Record, identity: string, d: Dataset) {
    Answers(record, identity, d) && !Failed(record.results[d])
  }

  predicate Fails(record: Record, identity: string, d: Dataset) {
    Answers(record, identity, d) && Failed(record.results[d])
  }

  /** The record takes the loaded mark away: a reset, a failed result, or a fresh feature read for a gated dataset. */
  predicate Unmarks(record: Record, identity: string, d: Dataset) {
    || record.Cleared?
    || Fails(record, identity, d)
    || (record.Committed? && record.identity == identity && record.refreshed && d.Gated? && !Loads(record, identity, d))
  }

  // ---------- One record ----------

  lemma ValueStep(cache: map<string, Entry>, record: Record, identity: string, d: Dataset)
    ensures ValueOf(EntryOf(Advance(cache, record), identity), d)
         == if record.Cleared? then Empty
            else if Loads(record, identity, d) then record.results[d].value
            else ValueOf(EntryOf(cache, identity), d)
  {
    if record.Committed? {
      MergedValueAt(EntryOf(cache, record.identity), record.results, record.refreshed, d);
    }
  }

  lemma MarkStep(cache: map<string, Entry>, record: Record, identity: string, d: Dataset)
    ensures d in EntryOf(Advance(cache, record), identity).marks
       <==> (Loads(record, identity, d) || (d in EntryOf(cache, identity).marks && !Unmarks(record, identity, d)))
  {
    if record.Committed? {
      MergedMarkAt(EntryOf(cache, record.identity), record.results, record.refreshed, d);
    }
  }

  lemma ErrorStep(cache: map<string, Entry>, record: Record, identity: string, d: Dataset, key: ErrorKey)
    requires key in ErrorKeys(d)
    ensures ErrorOf(EntryOf(Advance(cache, record), identity), key)
         == if record.Cleared? || Loads(record, identity, d) then None
            else if Fails(record, identity, d) then record.results[d].error
            else ErrorOf(EntryOf(cache, identity), key)
  {
    if record.Committed? {
      MergedErrorAt(EntryOf(cache, record.identity), record.results, record.refreshed, d, key);
    }
  }

  // ---------- Registers ----------

  /** The value follows the log: a writing record sets it, any other leaves it. */
  ghost predicate IsRegister<V(!new)>(value: seq<Record> -> V, writes: Record -> bool, written: Record -> V) {
    forall log: seq<Record>, record: Record ::
      value(log + [record]) == if writes(record) then written(record) else value(log)
  }

  predicate IsLastWrite(log: seq<Record>, writes: Record -> bool, k: nat) {
    k < |log| && writes(log[k]) && forall j :: k < j < |log| ==> !writes(log[j])
  }

  lemma {:induction false} LastWriteHolds<V(!new)>(log: seq<Record>, value: seq<Record> -> V, writes: Record -> bool,
                                                   written: Record -> V, k: nat)
    requires IsRegister(value, writes, written) && IsLastWrite(log, writes, k)
    ensures value(log) == written(log[k])
    decreases |log|
  {
    var last := |log| - 1;
    assert log == log[..last] + [log[last]];
    if k < last {
      LastWriteHolds(log[..last], value, writes, written, k);
    }
  }

  lemma {:induction false} NoWriteHolds<V(!new)>(log: seq<Record>, value: seq<Record> -> V, writes: Record -> bool,
                                                 written: Record -> V)
    requires IsRegister(value, writes, written) && forall j :: 0 <= j < |log| ==> !writes(log[j])
    ensures value(log) == value([])
  {
    if log != [] {
      var last := |log| - 1;
      assert log == log[..last] + [log[last]];
      NoWriteHolds(log[..last], value, writes, written);
    }
  }

  lemma {:induction false} LastWriteExists(log: seq<Record>, writes: Record -> bool)
    ensures (forall j :: 0 <= j < |log| ==> !writes(log[j])) || exists k :: IsLastWrite(log, writes, k)
  {
    if log != [] {
      var last := |log| - 1;
      LastWriteExists(log[..last], writes);
      if writes(log[last]) {
        assert IsLastWrite(log, writes, last);
      } else if k :| IsLastWrite(log[..last], writes, k) {
        assert IsLastWrite(log, writes, k);
      }
    }
  }

  lemma ReplayStep(log: seq<Record>, record: Record)
    ensures Replay(log + [record]) == Advance(Replay(log), record)
  {
    assert (log + [record])[..|log|] == log;
  }

  // ---------- Whole runs ----------

  predicate WritesValue(identity: string, d: Dataset, record: Record) {
    record.Cleared? || Loads(record, identity, d)
  }

  function WrittenValue(identity: string, d: Dataset, record: Record): Value {
    if Loads(record, identity, d) then record.results[d].value else Empty
  }

  lemma ValueIsRegister(identity: string, d: Dataset)
    ensures IsRegister(log => ValueOf(After(log, identity), d), r => WritesValue(identity, d, r),
                       r => WrittenValue(identity, d, r))
  {
    forall log: seq<Record>, record: Record
      ensures ValueOf(After(log + [record], identity), d)
           == if WritesValue(identity, d, record) then WrittenValue(identity, d, record)
             else ValueOf(After(log, identity), d)
    {
      ReplayStep(log, record);
      ValueStep(Replay(log), record, identity, d);
    }
  }

  predicate WritesMark(identity: string, d: Dataset, record: Record) {
    Loads(record, identity, d) || Unmarks(record, identity, d)
  }

  lemma MarkIsRegister(identity: string, d: Dataset)
    ensures IsRegister(log => d in After(log, identity).marks, r => WritesMark(identity, d, r),
                       r => Loads(r, identity, d))
  {
    forall log: seq<Record>, record: Record
      ensures (d in After(log + [record], identity).marks)
           == if WritesMark(identity, d, record) then Loads(record, identity, d) else d in After(log, identity).marks
    {
      ReplayStep(log, record);
      MarkStep(Replay(log), record, identity, d);
    }
  }

  predicate WritesError(identity: string, d: Dataset, record: Record) {
    record.Cleared? || Answers(record, identity, d)
  }

  function WrittenError(identity: string, d: Dataset, record: Record): Option<string> {
    if Fails(record, identity, d) then record.results[d].error else None
  }

  lemma ErrorIsRegister(identity: string, d: Dataset, key: ErrorKey)
    requires key in ErrorKeys(d)
    ensures IsRegister(log => ErrorOf(After(log, identity), key), r => WritesError(identity, d, r),
                       r => WrittenError(identity, d, r))
  {
    forall log: seq<Record>, record: Record
      ensures ErrorOf(After(log + [record], identity), key)
           == if WritesError(identity, d, record) then WrittenError(identity, d, record)
             else ErrorOf(After(log, identity), key)
    {
      ReplayStep(log, record);
      ErrorStep(Replay(log), record, identity, d, key);
    }
  }

  /** The last successful result since a reset is the value, whatever other calls committed meanwhile. */
  lemma LastResultIsTheValue(log: seq<Record>, identity: string, d: Dataset, k: nat)
    requires k < |log| && Loads(log[k], identity, d)
    requires forall j :: k < j < |log| ==> !log[j].Cleared? && !Loads(log[j], identity, d)
    ensures ValueOf(After(log, identity), d) == log[k].results[d].value
  {
    ValueIsRegister(identity, d);
    LastWriteHolds(log, log => ValueOf(After(log, identity), d), r => WritesValue(identity, d, r),
                   r => WrittenValue(identity, d, r), k);
  }

  /** Without a successful result since the last reset, a dataset is empty. */
  lemma NoResultIsEmpty(log: seq<Record>, identity: string, d: Dataset, start: nat)
    requires start <= |log| && (start == 0 || log[start - 1].Cleared?)
    requires forall j :: start <= j < |log| ==> !Loads(log[j], identity, d) && !log[j].Cleared?
    ensures ValueOf(After(log, identity), d) == Empty
  {
    ValueIsRegister(identity, d);
    var value := log => ValueOf(After(log, identity), d);
    var writes, written := r => WritesValue(identity, d, r), r => WrittenValue(identity, d, r);
    if start == 0 {
      NoWriteHolds(log, value, writes, written);
    } else {
      LastWriteHolds(log, value, writes, written, start - 1);
    }
  }

  ghost predicate Keeps(log: seq<Record>, identity: string, d: Dataset, k: nat) {
    k < |log| && Loads(log[k], identity, d) && forall j :: k < j < |log| ==> !Unmarks(log[j], identity, d)
  }

  lemma LastWriteKeeps(log: seq<Record>, identity: string, d: Dataset, last: nat)
    requires IsLastWrite(log, r => WritesMark(identity, d, r), last)
    ensures Loads(log[last], identity, d) <==> exists k: nat :: Keeps(log, identity, d, k)
  {
    if Loads(log[last], identity, d) {
      assert Keeps(log, identity, d, last);
    }
    if k: nat :| Keeps(log, identity, d, k) {
      assert WritesMark(identity, d, log[k]) && WritesMark(identity, d, log[last]);
    }
  }

  /** A dataset is marked loaded exactly when some result loaded it and nothing since took the mark away. */
  lemma MarkedMeansLoaded(log: seq<Record>, identity: string, d: Dataset)
    ensures d in After(log, identity).marks <==> exists k: nat :: Keeps(log, identity, d, k)
  {
    MarkIsRegister(identity, d);
    var value := log => d in After(log, identity).marks;
    var writes, written := r => WritesMark(identity, d, r), r => Loads(r, identity, d);
    LastWriteExists(log, writes);
    if last: nat :| IsLastWrite(log, writes, last) {
      LastWriteHolds(log, value, writes, written, last);
      LastWriteKeeps(log, identity, d, last);
    } else {
      NoWriteHolds(log, value, writes, written);
      assert forall k: nat :: Keeps(log, identity, d, k) ==> writes(log[k]);
    }
  }

  ghost predicate LastFailed(log: seq<Record>, identity: string, d: Dataset, k: nat) {
    k < |log| && Fails(log[k], identity, d) && forall j :: k < j < |log| ==> !WritesError(identity, d, log[j])
  }

  /** A load error is shown exactly when the last result since a reset failed, and it is that result's error. */
  lemma ErrorMeansLastFailed(log: seq<Record>, identity: string, d: Dataset, key: ErrorKey)
    requires key in ErrorKeys(d)
    ensures ErrorOf(After(log, identity), key).Some? <==> exists k: nat :: LastFailed(log, identity, d, k)
    ensures forall k: nat :: LastFailed(log, identity, d, k) ==>
      ErrorOf(After(log, identity), key) == log[k].results[d].error
  {
    ErrorIsRegister(identity, d, key);
    var value := log => ErrorOf(After(log, identity), key);
    var writes, written := r => WritesError(identity, d, r), r => WrittenError(identity, d, r);
    LastWriteExists(log, writes);
    if last: nat :| IsLastWrite(log, writes, last) {
      LastWriteHolds(log, value, writes, written, last);
      assert Fails(log[last], identity, d) ==> LastFailed(log, identity, d, last);
    } else {
      NoWriteHolds(log, value, writes, written);
    }
    forall k: nat | LastFailed(log, identity, d, k)
      ensures value(log) == log[k].results[d].error
    {
      LastWriteHolds(log, value, writes, written, k);
    }
  }

  /** After every run, a dataset marked loaded has no load error under any of its keys. */
  lemma LoadedHasNoError(log: seq<Record>, identity: string, d: Dataset, key: ErrorKey)
    requires d in After(log, identity).marks && key in ErrorKeys(d)
    ensures ErrorOf(After(log, identity), key).None?
  {
    MarkedMeansLoaded(log, identity, d);
    ErrorMeansLastFailed(log, identity, d, key);
    var k: nat :| Keeps(log, identity, d, k);
    forall e: nat | LastFailed(log, identity, d, e)
      ensures false
    {
      if k < e {
        assert Unmarks(log[e], identity, d);
      } else {
        assert WritesError(identity, d, log[k]);
      }
    }
  }
}
