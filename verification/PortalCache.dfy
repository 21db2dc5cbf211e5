/**
 The portal's dataset cache. A call reads the cache, waits for the feature flags, waits for its datasets, and
 then merges its results into whatever the cache holds by then; calls on one identity interleave freely.
 */
module PortalCache {
  import opened Outcomes

  datatype Gate = Connectors | Waf | Discovery

  /** The datasets, by the part they play: the core ones, the one with two error keys, and the rest, gated or not. */
  datatype Dataset =
    | State
    | Tenant
    | DeploymentFeatures
    | Notifications
    | Open(name: string)
    | Gated(gate: Gate, name: string)

  const CORE: seq<Dataset> := [State, Tenant, DeploymentFeatures]

  /** A payload; `Empty` stands for the fallback of a dataset, which is also what an unused cache holds. */
  datatype Value = Empty | Features(connectors: bool, waf: bool, discovery: bool) | Payload(body: string)

  datatype LoadResult = LoadResult(value: Value, error: Option<string>)

  /** An empty error text counts as no error. */
  predicate Failed(result: LoadResult) {
    result.error.Some? && result.error.value != ""
  }

  function Settled(value: Value): LoadResult {
    LoadResult(value, None)
  }

  datatype ErrorKey = Of(dataset: Dataset) | NotificationRules | NotificationEvents

  function ErrorKeys(dataset: Dataset): set<ErrorKey> {
    if dataset == Notifications then {NotificationRules, NotificationEvents} else {Of(dataset)}
  }

  /** The dataset an error key belongs to. */
  function Owner(key: ErrorKey): Dataset {
    match key
    case Of(dataset) => dataset
    case NotificationRules => Notifications
    case NotificationEvents => Notifications
  }

  /** What the cache holds for one identity; `issues` is the number of different error texts. */
  datatype Entry = Entry(values: map<Dataset, Value>, loadErrors: map<ErrorKey, string>, issues: nat,
                         marks: set<Dataset>)

  const EMPTY_ENTRY := Entry(map[], map[], 0, {})

  function ValueOf(entry: Entry, dataset: Dataset): Value {
    if dataset in entry.values then entry.values[dataset] else Empty
  }

  function EntryOf(cache: map<string, Entry>, identity: string): Entry {
    if identity in cache then cache[identity] else EMPTY_ENTRY
  }

  // ---------- Merging results ----------

  function Succeeded(results: map<Dataset, LoadResult>): set<Dataset> {
    set d | d in results && !Failed(results[d])
  }

  function Failures(results: map<Dataset, LoadResult>): set<Dataset> {
    set d | d in results && Failed(results[d])
  }

  function KeysOf(datasets: set<Dataset>): set<ErrorKey> {
    set d, key | d in datasets && key in ErrorKeys(d) :: key
  }

  function TextOf(results: map<Dataset, LoadResult>, d: Dataset): string {
    if d in results && results[d].error.Some? then results[d].error.value else ""
  }

  function FailureTexts(results: map<Dataset, LoadResult>): map<ErrorKey, string> {
    map key | key in KeysOf(Failures(results)) :: TextOf(results, Owner(key))
  }

  /** The values after merging: the successful results over what was there. */
  function MergedValues(values: map<Dataset, Value>, results: map<Dataset, LoadResult>): map<Dataset, Value> {
    values + map d | d in Succeeded(results) :: results[d].value
  }

  /** The errors after merging: those of other datasets, and the new failures. */
  function MergedErrors(errors: map<ErrorKey, string>, results: map<Dataset, LoadResult>): map<ErrorKey, string> {
    errors - KeysOf(Succeeded(results)) + FailureTexts(results)
  }

  /** A fresh read of the features clears the marks of all gated datasets. */
  function Kept(marks: set<Dataset>, refreshed: bool): set<Dataset> {
    set d | d in marks && !(refreshed && d.Gated?)
  }

  function MergedMarks(marks: set<Dataset>, results: map<Dataset, LoadResult>, refreshed: bool): set<Dataset> {
    Kept(marks, refreshed) - Failures(results) + Succeeded(results)
  }

  function Merged(entry: Entry, results: map<Dataset, LoadResult>, refreshed: bool): Entry {
    var errors := MergedErrors(entry.loadErrors, results);
    Entry(MergedValues(entry.values, results), errors, |errors.Values|, MergedMarks(entry.marks, results, refreshed))
  }

  lemma OneMore(part: map<Dataset, LoadResult>, d: Dataset, result: LoadResult)
    requires d !in part
    ensures Succeeded(part[d := result]) == if Failed(result) then Succeeded(part) else Succeeded(part) + {d}
    ensures Failures(part[d := result]) == if Failed(result) then Failures(part) + {d} else Failures(part)
  {
  }

  lemma ValuesStep(values: map<Dataset, Value>, part: map<Dataset, LoadResult>, d: Dataset, result: LoadResult)
    requires d !in part
    ensures MergedValues(values, part[d := result])
         == if Failed(result) then MergedValues(values, part) else MergedValues(values, part)[d := result.value]
  {
    OneMore(part, d, result);
  }

  lemma MarksStep(marks: set<Dataset>, part: map<Dataset, LoadResult>, refreshed: bool, d: Dataset, result: LoadResult)
    requires d !in part
    ensures MergedMarks(marks, part[d := result], refreshed)
         == if Failed(result) then MergedMarks(marks, part, refreshed) - {d}
           else MergedMarks(marks, part, refreshed) + {d}
  {
    OneMore(part, d, result);
  }

  function Texts(d: Dataset, text: string): map<ErrorKey, string> {
    map key | key in ErrorKeys(d) :: text
  }

  lemma KeysGrow(datasets: set<Dataset>, d: Dataset)
    ensures KeysOf(datasets + {d}) == KeysOf(datasets) + ErrorKeys(d)
  {
  }

  lemma KeysHaveOwners(datasets: set<Dataset>, key: ErrorKey)
    ensures key in KeysOf(datasets) ==> Owner(key) in datasets
  {
  }

  lemma TextsGrow(part: map<Dataset, LoadResult>, d: Dataset, result: LoadResult)
    requires d !in part && Failed(result)
    ensures FailureTexts(part[d := result]) == FailureTexts(part) + Texts(d, result.error.value)
  {
    OneMore(part, d, result);
    KeysGrow(Failures(part), d);
    forall key | key in KeysOf(Failures(part))
      ensures TextOf(part[d := result], Owner(key)) == TextOf(part, Owner(key))
    {
      KeysHaveOwners(Failures(part), key);
    }
  }

  lemma TextsStay(part: map<Dataset, LoadResult>, d: Dataset, result: LoadResult)
    requires d !in part && !Failed(result)
    ensures FailureTexts(part[d := result]) == FailureTexts(part)
    ensures FailureTexts(part).Keys !! ErrorKeys(d)
  {
    OneMore(part, d, result);
    forall key | key in KeysOf(Failures(part))
      ensures Owner(key) != d
    {
      KeysHaveOwners(Failures(part), key);
    }
  }

  lemma ThreeMaps<K, V>(a: map<K, V>, b: map<K, V>, c: map<K, V>)
    ensures a + (b + c) == a + b + c
  {
  }

  lemma DropBoth<K, V>(a: map<K, V>, b: map<K, V>, gone: set<K>, more: set<K>)
    requires b.Keys !! more
    ensures a - (gone + more) + b == a - gone + b - more
  {
  }

  lemma ErrorsStep(errors: map<ErrorKey, string>, part: map<Dataset, LoadResult>, d: Dataset, result: LoadResult)
    requires d !in part
    ensures MergedErrors(errors, part[d := result])
         == if Failed(result) then MergedErrors(errors, part) + Texts(d, result.error.value)
            else MergedErrors(errors, part) - ErrorKeys(d)
  {
    OneMore(part, d, result);
    if Failed(result) {
      TextsGrow(part, d, result);
      ThreeMaps(errors - KeysOf(Succeeded(part)), FailureTexts(part), Texts(d, result.error.value));
    } else {
      TextsStay(part, d, result);
      KeysGrow(Succeeded(part), d);
      DropBoth(errors, FailureTexts(part), KeysOf(Succeeded(part)), ErrorKeys(d));
    }
  }

  /** What one result changes. */
  function Apply(entry: Entry, d: Dataset, result: LoadResult): Entry {
    if Failed(result) then
      entry.(loadErrors := entry.loadErrors + Texts(d, result.error.value), marks := entry.marks - {d})
    else
      entry.(values := entry.values[d := result.value], loadErrors := entry.loadErrors - ErrorKeys(d),
             marks := entry.marks + {d})
  }

  /** The merge before the error texts are counted. */
  function Uncounted(entry: Entry, results: map<Dataset, LoadResult>, refreshed: bool): Entry {
    Merged(entry, results, refreshed).(issues := entry.issues)
  }

  lemma MergeStep(entry: Entry, part: map<Dataset, LoadResult>, refreshed: bool, d: Dataset, result: LoadResult)
    requires d !in part
    ensures Uncounted(entry, part[d := result], refreshed) == Apply(Uncounted(entry, part, refreshed), d, result)
  {
    ValuesStep(entry.values, part, d, result);
    MarksStep(entry.marks, part, refreshed, d, result);
    ErrorsStep(entry.loadErrors, part, d, result);
  }

  lemma NoErrors(errors: map<ErrorKey, string>)
    ensures MergedErrors(errors, map[]) == errors
  {
    var none: map<Dataset, LoadResult> := map[];
    assert Succeeded(none) == {} && Failures(none) == {};
    assert KeysOf({}) == {};
    assert FailureTexts(none) == map[];
  }

  lemma NoValues(values: map<Dataset, Value>)
    ensures MergedValues(values, map[]) == values
  {
  }

  lemma MergeNothing(entry: Entry, refreshed: bool)
    ensures Uncounted(entry, map[], refreshed) == entry.(marks := Kept(entry.marks, refreshed))
  {
    NoErrors(entry.loadErrors);
    NoValues(entry.values);
  }

  /** Takes in results one after another. */
  function Fold<E>(start: E, order: seq<Dataset>, results: map<Dataset, LoadResult>,
                   step: (E, Dataset, LoadResult) -> E): E
    requires forall d :: d in order ==> d in results
  {
    if order == [] then start
    else
      var d := order[|order| - 1];
      step(Fold(start, order[..|order| - 1], results, step), d, results[d])
  }

  function Restrict(results: map<Dataset, LoadResult>, order: seq<Dataset>): map<Dataset, LoadResult> {
    map d | d in results && d in order :: results[d]
  }

  predicate AllDistinct(order: seq<Dataset>) {
    forall i, j :: 0 <= i < j < |order| ==> order[i] != order[j]
  }

  /** One more result takes the whole one step on. */
  ghost predicate IsStepwise<E(!new)>(whole: map<Dataset, LoadResult> -> E, step: (E, Dataset, LoadResult) -> E) {
    forall part, d, result :: d !in part ==> whole(part[d := result]) == step(whole(part), d, result)
  }

  /** A function of the set of results that each result extends by one step is the fold in any order. */
  lemma {:induction false} FoldIsOrderFree<E(!new)>(start: E, order: seq<Dataset>, results: map<Dataset, LoadResult>,
                                              step: (E, Dataset, LoadResult) -> E, whole: map<Dataset, LoadResult> -> E)
    requires (forall d :: d in order ==> d in results) && AllDistinct(order)
    requires whole(map[]) == start && IsStepwise(whole, step)
    ensures Fold(start, order, results, step) == whole(Restrict(results, order))
  {
    if order == [] {
      assert Restrict(results, order) == map[];
    } else {
      FoldIsOrderFree(start, order[..|order| - 1], results, step, whole);
      RestrictGrows(results, order);
    }
  }

  lemma RestrictGrows(results: map<Dataset, LoadResult>, order: seq<Dataset>)
    requires order != [] && order[|order| - 1] in results && AllDistinct(order)
    ensures order[|order| - 1] !in Restrict(results, order[..|order| - 1])
    ensures Restrict(results, order)
      == Restrict(results, order[..|order| - 1])[order[|order| - 1] := results[order[|order| - 1]]]
  {
    assert order == order[..|order| - 1] + [order[|order| - 1]];
  }

  lemma MergeIsStepwise(entry: Entry, refreshed: bool)
    ensures IsStepwise(part => Uncounted(entry, part, refreshed), Apply)
  {
    forall part: map<Dataset, LoadResult>, d, result | d !in part
      ensures Uncounted(entry, part[d := result], refreshed) == Apply(Uncounted(entry, part, refreshed), d, result)
    {
      MergeStep(entry, part, refreshed, d, result);
    }
  }

  lemma RestrictAll(results: map<Dataset, LoadResult>, order: seq<Dataset>)
    requires forall d :: d in results <==> d in order
    ensures Restrict(results, order) == results
  {
  }

  lemma OneByOne(entry: Entry, order: seq<Dataset>, results: map<Dataset, LoadResult>, refreshed: bool)
    requires AllDistinct(order) && forall d :: d in results <==> d in order
    ensures Fold(entry.(marks := Kept(entry.marks, refreshed)), order, results, Apply)
      == Uncounted(entry, results, refreshed)
  {
    MergeNothing(entry, refreshed);
    MergeIsStepwise(entry, refreshed);
    FoldIsOrderFree(entry.(marks := Kept(entry.marks, refreshed)), order, results, Apply,
                    part => Uncounted(entry, part, refreshed));
    RestrictAll(results, order);
  }

  method ApplyAll(start: Entry, order: seq<Dataset>, results: map<Dataset, LoadResult>) returns (entry: Entry)
    requires forall d :: d in order ==> d in results
    ensures entry == Fold(start, order, results, Apply)
  {
    entry := start;
    for i := 0 to |order|
      invariant entry == Fold(start, order[..i], results, Apply)
    {
      assert order[..i + 1][..i] == order[..i];
      entry := Apply(entry, order[i], results[order[i]]);
    }
    assert order[..|order|] == order;
  }

  /** Merges results one after another; the outcome does not depend on their order. */
  method Merge(entry: Entry, order: seq<Dataset>, results: map<Dataset, LoadResult>, refreshed: bool)
    returns (merged: Entry)
    requires AllDistinct(order) && forall d :: d in results <==> d in order
    ensures merged == Merged(entry, results, refreshed)
  {
    merged := ApplyAll(entry.(marks := Kept(entry.marks, refreshed)), order, results);
    OneByOne(entry, order, results, refreshed);
    merged := merged.(issues := |merged.loadErrors.Values|);
  }

  // ---------- What a merge does to one dataset ----------

  function ErrorOf(entry: Entry, key: ErrorKey): Option<string> {
    if key in entry.loadErrors then Some(entry.loadErrors[key]) else None
  }

  lemma MergedValueAt(entry: Entry, results: map<Dataset, LoadResult>, refreshed: bool, d: Dataset)
    ensures ValueOf(Merged(entry, results, refreshed), d)
         == if d in results && !Failed(results[d]) then results[d].value else ValueOf(entry, d)
  {
  }

  lemma MergedMarkAt(entry: Entry, results: map<Dataset, LoadResult>, refreshed: bool, d: Dataset)
    ensures d in Merged(entry, results, refreshed).marks
       <==> if d in results then !Failed(results[d]) else d in entry.marks && !(refreshed && d.Gated?)
  {
  }

  lemma KeyIn(datasets: set<Dataset>, d: Dataset, key: ErrorKey)
    requires key in ErrorKeys(d)
    ensures key in KeysOf(datasets) <==> d in datasets
  {
    KeysHaveOwners(datasets, key);
  }

  lemma MergedErrorAt(entry: Entry, results: map<Dataset, LoadResult>, refreshed: bool, d: Dataset, key: ErrorKey)
    requires key in ErrorKeys(d)
    ensures ErrorOf(Merged(entry, results, refreshed), key)
         == if d in results then if Failed(results[d]) then results[d].error else None else ErrorOf(entry, key)
  {
    KeyIn(Failures(results), d, key);
    KeyIn(Succeeded(results), d, key);
    var kept, texts := entry.loadErrors - KeysOf(Succeeded(results)), FailureTexts(results);
    assert key in texts <==> d in Failures(results);
    assert key in kept <==> key in entry.loadErrors && d !in Succeeded(results);
    assert key in kept + texts <==> key in kept || key in texts;
  }
}
