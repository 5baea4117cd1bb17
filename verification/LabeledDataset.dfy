/** The per-paper loop of `build_labeled_eval` in backend/app/eval/labeled_dataset.py. */
module LabeledDataset {
  import opened Wrappers
  import opened Ordering
  import opened EvaluationReport

  // A finished scoring run: its total, None where it is blocked, its criterion scores, the evidence
  // decisions of its items, None where the run recorded none, and its identity projection.
  datatype ScoringRun = ScoringRun(total: Option<real>, items: map<string, real>, needsReview: bool,
                                   evidence: seq<Option<bool>>, identity: string)

  // What became of one row of the score table: `Raised` is any exception of ingestion or scoring.
  datatype Outcome =
    | FileMissing
    | NotParsed(message: string)
    | Raised(text: string)
    | Finished(paper: string, run: ScoringRun)

  datatype Entry = Entry(filename: string, humanTotal: real, humanItems: map<string, real>, outcome: Outcome)

  // The mapping from filenames to sample ids, and the criterion codes of the rubric.
  datatype Context = Context(sampleIds: map<string, string>, codes: set<string>) {
    // An empty id counts as none.
    function SampleId(entry: Entry): Option<string> {
      if entry.filename in sampleIds && sampleIds[entry.filename] != "" then Some(sampleIds[entry.filename]) else None
    }

    function KeyOf(entry: Entry): string {
      match SampleId(entry)
      case Some(id) => id
      case None => if entry.outcome.Finished? then entry.outcome.paper else ""
    }

    function Identity(entry: Entry): Identity {
      match SampleId(entry)
      case Some(id) => BySample(id)
      case None => ByFile(entry.filename)
    }

    function HumanItems(entry: Entry): map<string, real> {
      map code | code in entry.humanItems && code in codes :: entry.humanItems[code]
    }
  }

  datatype TableError = EmptyTable

  datatype Identity = BySample(id: string) | ByFile(filename: string)

  // An empty parser message stands for the standard one.
  datatype Failure = NoFile | ParseFailed(message: string) | Exception(text: string) | NoTotal

  datatype ErrorEntry = ErrorEntry(identity: Identity, failure: Failure)

  datatype SampleRecord = SampleRecord(id: string, humanTotal: real, systemTotal: Option<real>,
    humanItems: map<string, real>, systemItems: map<string, real>, needsReview: bool, blocked: bool,
    invalid: nat, evaluated: nat, runIdentity: string)

  // `evidence_quality_counts`: insufficient items among all items.
  function InvalidCount(evidence: seq<Option<bool>>): (n: nat)
    ensures n <= |evidence|
  {
    if evidence == [] then 0
    else InvalidCount(evidence[1..]) + (if evidence[0] == Some(false) then 1 else 0)
  }

  /** The places that hold the decision false. */
  lemma {:induction false} InvalidIsFalse(evidence: seq<Option<bool>>)
    ensures InvalidCount(evidence) == |FalsePlaces(evidence)|
  {
    if evidence == [] {
      assert FalsePlaces(evidence) == {};
    } else {
      var n := |evidence| - 1;
      InvalidIsFalse(evidence[..n]);
      assert evidence == evidence[..n] + [evidence[n]];
      InvalidConcat(evidence[..n], [evidence[n]]);
      OneDecision(evidence[n]);
      hide InvalidCount;
      assert FalsePlaces(evidence) == FalsePlaces(evidence[..n]) + (if evidence[n] == Some(false) then {n} else {});
    }
  }

  lemma OneDecision(decision: Option<bool>)
    ensures InvalidCount([decision]) == if decision == Some(false) then 1 else 0
  {
    assert [decision][1..] == [];
  }

  ghost function FalsePlaces(evidence: seq<Option<bool>>): set<int> {
    set k | 0 <= k < |evidence| && evidence[k] == Some(false)
  }

  datatype Tally = Tally(samples: seq<Sample>, predictions: seq<Sample>, errors: seq<ErrorEntry>,
    perSample: seq<SampleRecord>, completedRuns: nat, reviewRequired: nat, blockedRuns: nat,
    invalidItems: nat, evaluatedItems: nat)

  function Completed(entry: Entry): bool { entry.outcome.Finished? }

  function Entered(entry: Entry): bool { entry.outcome.Finished? && entry.outcome.run.total.Some? }

  function Failed(entry: Entry): bool { !Entered(entry) }

  function Blocked(entry: Entry): bool { entry.outcome.Finished? && entry.outcome.run.total.None? }

  function NeedsReview(entry: Entry): bool { entry.outcome.Finished? && entry.outcome.run.needsReview }

  function HumanSample(c: Context): Entry -> Sample {
    (entry: Entry) => Sample(c.KeyOf(entry), entry.humanTotal, c.HumanItems(entry))
  }

  function Prediction(c: Context): Entry -> Sample {
    (entry: Entry) =>
      if Entered(entry) then Sample(c.KeyOf(entry), entry.outcome.run.total.value, entry.outcome.run.items)
      else Sample(c.KeyOf(entry), 0.0, map[])
  }

  function ErrorOf(c: Context): Entry -> ErrorEntry {
    (entry: Entry) => ErrorEntry(c.Identity(entry),
      match entry.outcome
      case FileMissing => NoFile
      case NotParsed(message) => ParseFailed(message)
      case Raised(text) => Exception(text)
      case Finished(_, _) => NoTotal)
  }

  function RecordOf(c: Context): Entry -> SampleRecord {
    (entry: Entry) =>
      var run := if entry.outcome.Finished? then entry.outcome.run else ScoringRun(None, map[], false, [], "");
      SampleRecord(c.KeyOf(entry), entry.humanTotal, run.total, c.HumanItems(entry), run.items, run.needsReview,
        run.total.None?, InvalidCount(run.evidence), |run.evidence|, run.identity)
  }

  // ----- what each record says of its row

  ghost predicate KeyIs(entry: Entry, c: Context, key: string) {
    if entry.filename in c.sampleIds && c.sampleIds[entry.filename] != "" then key == c.sampleIds[entry.filename]
    else entry.outcome.Finished? ==> key == entry.outcome.paper
  }

  // The human scores of the row for the criteria of the rubric, and no others.
  ghost predicate RubricItems(entry: Entry, c: Context, items: map<string, real>) {
    forall code ::
      && (code in items <==> code in entry.humanItems && code in c.codes)
      && (code in items && code in entry.humanItems ==> items[code] == entry.humanItems[code])
  }

  /** Sample, prediction, record and error of a row, field by field: under the sample id of its filename, or
      else the id of its paper, the human total with the scores of the rubric's criteria, the run's total with
      its scores, its flags and evidence counts; an error under the sample id, or else the filename, with its
      cause. */
  lemma RowMeaning(entry: Entry, c: Context)
    ensures var h, p, e, r := HumanSample(c)(entry), Prediction(c)(entry), ErrorOf(c)(entry), RecordOf(c)(entry);
      && KeyIs(entry, c, h.key) && h.total == entry.humanTotal && RubricItems(entry, c, h.items)
      && (entry.outcome.Finished? ==> var run := entry.outcome.run;
            && (run.total.Some? ==> p == Sample(h.key, run.total.value, run.items))
            && r.id == h.key && r.humanTotal == entry.humanTotal && r.humanItems == h.items
            && r.systemTotal == run.total && r.systemItems == run.items && r.needsReview == run.needsReview
            && (r.blocked <==> run.total == None) && r.runIdentity == run.identity
            && r.evaluated == |run.evidence| && r.invalid == |FalsePlaces(run.evidence)|)
      && e.identity == (if entry.filename in c.sampleIds && c.sampleIds[entry.filename] != ""
                        then BySample(c.sampleIds[entry.filename]) else ByFile(entry.filename))
      && (entry.outcome.FileMissing? ==> e.failure == NoFile)
      && (entry.outcome.NotParsed? ==> e.failure == ParseFailed(entry.outcome.message))
      && (entry.outcome.Raised? ==> e.failure == Exception(entry.outcome.text))
      && (entry.outcome.Finished? ==> e.failure == NoTotal)
  {
    if entry.outcome.Finished? { InvalidIsFalse(entry.outcome.run.evidence); }
  }

  // The evidence decisions of all finished runs, one after another.
  function AllEvidence(table: seq<Entry>): seq<Option<bool>> {
    if table == [] then []
    else
      var last := table[|table| - 1].outcome;
      AllEvidence(table[..|table| - 1]) + (if last.Finished? then last.run.evidence else [])
  }

  // What the lists and counters of the loop say about the table.
  ghost predicate Tallies(table: seq<Entry>, c: Context, t: Tally) {
    && t.samples == Collect(table, Entered, HumanSample(c))
    && t.predictions == Collect(table, Entered, Prediction(c))
    && t.errors == Collect(table, Failed, ErrorOf(c))
    && t.perSample == Collect(table, Completed, RecordOf(c))
    && |t.samples| == |t.predictions| && |t.predictions| + |t.errors| == |table|
    && |t.perSample| == t.completedRuns == |t.predictions| + t.blockedRuns
    && t.blockedRuns == |Collect(table, Blocked, Itself)|
    && t.reviewRequired == |Collect(table, NeedsReview, Itself)| <= t.completedRuns
    && t.evaluatedItems == |AllEvidence(table)| && t.invalidItems == InvalidCount(AllEvidence(table))
  }

  method BuildLabeledEval(table: seq<Entry>, c: Context) returns (r: Result<Tally, TableError>)
    ensures r.Err? <==> table == []
    ensures r.Ok? ==> Tallies(table, c, r.value)
  {
    hide Collect, InvalidCount, AllEvidence;
    if table == [] { return Err(EmptyTable); }
    NoEntries(c);
    var samples: seq<Sample>, predictions: seq<Sample> := [], [];
    var errors: seq<ErrorEntry>, perSample: seq<SampleRecord> := [], [];
    var completedRuns, reviewRequired, blockedRuns, invalidItems, evaluatedItems := 0, 0, 0, 0, 0;
    for k := 0 to |table|
      invariant samples == Collect(table[..k], Entered, HumanSample(c))
      invariant predictions == Collect(table[..k], Entered, Prediction(c))
      invariant errors == Collect(table[..k], Failed, ErrorOf(c))
      invariant perSample == Collect(table[..k], Completed, RecordOf(c))
      invariant |samples| == |predictions| && |predictions| + |errors| == k
      invariant |perSample| == completedRuns == |predictions| + blockedRuns
      invariant blockedRuns == |Collect(table[..k], Blocked, Itself)|
      invariant reviewRequired == |Collect(table[..k], NeedsReview, Itself)| <= completedRuns
      invariant evaluatedItems == |AllEvidence(table[..k])| && invalidItems == InvalidCount(AllEvidence(table[..k]))
    {
      var entry := table[k];
      OneEntry(table, k, c);
      EvidenceOfOne(table, k);
      match entry.outcome {
        case FileMissing => errors := errors + [ErrorEntry(c.Identity(entry), NoFile)];
        case NotParsed(message) => errors := errors + [ErrorEntry(c.Identity(entry), ParseFailed(message))];
        case Raised(text) => errors := errors + [ErrorEntry(c.Identity(entry), Exception(text))];
        case Finished(paper, run) =>
          completedRuns := completedRuns + 1;
          reviewRequired := reviewRequired + (if run.needsReview then 1 else 0);
          var invalidCount, itemCount := InvalidCount(run.evidence), |run.evidence|;
          invalidItems := invalidItems + invalidCount;
          evaluatedItems := evaluatedItems + itemCount;
          var humanItems, key := c.HumanItems(entry), c.KeyOf(entry);
          perSample := perSample + [SampleRecord(key, entry.humanTotal, run.total, humanItems, run.items,
            run.needsReview, run.total.None?, invalidCount, itemCount, run.identity)];
          if run.total.None? {
            blockedRuns := blockedRuns + 1;
            errors := errors + [ErrorEntry(c.Identity(entry), NoTotal)];
          } else {
            samples := samples + [Sample(key, entry.humanTotal, humanItems)];
            predictions := predictions + [Sample(key, run.total.value, run.items)];
          }
      }
    }
    assert table[..|table|] == table;
    return Ok(Tally(samples, predictions, errors, perSample, completedRuns, reviewRequired, blockedRuns,
      invalidItems, evaluatedItems));
  }

  lemma NoEntries(c: Context)
    ensures Collect([], Entered, HumanSample(c)) == Collect([], Entered, Prediction(c)) == []
    ensures Collect([], Failed, ErrorOf(c)) == [] && Collect([], Completed, RecordOf(c)) == []
    ensures Collect([], Blocked, Itself) == Collect([], NeedsReview, Itself) == []
    ensures AllEvidence([]) == [] && InvalidCount([]) == 0
  {
  }

  lemma OneEntry(table: seq<Entry>, k: nat, c: Context)
    requires k < |table|
    ensures Collect(table[..k + 1], Entered, HumanSample(c)) == Collect(table[..k], Entered, HumanSample(c))
      + Kept(table[k], Entered, HumanSample(c))
    ensures Collect(table[..k + 1], Entered, Prediction(c)) == Collect(table[..k], Entered, Prediction(c))
      + Kept(table[k], Entered, Prediction(c))
    ensures Collect(table[..k + 1], Failed, ErrorOf(c)) == Collect(table[..k], Failed, ErrorOf(c))
      + Kept(table[k], Failed, ErrorOf(c))
    ensures Collect(table[..k + 1], Completed, RecordOf(c)) == Collect(table[..k], Completed, RecordOf(c))
      + Kept(table[k], Completed, RecordOf(c))
    ensures Collect(table[..k + 1], Blocked, Itself) == Collect(table[..k], Blocked, Itself)
      + Kept(table[k], Blocked, Itself)
    ensures Collect(table[..k + 1], NeedsReview, Itself) == Collect(table[..k], NeedsReview, Itself)
      + Kept(table[k], NeedsReview, Itself)
  {
    Extended(table, k, Entered, HumanSample(c));
    Extended(table, k, Entered, Prediction(c));
    Extended(table, k, Failed, ErrorOf(c));
    Extended(table, k, Completed, RecordOf(c));
    Extended(table, k, Blocked, Itself);
    Extended(table, k, NeedsReview, Itself);
  }

  lemma EvidenceOfOne(table: seq<Entry>, k: nat)
    requires k < |table|
    ensures table[k].outcome.Finished? ==> var evidence := table[k].outcome.run.evidence;
      && |AllEvidence(table[..k + 1])| == |AllEvidence(table[..k])| + |evidence|
      && InvalidCount(AllEvidence(table[..k + 1])) == InvalidCount(AllEvidence(table[..k])) + InvalidCount(evidence)
    ensures !table[k].outcome.Finished? ==> AllEvidence(table[..k + 1]) == AllEvidence(table[..k])
  {
    assert table[..k + 1] == table[..k] + [table[k]];
    if table[k].outcome.Finished? { InvalidConcat(AllEvidence(table[..k]), table[k].outcome.run.evidence); }
  }

  lemma {:induction false} InvalidConcat(a: seq<Option<bool>>, b: seq<Option<bool>>)
    ensures InvalidCount(a + b) == InvalidCount(a) + InvalidCount(b)
  {
    if a == [] {
      assert a + b == b;
    } else {
      InvalidConcat(a[1..], b);
      assert (a + b)[1..] == a[1..] + b;
    }
  }

  lemma Extended<U>(table: seq<Entry>, k: nat, keep: Entry -> bool, f: Entry -> U)
    requires k < |table|
    ensures Collect(table[..k + 1], keep, f) == Collect(table[..k], keep, f) + Kept(table[k], keep, f)
  {
    var one := [table[k]];
    assert table[..k + 1] == table[..k] + one && one[1..] == [];
    CollectConcat(table[..k], one, keep, f);
    assert Kept(table[k], keep, f) + [] == Kept(table[k], keep, f);
  }

  // ----- the tally and the report

  lemma {:induction false} SameKeys(table: seq<Entry>, k: nat, c: Context)
    requires k < |Collect(table, Entered, HumanSample(c))|
    ensures |Collect(table, Entered, Prediction(c))| == |Collect(table, Entered, HumanSample(c))|
    ensures Collect(table, Entered, Prediction(c))[k].key == Collect(table, Entered, HumanSample(c))[k].key
  {
    if Entered(table[0]) {
      if k > 0 { SameKeys(table[1..], k - 1, c); }
      else if |Collect(table[1..], Entered, HumanSample(c))| > 0 { SameKeys(table[1..], 0, c); }
      else { NoneEntered(table[1..], c); }
    } else {
      SameKeys(table[1..], k, c);
    }
  }

  lemma {:induction false} NoneEntered(table: seq<Entry>, c: Context)
    requires Collect(table, Entered, HumanSample(c)) == []
    ensures Collect(table, Entered, Prediction(c)) == []
  {
    if table != [] { NoneEntered(table[1..], c); }
  }

  lemma {:induction false} AllPaired(predictions: seq<Sample>, truth: map<string, Sample>)
    requires forall k :: 0 <= k < |predictions| ==> predictions[k].key in truth
    ensures |Pairing(predictions, truth)| == |predictions| && Unmatched(predictions, truth) == []
    ensures forall k :: 0 <= k < |predictions| ==>
      Pairing(predictions, truth)[k] == (predictions[k], truth[predictions[k].key])
  {
    if predictions != [] { AllPaired(predictions[1..], truth); }
  }

  ghost predicate OneTotalPerKey(samples: seq<Sample>) {
    forall i, j :: 0 <= i < |samples| && 0 <= j < |samples| && samples[i].key == samples[j].key
      ==> samples[i].total == samples[j].total
  }

  lemma OwnTruthIff(samples: seq<Sample>)
    ensures (forall k :: 0 <= k < |samples| ==> TruthByKey(samples)[samples[k].key].total == samples[k].total)
      <==> OneTotalPerKey(samples)
  {
    hide TruthByKey;
    var truth := TruthByKey(samples);
    forall k | 0 <= k < |samples|
      ensures exists last ::
        0 <= last < |samples| && samples[last].key == samples[k].key && truth[samples[k].key] == samples[last] {
      var last := LastTruth(samples, k);
    }
  }

  /** Every row of the table enters the metrics or the error list, never both and never neither;
      each prediction is compared with the last human sample under its key, and with the human
      total of its own row throughout exactly when rows under one key agree on that total. */
  lemma EveryRowAccounted(samples: seq<Sample>, predictions: seq<Sample>, table: seq<Entry>, c: Context)
    requires samples == Collect(table, Entered, HumanSample(c)) && predictions == Collect(table, Entered, Prediction(c))
    ensures var pairs := Pairing(predictions, TruthByKey(samples));
      && |pairs| == |predictions| == |samples|
      && Unmatched(predictions, TruthByKey(samples)) == []
      && (forall k :: 0 <= k < |pairs| ==> pairs[k].0 == predictions[k] && pairs[k].0.key == samples[k].key)
      && (forall k, last: nat :: 0 <= k < |pairs| && LastOfKey(samples, last) && samples[last].key == predictions[k].key
            ==> pairs[k].1 == samples[last])
      && ((forall k :: 0 <= k < |pairs| ==> pairs[k].1.total == samples[k].total) <==> OneTotalPerKey(samples))
  {
    hide TruthByKey, Pairing, Unmatched, Collect, Prediction, HumanSample, OneTotalPerKey;
    var truth := TruthByKey(samples);
    if samples == [] { NoneEntered(table, c); } else { SameKeys(table, 0, c); }
    forall k | 0 <= k < |predictions| ensures predictions[k].key == samples[k].key && predictions[k].key in truth {
      SameKeys(table, k, c);
    }
    AllPaired(predictions, truth);
    OwnTruthIff(samples);
    forall k, last: nat | 0 <= k < |predictions| && LastOfKey(samples, last) && samples[last].key == predictions[k].key
      ensures truth[predictions[k].key] == samples[last] {
      var other := LastTruth(samples, last);
    }
  }

  // ----- the condition on the table

  // Every ingestion creates a paper with an id of its own, which is no sample id either.
  ghost predicate FreshPapers(table: seq<Entry>, c: Context) {
    && (forall i, j :: 0 <= i < j < |table| && Completed(table[i]) && Completed(table[j]) ==>
          table[i].outcome.paper != table[j].outcome.paper)
    && (forall i, filename :: 0 <= i < |table| && Completed(table[i]) && filename in c.sampleIds ==>
          table[i].outcome.paper != c.sampleIds[filename])
  }

  predicate SharedId(a: Entry, b: Entry, c: Context) {
    Entered(a) && Entered(b) && c.SampleId(a).Some? && c.SampleId(a) == c.SampleId(b)
  }

  // Rows that enter the metrics under one sample id have one human total.
  ghost predicate SharedIdsAgree(table: seq<Entry>, c: Context) {
    forall i, j :: 0 <= i < |table| && 0 <= j < |table| && SharedId(table[i], table[j], c) ==>
      table[i].humanTotal == table[j].humanTotal
  }

  lemma SampleOfRow(table: seq<Entry>, i: nat, c: Context)
    requires i < |table| && Entered(table[i])
    ensures HumanSample(c)(table[i]) in Collect(table, Entered, HumanSample(c))
  {
    CollectMembers(table, Entered, HumanSample(c), HumanSample(c)(table[i]));
  }

  lemma RowOfSample(table: seq<Entry>, k: nat, c: Context) returns (i: nat)
    requires k < |Collect(table, Entered, HumanSample(c))|
    ensures i < |table| && Entered(table[i])
    ensures HumanSample(c)(table[i]) == Collect(table, Entered, HumanSample(c))[k]
  {
    var sample := Collect(table, Entered, HumanSample(c))[k];
    CollectMembers(table, Entered, HumanSample(c), sample);
    i :| 0 <= i < |table| && Entered(table[i]) && HumanSample(c)(table[i]) == sample;
  }

  // Two rows under one key are one row, or share a sample id.
  lemma KeysAreFresh(table: seq<Entry>, c: Context, i: nat, j: nat)
    requires FreshPapers(table, c) && i < |table| && j < |table| && Entered(table[i]) && Entered(table[j])
    ensures c.KeyOf(table[i]) == c.KeyOf(table[j]) <==>
      i == j || SharedId(table[i], table[j], c)
  {
  }

  lemma AgreementOnTable(table: seq<Entry>, c: Context)
    requires FreshPapers(table, c)
    ensures OneTotalPerKey(Collect(table, Entered, HumanSample(c))) <==> SharedIdsAgree(table, c)
  {
    hide Collect, FreshPapers, Entered;
    var samples := Collect(table, Entered, HumanSample(c));
    if SharedIdsAgree(table, c) {
      forall k, l | 0 <= k < |samples| && 0 <= l < |samples| && samples[k].key == samples[l].key
        ensures samples[k].total == samples[l].total {
        var i := RowOfSample(table, k, c);
        var j := RowOfSample(table, l, c);
        KeysAreFresh(table, c, i, j);
      }
    }
    if OneTotalPerKey(samples) {
      forall i, j | 0 <= i < |table| && 0 <= j < |table| && SharedId(table[i], table[j], c)
        ensures table[i].humanTotal == table[j].humanTotal {
        SampleOfRow(table, i, c);
        SampleOfRow(table, j, c);
        var k :| 0 <= k < |samples| && samples[k] == HumanSample(c)(table[i]);
        var l :| 0 <= l < |samples| && samples[l] == HumanSample(c)(table[j]);
        KeysAreFresh(table, c, i, j);
      }
    }
  }

  /** Each prediction is compared with the human total of its own row exactly when rows of the table
      that share a sample id agree on it; so always when no sample ids are given. */
  lemma OwnRowIff(table: seq<Entry>, c: Context)
    requires FreshPapers(table, c)
    ensures var samples, predictions := Collect(table, Entered, HumanSample(c)), Collect(table, Entered, Prediction(c));
      var pairs := Pairing(predictions, TruthByKey(samples));
      && |pairs| == |samples|
      && ((forall k :: 0 <= k < |pairs| ==> pairs[k].1.total == samples[k].total) <==> SharedIdsAgree(table, c))
      && (c.sampleIds == map[] ==> SharedIdsAgree(table, c))
  {
    hide Collect, Pairing, TruthByKey, FreshPapers, OneTotalPerKey;
    var samples, predictions := Collect(table, Entered, HumanSample(c)), Collect(table, Entered, Prediction(c));
    EveryRowAccounted(samples, predictions, table, c);
    AgreementOnTable(table, c);
  }

  lemma OneByOne<U>(a: Entry, b: Entry, f: Entry -> U)
    requires Entered(a) && Entered(b)
    ensures Collect([a, b], Entered, f) == [f(a), f(b)]
  {
    assert [a, b][1..] == [b] && [b][1..] == [];
    assert Collect([b], Entered, f) == [f(b)];
  }

  // A table of two rows under one key.
  lemma SharedKey(a: Entry, b: Entry, c: Context)
    requires Entered(a) && Entered(b) && c.KeyOf(a) == c.KeyOf(b)
    ensures var samples := Collect([a, b], Entered, HumanSample(c));
      var predictions := Collect([a, b], Entered, Prediction(c));
      Pairing(predictions, TruthByKey(samples))
        == [(Prediction(c)(a), HumanSample(c)(b)), (Prediction(c)(b), HumanSample(c)(b))]
  {
    hide TruthByKey, Pairing, Unmatched, Collect, OneTotalPerKey;
    var samples, predictions := Collect([a, b], Entered, HumanSample(c)), Collect([a, b], Entered, Prediction(c));
    OneByOne(a, b, HumanSample(c));
    OneByOne(a, b, Prediction(c));
    EveryRowAccounted(samples, predictions, [a, b], c);
    assert LastOfKey(samples, 1);
  }

  // The file a.pdf, of sample "k", scored as the given paper with the given human and system total.
  function RowOf(paper: string, total: real): Entry {
    Entry("a.pdf", total, map[], Finished(paper, ScoringRun(Some(total), map[], false, [], "")))
  }

  /** One file listed twice, its two papers under one sample id: both predictions are compared with
      the human total of the later row. */
  lemma SharedKeyTakesLaterTruth()
    ensures var c, table := Context(map["a.pdf" := "k"], {}), [RowOf("p1", 1.0), RowOf("p2", 5.0)];
      var pairs := Pairing(Collect(table, Entered, Prediction(c)), TruthByKey(Collect(table, Entered, HumanSample(c))));
      && FreshPapers(table, c)
      && |pairs| == 2 && pairs[0].0.total == 1.0 && pairs[0].1.total == 5.0
  {
    hide TruthByKey, Pairing, Collect;
    var c := Context(map["a.pdf" := "k"], {});
    assert "p1"[1] != "p2"[1] && |"p1"| == |"p2"| == 2 && |"k"| == 1;
    assert c.SampleId(RowOf("p1", 1.0)) == c.SampleId(RowOf("p2", 5.0)) == Some("k");
    SharedKey(RowOf("p1", 1.0), RowOf("p2", 5.0), c);
  }
}
