/** `summarize` of backend/app/eval/asap.py: which essays of the manifest got a score, and the
    tables that must all add up to that number. */
module AsapSummary {
  import opened Wrappers
  import opened Ordering
  import opened Sums
  import opened Partitions
  import opened PowerSums
  import opened Kappa
  import opened KappaLoop
  import opened EvaluationReport

  datatype Essay = Essay(id: string, score: int, groups: map<string, string>)

  datatype SampleResult = SampleResult(id: string, total: Option<real>)

  datatype Scored = Scored(essay: Essay, truth: int, predicted: int)

  // `_rounded`
  function Rounded(v: real): int {
    var r := RoundHalfEven(v);
    if r < 1 then 1 else if r > 6 then 6 else r
  }

  /** A rounded total is a score, keeps the order of totals, and is a score left alone. */
  lemma RoundedLaws(v: real, w: real, n: int)
    requires v <= w
    ensures 1 <= Rounded(v) <= Rounded(w) <= 6
    ensures 1 <= n <= 6 ==> Rounded(n as real) == n
  {
    assert (n as real).Floor == n;
    if v.Floor == w.Floor {
      assert v - v.Floor as real <= w - w.Floor as real;
    } else {
      assert RoundHalfEven(v) <= v.Floor + 1 <= w.Floor <= RoundHalfEven(w);
    }
  }

  /** The nearest integer, the even one from halfway, moved into the scores 1 to 6. */
  lemma RoundedIsNearest(v: real, m: int)
    requires NearestEven(v, m)
    ensures Rounded(v) == if m < 1 then 1 else if m > 6 then 6 else m
  {
    RoundIsNearestEven(v, m);
  }

  // `{item["essay_id"]: item for item in manifest["essays"]}`
  function EssayMap(essays: seq<Essay>): map<string, Essay> {
    if essays == [] then map[]
    else EssayMap(essays[..|essays| - 1])[essays[|essays| - 1].id := essays[|essays| - 1]]
  }

  function InManifest(m: map<string, Essay>): SampleResult -> bool {
    (s: SampleResult) => s.id in m
  }

  function WithTotal(m: map<string, Essay>): SampleResult -> bool {
    (s: SampleResult) => s.id in m && s.total.Some?
  }

  function WithoutTotal(m: map<string, Essay>): SampleResult -> bool {
    (s: SampleResult) => s.id in m && s.total.None?
  }

  function Score(m: map<string, Essay>): SampleResult -> Scored {
    (s: SampleResult) =>
      var essay := if s.id in m then m[s.id] else Essay(s.id, 0, map[]);
      Scored(essay, essay.score, Rounded(if s.total.Some? then s.total.value else 0.0))
  }

  function SampleKey(s: SampleResult): string { s.id }

  function ScoredOf(samples: seq<SampleResult>, m: map<string, Essay>): seq<Scored> {
    Collect(samples, WithTotal(m), Score(m))
  }

  // Ids of the records that belong to the manifest, with repetition.
  function Matched(samples: seq<SampleResult>, m: map<string, Essay>): seq<string> {
    Collect(samples, InManifest(m), SampleKey)
  }

  function Missing(samples: seq<SampleResult>, m: map<string, Essay>): seq<string> {
    Collect(samples, WithoutTotal(m), SampleKey)
  }

  datatype Summary = Summary(scored: seq<Scored>, missing: seq<string>, notRun: set<string>)

  // The classification loop.
  method Summarize(samples: seq<SampleResult>, essays: seq<Essay>) returns (r: Summary)
    ensures var m := EssayMap(essays);
      && r.scored == ScoredOf(samples, m) && r.missing == Missing(samples, m)
      && r.notRun == m.Keys - (set id | id in Matched(samples, m))
  {
    var m := EssayMap(essays);
    var scored: seq<Scored>, missing: seq<string>, seen: set<string> := [], [], {};
    for k := 0 to |samples|
      invariant scored == ScoredOf(samples[..k], m) && missing == Missing(samples[..k], m)
      invariant seen == set id | id in Matched(samples[..k], m)
    {
      OneSample(samples, k, m);
      var s := samples[k];
      if s.id in m {
        seen := seen + {s.id};
        if s.total.None? {
          missing := missing + [s.id];
        } else {
          scored := scored + [Scored(m[s.id], m[s.id].score, Rounded(s.total.value))];
        }
      }
    }
    assert samples[..|samples|] == samples;
    r := Summary(scored, missing, m.Keys - seen);
  }

  lemma OneSample(samples: seq<SampleResult>, k: nat, m: map<string, Essay>)
    requires k < |samples|
    ensures ScoredOf(samples[..k + 1], m) == ScoredOf(samples[..k], m) + Kept(samples[k], WithTotal(m), Score(m))
    ensures Missing(samples[..k + 1], m) == Missing(samples[..k], m) + Kept(samples[k], WithoutTotal(m), SampleKey)
    ensures Matched(samples[..k + 1], m) == Matched(samples[..k], m) + Kept(samples[k], InManifest(m), SampleKey)
  {
    var one := [samples[k]];
    assert samples[..k + 1] == samples[..k] + one && one[1..] == [];
    CollectConcat(samples[..k], one, WithTotal(m), Score(m));
    CollectConcat(samples[..k], one, WithoutTotal(m), SampleKey);
    CollectConcat(samples[..k], one, InManifest(m), SampleKey);
    OneRow(samples[k], WithTotal(m), Score(m));
    OneRow(samples[k], WithoutTotal(m), SampleKey);
    OneRow(samples[k], InManifest(m), SampleKey);
  }

  lemma OneRow<U>(s: SampleResult, keep: SampleResult -> bool, f: SampleResult -> U)
    ensures Collect([s], keep, f) == Kept(s, keep, f)
  {
    assert [s][1..] == [];
    assert Kept(s, keep, f) + [] == Kept(s, keep, f);
  }

  // ----- what the lists say of samples and essays

  // Essay j is the last one listed under the id.
  ghost predicate LastEssay(essays: seq<Essay>, j: nat, id: string) {
    j < |essays| && essays[j].id == id && forall l :: j < l < |essays| ==> essays[l].id != id
  }

  ghost predicate ListedId(essays: seq<Essay>, id: string) {
    exists j :: 0 <= j < |essays| && essays[j].id == id
  }

  lemma {:induction false} EssayOf(essays: seq<Essay>, id: string)
    ensures id in EssayMap(essays) <==> ListedId(essays, id)
    ensures forall j: nat :: LastEssay(essays, j, id) ==> id in EssayMap(essays) && EssayMap(essays)[id] == essays[j]
  {
    if essays != [] {
      var n := |essays| - 1;
      EssayOf(essays[..n], id);
      assert essays == essays[..n] + [essays[n]];
      if ListedId(essays, id) && essays[n].id != id {
        var j :| 0 <= j < |essays| && essays[j].id == id;
        assert essays[..n][j].id == id;
      }
      forall j: nat | LastEssay(essays, j, id) ensures EssayMap(essays)[id] == essays[j] {
        if j < n { assert LastEssay(essays[..n], j, id); }
      }
    }
  }

  // Sample i is about a listed essay, and has a total or not.
  ghost function SamplesWith(samples: seq<SampleResult>, essays: seq<Essay>, total: bool): set<int> {
    set i | 0 <= i < |samples| && ListedId(essays, samples[i].id) && samples[i].total.Some? == total
  }

  /** What the summary is made of: one scored entry per sample of a listed essay with a total, one missing entry
      per such sample without, and the listed essays without a sample as not run; a scored entry holds the last
      essay listed under the sample's id, its score, and the sample's total rounded. */
  lemma SummaryMeaning(samples: seq<SampleResult>, essays: seq<Essay>)
    ensures var m := EssayMap(essays); var scored, missing := ScoredOf(samples, m), Missing(samples, m);
      && |scored| == |SamplesWith(samples, essays, true)| && |missing| == |SamplesWith(samples, essays, false)|
      && (forall s :: s in scored <==> exists i ::
           i in SamplesWith(samples, essays, true) && ScoredFrom(samples[i], essays, s))
      && (forall id :: id in missing <==> exists i :: i in SamplesWith(samples, essays, false) && samples[i].id == id)
      && (forall id :: id in m.Keys - (set id | id in Matched(samples, m)) <==>
            ListedId(essays, id) && forall i :: 0 <= i < |samples| ==> samples[i].id != id)
  {
    hide EssayMap, ListedId, ScoredFrom;
    var m := EssayMap(essays);
    forall id ensures id in m <==> ListedId(essays, id) { EssayOf(essays, id); }
    CollectCounts(samples, WithTotal(m), Score(m));
    assert Places(samples, WithTotal(m)) == SamplesWith(samples, essays, true);
    CollectCounts(samples, WithoutTotal(m), SampleKey);
    assert Places(samples, WithoutTotal(m)) == SamplesWith(samples, essays, false);
    forall s ensures s in ScoredOf(samples, m) <==>
      exists i :: i in SamplesWith(samples, essays, true) && ScoredFrom(samples[i], essays, s) {
      CollectMembers(samples, WithTotal(m), Score(m), s);
      forall i | i in SamplesWith(samples, essays, true)
        ensures ScoredFrom(samples[i], essays, s) <==> Score(m)(samples[i]) == s {
        ScoreIff(samples[i], essays, s);
      }
    }
    forall id ensures id in Missing(samples, m) <==>
      exists i :: i in SamplesWith(samples, essays, false) && samples[i].id == id {
      CollectMembers(samples, WithoutTotal(m), SampleKey, id);
    }
    forall id ensures id in Matched(samples, m) <==> id in m && exists i :: 0 <= i < |samples| && samples[i].id == id {
      CollectMembers(samples, InManifest(m), SampleKey, id);
    }
  }

  // The entry of a sample: the essay, its score, and the nearest score to the total, of two the even one.
  ghost predicate ScoredFrom(sample: SampleResult, essays: seq<Essay>, s: Scored) {
    && sample.total.Some?
    && (exists j: nat :: LastEssay(essays, j, sample.id) && s.essay == essays[j])
    && s.truth == s.essay.score
    && exists m | NearestEven(sample.total.value, m) :: s.predicted == if m < 1 then 1 else if m > 6 then 6 else m
  }

  lemma ScoreIff(sample: SampleResult, essays: seq<Essay>, s: Scored)
    requires ListedId(essays, sample.id) && sample.total.Some?
    ensures ScoredFrom(sample, essays, s) <==> Score(EssayMap(essays))(sample) == s
  {
    hide NearestEven, EssayMap, Rounded;
    EssayOf(essays, sample.id);
    var last := LastListed(essays, sample.id);
    forall m ensures NearestEven(sample.total.value, m) ==>
      Rounded(sample.total.value) == if m < 1 then 1 else if m > 6 then 6 else m {
      if NearestEven(sample.total.value, m) { RoundedIsNearest(sample.total.value, m); }
    }
    RoundIsNearestEven(sample.total.value, RoundHalfEven(sample.total.value));
  }

  lemma {:induction false} LastListed(essays: seq<Essay>, id: string) returns (j: nat)
    requires ListedId(essays, id)
    ensures LastEssay(essays, j, id)
  {
    var n := |essays| - 1;
    if essays[n].id == id {
      j := n;
    } else {
      var i :| 0 <= i < |essays| && essays[i].id == id;
      assert essays[..n][i].id == id;
      j := LastListed(essays[..n], id);
    }
  }

  // ----- nothing is lost

  lemma {:induction false} MatchedSplits(samples: seq<SampleResult>, m: map<string, Essay>)
    ensures |ScoredOf(samples, m)| + |Missing(samples, m)| == |Matched(samples, m)|
    ensures forall id :: id in Matched(samples, m) ==> id in m
  {
    if samples != [] { MatchedSplits(samples[1..], m); }
  }

  lemma {:induction false} SetOfSeq(s: seq<string>)
    ensures |set x | x in s| <= |s|
    ensures |set x | x in s| == |s| <==> Distinct(s)
  {
    if s != [] {
      var init, last := s[..|s| - 1], s[|s| - 1];
      assert s == init + [last];
      SetOfSeq(init);
      assert (set x | x in s) == (set x | x in init) + {last};
      if last in init {
        assert (set x | x in s) == (set x | x in init);
        var k :| 0 <= k < |init| && init[k] == last;
        assert s[k] == s[|s| - 1];
      } else if Distinct(init) {
        assert Distinct(s);
      } else {
        var i, j :| 0 <= i < j < |init| && init[i] == init[j];
        assert s[i] == s[j];
      }
    }
  }

  function EssayId(essay: Essay): string { essay.id }

  // The keys of the map are the ids listed.
  lemma {:induction false} EssayKeys(essays: seq<Essay>)
    ensures EssayMap(essays).Keys == set id | id in Column(essays, EssayId)
  {
    if essays != [] {
      var init, last := essays[..|essays| - 1], essays[|essays| - 1];
      EssayKeys(init);
      assert Column(essays, EssayId) == Column(init, EssayId) + [last.id];
    }
  }

  /** Scored, missing and not-run essays add up to the ids of the manifest exactly when no essay was
      recorded twice, each repeated record adding one; the ids are as many as the essays listed
      exactly when the manifest lists no id twice. */
  lemma NothingLost(samples: seq<SampleResult>, essays: seq<Essay>)
    ensures var m := EssayMap(essays); var matched, ids := Matched(samples, m), Column(essays, EssayId);
      var sum := |ScoredOf(samples, m)| + |Missing(samples, m)| + |m.Keys - (set id | id in matched)|;
      && sum == |m.Keys| + (|matched| - |set id | id in matched|)
      && (sum == |m.Keys| <==> Distinct(matched))
      && |m.Keys| <= |essays| && (|m.Keys| == |essays| <==> Distinct(ids))
      && (Distinct(ids) ==> (sum == |essays| <==> Distinct(matched)))
  {
    hide EssayMap, Distinct;
    var m := EssayMap(essays);
    EssayKeys(essays);
    SetOfSeq(Column(essays, EssayId));
    var matched := Matched(samples, m);
    var seen := set id | id in matched;
    MatchedSplits(samples, m);
    SetOfSeq(matched);
    assert seen <= m.Keys;
    assert |m.Keys - seen| == |m.Keys| - |seen|;
  }

  /** One essay recorded twice: the numbers add up to 2 for a manifest of one essay. */
  lemma RecordedTwice()
    ensures var essays := [Essay("e", 3, map[])];
      var samples := [SampleResult("e", Some(3.0)), SampleResult("e", None)];
      var m := EssayMap(essays);
      && |m.Keys| == 1
      && |ScoredOf(samples, m)| + |Missing(samples, m)| + |m.Keys - (set id | id in Matched(samples, m))| == 2
  {
    hide ScoredOf, Missing, Collect;
    var e := Essay("e", 3, map[]);
    var m := EssayMap([e]);
    var samples := [SampleResult("e", Some(3.0)), SampleResult("e", None)];
    assert m == map["e" := e] by { assert [e][..0] == []; }
    assert m.Keys == {"e"};
    NothingLost(samples, [e]);
    assert samples == [samples[0]] + [samples[1]];
    CollectConcat([samples[0]], [samples[1]], InManifest(m), SampleKey);
    OneRow(samples[0], InManifest(m), SampleKey);
    OneRow(samples[1], InManifest(m), SampleKey);
    assert Matched(samples, m) == ["e", "e"];
    assert (set id | id in Matched(samples, m)) == {"e"};
  }

  function TruthKey(s: Scored): int { s.truth }

  function GroupKey(field: string): Scored -> string {
    (s: Scored) => if field in s.essay.groups && s.essay.groups[field] != "" then s.essay.groups[field] else "NA"
  }

  /** The per-score counts and the counts of every group field add up to the scored essays. */
  lemma TablesAddUp(scored: seq<Scored>, field: string, values: seq<string>)
    requires forall k :: 0 <= k < |scored| ==> 1 <= scored[k].truth <= 6
    requires Distinct(values) && forall k :: 0 <= k < |scored| ==> GroupKey(field)(scored[k]) in values
    ensures SumInt(ClassSizes(scored, [1, 2, 3, 4, 5, 6], TruthKey)) == |scored|
    ensures SumInt(ClassSizes(scored, values, GroupKey(field))) == |scored|
  {
    ClassesAddUp(scored, [1, 2, 3, 4, 5, 6], TruthKey);
    ClassesAddUp(scored, values, GroupKey(field));
  }

  // The scored essays of one true score, and of one value of a field, a missing or empty one read as NA.
  ghost function OfScore(scored: seq<Scored>, score: int): set<int> {
    set k | 0 <= k < |scored| && scored[k].truth == score
  }

  ghost function OfGroup(scored: seq<Scored>, field: string, value: string): set<int> {
    set k | 0 <= k < |scored| &&
      if field in scored[k].essay.groups && scored[k].essay.groups[field] != ""
      then scored[k].essay.groups[field] == value else value == "NA"
  }

  /** Each of the tables counts what its heading says. */
  lemma TablesCount(scored: seq<Scored>, field: string, values: seq<string>, score: nat, i: nat)
    requires 1 <= score <= 6 && i < |values|
    ensures ClassSizes(scored, [1, 2, 3, 4, 5, 6], TruthKey)[score - 1] == |OfScore(scored, score)|
    ensures ClassSizes(scored, values, GroupKey(field))[i] == |OfGroup(scored, field, values[i])|
  {
    var scores: seq<int> := [1, 2, 3, 4, 5, 6];
    assert scores[score - 1] == score;
    var ofScore, ofGroup := HasKey(scores[score - 1], TruthKey), HasKey(values[i], GroupKey(field));
    CollectCounts(scored, ofScore, Itself);
    CollectCounts(scored, ofGroup, Itself);
    forall k | 0 <= k < |scored| ensures ofScore(scored[k]) <==> scored[k].truth == score {
      assert TruthKey(scored[k]) == scored[k].truth;
    }
    assert Places(scored, ofScore) == OfScore(scored, score);
    assert Places(scored, ofGroup) == OfGroup(scored, field, values[i]);
  }

  function Human(scored: seq<Scored>): (r: seq<int>)
    ensures |r| == |scored|
  {
    seq(|scored|, k requires 0 <= k < |scored| => scored[k].truth - 1)
  }

  function System(scored: seq<Scored>): (r: seq<int>)
    ensures |r| == |scored|
  {
    seq(|scored|, k requires 0 <= k < |scored| => scored[k].predicted - 1)
  }

  lemma {:induction false} PredictedInRange(samples: seq<SampleResult>, m: map<string, Essay>)
    requires forall id :: id in m ==> 1 <= m[id].score <= 6
    ensures Grades(Human(ScoredOf(samples, m)), 6) && Grades(System(ScoredOf(samples, m)), 6)
  {
    if samples != [] {
      PredictedInRange(samples[1..], m);
      var rest := ScoredOf(samples[1..], m);
      var total := if samples[0].total.Some? then samples[0].total.value else 0.0;
      RoundedLaws(total, total, 1);
      var head: seq<Scored> := Kept(samples[0], WithTotal(m), Score(m));
      forall k | 0 <= k < |head + rest|
        ensures 0 <= (head + rest)[k].truth - 1 < 6 && 0 <= (head + rest)[k].predicted - 1 < 6 {
        if k >= |head| {
          assert (head + rest)[k] == rest[k - |head|];
          assert Human(rest)[k - |head|] == rest[k - |head|].truth - 1
            && System(rest)[k - |head|] == rest[k - |head|].predicted - 1;
        }
      }
    }
  }

  // The scores themselves, as the two rating lists of the metrics.
  function Truths(scored: seq<Scored>): (r: seq<int>)
    ensures |r| == |scored|
  {
    seq(|scored|, k requires 0 <= k < |scored| => scored[k].truth)
  }

  function Predicted(scored: seq<Scored>): (r: seq<int>)
    ensures |r| == |scored|
  {
    seq(|scored|, k requires 0 <= k < |scored| => scored[k].predicted)
  }

  /** The confusion table, too, holds every scored essay once, with the score counts as marginals;
      its diagonals are the exact and adjacent counts of the scores. */
  lemma ConfusionAddsUp(samples: seq<SampleResult>, m: map<string, Essay>, score: int)
    requires forall id :: id in m ==> 1 <= m[id].score <= 6
    ensures var scored := ScoredOf(samples, m); var g, h := Human(scored), System(scored);
      && Everything(g, h, |g|, 6, 6) == |scored|
      && RowSum(g, h, |g|, score, 0, 6) == Hist(g, |g|, score)
      && ColumnSum(g, h, |g|, score, 6) == Hist(h, |h|, score)
      && NearDiagonal(g, h, |g|, 0, 6) == Agreeing(Truths(scored), Predicted(scored), |scored|, 0)
      && NearDiagonal(g, h, |g|, 1, 6) == Agreeing(Truths(scored), Predicted(scored), |scored|, 1)
  {
    hide RowSum, ColumnSum, NearDiagonal, Everything, Hist, ScoredOf;
    var scored := ScoredOf(samples, m);
    PredictedInRange(samples, m);
    ConfusionAccounts(Human(scored), System(scored), |scored|, 6, 0, score);
    ConfusionAccounts(Human(scored), System(scored), |scored|, 6, 1, score);
    SameAgreement(scored, |scored|, 0);
    SameAgreement(scored, |scored|, 1);
  }

  lemma {:induction false} SameAgreement(scored: seq<Scored>, k: nat, reach: nat)
    requires k <= |scored|
    ensures Agreeing(Human(scored), System(scored), k, reach) == Agreeing(Truths(scored), Predicted(scored), k, reach)
  {
    if k > 0 { SameAgreement(scored, k - 1, reach); }
  }

  /** The summary's rates and kappa are of those same pairs: ordered shares, kappa in range over
      scores 1 to 6, and perfect exactly when every essay got its score. */
  lemma SummaryRates(samples: seq<SampleResult>, m: map<string, Essay>)
    requires forall id :: id in m ==> 1 <= m[id].score <= 6
    requires ScoredOf(samples, m) != []
    ensures var scored := ScoredOf(samples, m); var g, h, n := Truths(scored), Predicted(scored), |scored|;
      var exact, adjacent := Share(Agreeing(g, h, n, 0), n), Share(Agreeing(g, h, n, 1), n);
      && 0.0 <= exact.value <= adjacent.value <= 1.0
      && KappaOf(g, h, Some(1), Some(6)) == Ok(Some(Value(Real(g), Real(h))))
      && -1.0 <= Value(Real(g), Real(h)) <= 1.0
      && (Value(Real(g), Real(h)) == 1.0 <==> exact == Some(1.0))
      && (exact == Some(1.0) <==> forall k :: 0 <= k < n ==> scored[k].predicted == scored[k].truth)
  {
    hide Value, KappaOf, Agreeing, ScoredOf, Share;
    var scored := ScoredOf(samples, m);
    var g, h, n := Truths(scored), Predicted(scored), |scored|;
    PredictedInRange(samples, m);
    ScoresInRange(scored);
    AgreeingEverywhere(g, h, n);
    assert forall k :: 0 <= k < n ==> g[k] == scored[k].truth && h[k] == scored[k].predicted;
    assert g[..n] == g && h[..n] == h;
    ShareFacts(Agreeing(g, h, n, 0), n);
    ShareFacts(Agreeing(g, h, n, 1), n);
    SharesOrdered(Agreeing(g, h, n, 0), Agreeing(g, h, n, 1), n);
    RangeDropsOut(g, h, Some(1), Some(6));
    Range(Real(g), Real(h));
    PerfectInRange(g, h, Some(1), Some(6));
    DifferSomewhere(g, h);
  }

  lemma ScoresInRange(scored: seq<Scored>)
    requires Grades(Human(scored), 6) && Grades(System(scored), 6)
    ensures Within(Truths(scored), 1, 6) && Within(Predicted(scored), 1, 6)
  {
    forall k | 0 <= k < |scored| ensures 1 <= scored[k].truth <= 6 && 1 <= scored[k].predicted <= 6 {
      assert Human(scored)[k] == scored[k].truth - 1 && System(scored)[k] == scored[k].predicted - 1;
    }
  }
}
