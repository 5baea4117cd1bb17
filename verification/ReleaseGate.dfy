/** The release gate of backend/app/eval/gating.py: candidate, approval, final record and
    regression comparison, bound together by hashes.  Metrics are reals, a missing key is None. */
module ReleaseGate {
  import opened Wrappers

  // ----- records

  // A JSON value read for its truth: `is True` is stricter than truthiness.
  datatype Truth = IsTrue | IsFalse | OtherTruthy | OtherFalsy

  predicate Truthy(t: Truth) { t.IsTrue? || t.OtherTruthy? }

  datatype Issue =
    | MetricMissing(metric: string)
    | BelowMinimum(metric: string)
    | AboveMaximum(metric: string)
    | NotEligible
    | NotPassed
    | IdentityChanged(path: string)
    | IncompleteFor(metric: string)
    | Regressed(metric: string)
    | Carried(text: string)

  // A limit as the approval states it; None is a value that is not a number.
  type Limits = map<string, Option<real>>

  datatype Baseline = Baseline(metrics: map<string, real>, thresholds: Limits, tolerances: Limits)

  datatype Acceptance = Acceptance(approvedBy: string, approvedAt: string, privacy: map<string, Truth>,
    baseline: Baseline)

  // Everything in a record but its two hashes.  `identity` holds the values under the identity
  // paths, `anchors` what the anchors object, if there is one, says of the holdout exclusion,
  // `content` whatever the gate copies without reading, `keys` every key of the nested objects, in
  // lower case.
  datatype Body = Body(
    schema: string, status: string, gatingEligible: Truth, gatePassed: Truth, missing: seq<Issue>,
    metrics: map<string, real>, identity: map<string, string>, anchors: Option<Truth>,
    pending: seq<string>, approval: Option<Acceptance>, content: string,
    keys: set<string>)

  // `evaluation_sha256` as an injective function: a digest is determined by what it was taken of,
  // the record without the key being computed, and determines it.
  datatype Digest = Digest(body: Body, candidateSha: Option<Digest>, finalSha: Option<Digest>)

  datatype Record = Record(body: Body, candidateSha: Option<Digest>, finalSha: Option<Digest>)

  datatype Approval = Approval(schema: string, candidateSha: Option<Digest>, approvedBy: Option<string>,
    approvedAt: Option<string>, privacy: map<string, Truth>, baseline: Baseline, keys: set<string>)

  datatype GateError =
    | UnsupportedRecord | CandidateHashMismatch | UnsupportedApproval | OtherCandidate | MissingText
    | PrivacyIncomplete | BaselineMismatch | BadThresholds | BadTolerances | NoAnchors | UnsafeRecord
    | FinalHashMismatch

  const RECORD_SCHEMA := "paper-grading/evaluation-gate@1"
  const APPROVAL_SCHEMA := "paper-grading/evaluation-gate-approval@1"

  const METRICS := ["qwk", "mae", "rmse", "exact_grade_agreement", "adjacent_grade_agreement",
                    "review_rate", "blocked_rate", "invalid_evidence_rate"]

  const PRIVACY := ["dataset_deidentified", "repository_scan_passed", "anchors_exclude_holdout",
                    "teacher_truth_external_only"]

  const IDENTITY_PATHS := ["profile_key", "dataset.dataset_id", "dataset.dataset_version", "dataset.sample_count",
    "dataset.dataset_manifest_sha256", "dataset.paper_manifest_sha256", "dataset.truth_sha256",
    "rubric.version_hash", "rubric.snapshot_sha256", "anchors.manifest_sha256"]

  const SENSITIVE := {"filename", "file_name", "student_id", "student_name", "advisor", "title", "human_total",
                      "human_items", "system_total", "system_items", "per_sample", "truth"}

  // A limit key, the metric it bounds, and whether it bounds it from below.
  datatype Bound = Bound(key: string, metric: string, lower: bool)

  const THRESHOLDS := [
    Bound("minimum_qwk", "qwk", true), Bound("maximum_mae", "mae", false), Bound("maximum_rmse", "rmse", false),
    Bound("minimum_exact_grade_agreement", "exact_grade_agreement", true),
    Bound("minimum_adjacent_grade_agreement", "adjacent_grade_agreement", true),
    Bound("maximum_review_rate", "review_rate", false), Bound("maximum_blocked_rate", "blocked_rate", false),
    Bound("maximum_invalid_evidence_rate", "invalid_evidence_rate", false)]

  // The comparisons of a regression; `lower` marks the metrics that must not drop.
  const TOLERANCES := [
    Bound("qwk_drop", "qwk", true), Bound("mae_rise", "mae", false), Bound("rmse_rise", "rmse", false),
    Bound("exact_grade_agreement_drop", "exact_grade_agreement", true),
    Bound("adjacent_grade_agreement_drop", "adjacent_grade_agreement", true),
    Bound("review_rate_rise", "review_rate", false),
    Bound("invalid_evidence_rate_rise", "invalid_evidence_rate", false)]

  function KeysOf(bounds: seq<Bound>): set<string> {
    set b | b in bounds :: b.key
  }

  // Exactly the expected keys, each a non-negative number.
  predicate LimitsOk(limits: Limits, bounds: seq<Bound>) {
    && limits.Keys == KeysOf(bounds)
    && forall b | b in bounds :: b.key in limits && limits[b.key].Some? && limits[b.key].value >= 0.0
  }

  // ----- hashes

  function CandidateDigest(r: Record): Digest { Digest(r.body, None, r.finalSha) }

  function FinalDigest(r: Record): Digest { Digest(r.body, r.candidateSha, None) }

  predicate CandidateHashOk(r: Record) { r.candidateSha == Some(CandidateDigest(r)) }

  predicate FinalHashOk(r: Record) { r.finalSha == Some(FinalDigest(r)) }

  // ----- thresholds

  function ThresholdIssue(metrics: map<string, real>, limits: Limits, b: Bound): seq<Issue> {
    if b.metric !in metrics then [MetricMissing(b.metric)]
    else if b.key in limits && limits[b.key].Some? then
      var current, limit := metrics[b.metric], limits[b.key].value;
      if b.lower && current < limit then [BelowMinimum(b.metric)]
      else if !b.lower && current > limit then [AboveMaximum(b.metric)]
      else []
    else []
  }

  function ThresholdList(metrics: map<string, real>, limits: Limits, bounds: seq<Bound>): seq<Issue> {
    if bounds == [] then []
    else ThresholdIssue(metrics, limits, bounds[0]) + ThresholdList(metrics, limits, bounds[1..])
  }

  // `_threshold_issues`
  function ThresholdIssues(metrics: map<string, real>, thresholds: Limits): Result<seq<Issue>, GateError> {
    if !LimitsOk(thresholds, THRESHOLDS) then Err(BadThresholds)
    else Ok(ThresholdList(metrics, thresholds, THRESHOLDS))
  }

  // ----- finalising

  predicate SameMetric(a: map<string, real>, b: map<string, real>, key: string) {
    (key in a <==> key in b) && (key in a && key in b ==> a[key] == b[key])
  }

  predicate Confirmed(privacy: map<string, Truth>, key: string) {
    key in privacy && privacy[key].IsTrue?
  }

  predicate PrivacyOk(privacy: map<string, Truth>) {
    forall key | key in PRIVACY :: Confirmed(privacy, key)
  }

  // `_unique`: the first of equal issues stays.
  function Unique(s: seq<Issue>): seq<Issue> {
    if s == [] then []
    else
      var init, last := Unique(s[..|s| - 1]), s[|s| - 1];
      if last in init then init else init + [last]
  }

  // `finalize_gate`
  function FinalizeGate(candidate: Record, approval: Approval): Result<Record, GateError> {
    if candidate.body.schema != RECORD_SCHEMA then Err(UnsupportedRecord)
    else if !CandidateHashOk(candidate) then Err(CandidateHashMismatch)
    else if approval.schema != APPROVAL_SCHEMA then Err(UnsupportedApproval)
    else if approval.candidateSha != candidate.candidateSha then Err(OtherCandidate)
    else if approval.approvedBy.None? || approval.approvedAt.None? then Err(MissingText)
    else if !PrivacyOk(approval.privacy) then Err(PrivacyIncomplete)
    else if exists key | key in METRICS :: !SameMetric(approval.baseline.metrics, candidate.body.metrics, key)
      then Err(BaselineMismatch)
    else
      match ThresholdIssues(candidate.body.metrics, approval.baseline.thresholds)
      case Err(e) => Err(e)
      case Ok(issues) =>
        if !LimitsOk(approval.baseline.tolerances, TOLERANCES) then Err(BadTolerances)
        else if candidate.body.anchors.None? then Err(NoAnchors)
        else
          var r := Sealed(candidate, approval, issues);
          if PublicSafe(r) then Ok(r) else Err(UnsafeRecord)
  }

  // `assert_public_record_safe`
  predicate PublicSafe(r: Record) { r.body.keys !! SENSITIVE }

  // The final record: the candidate with the approval, the verdict and the final hash.
  function Sealed(candidate: Record, approval: Approval, issues: seq<Issue>): Record
    requires approval.approvedBy.Some? && approval.approvedAt.Some?
  {
    var acceptance := Acceptance(approval.approvedBy.value, approval.approvedAt.value, approval.privacy,
      approval.baseline);
    var body := candidate.body.(approval := Some(acceptance), anchors := Some(IsTrue), pending := [],
      keys := candidate.body.keys + approval.keys);
    var verdict :=
      if Truthy(candidate.body.gatingEligible) && issues == []
      then body.(status := "passed", gatePassed := IsTrue, missing := [])
      else body.(status := if issues != [] then "failed_thresholds" else "ineligible", gatePassed := IsFalse,
                 missing := Unique(body.missing + issues));
    var unsealed := Record(verdict, candidate.candidateSha, candidate.finalSha);
    unsealed.(finalSha := Some(FinalDigest(unsealed)))
  }

  // `finalize_gate`, step by step: the checks fill their lists, then a copy of the candidate is edited.
  method Finalize(candidate: Record, approval: Approval) returns (r: Result<Record, GateError>)
    ensures r == FinalizeGate(candidate, approval)
  {
    hide METRICS, THRESHOLDS, TOLERANCES, PRIVACY, SENSITIVE, Unique, ThresholdList, PrivacyOk, Confirmed;
    if candidate.body.schema != RECORD_SCHEMA { return Err(UnsupportedRecord); }
    if !CandidateHashOk(candidate) { return Err(CandidateHashMismatch); }
    if approval.schema != APPROVAL_SCHEMA { return Err(UnsupportedApproval); }
    if approval.candidateSha != candidate.candidateSha { return Err(OtherCandidate); }
    if approval.approvedBy.None? || approval.approvedAt.None? { return Err(MissingText); }
    var failedPrivacy := FailedPrivacy(approval.privacy);
    if failedPrivacy != [] { return Err(PrivacyIncomplete); }
    for k := 0 to |METRICS|
      invariant forall j :: 0 <= j < k ==> SameMetric(approval.baseline.metrics, candidate.body.metrics, METRICS[j])
    {
      if !SameMetric(approval.baseline.metrics, candidate.body.metrics, METRICS[k]) {
        assert METRICS[k] in METRICS;
        return Err(BaselineMismatch);
      }
    }
    var checked := CollectThresholdIssues(candidate.body.metrics, approval.baseline.thresholds);
    if checked.Err? { return Err(checked.error); }
    var issues := checked.value;
    if !LimitsOk(approval.baseline.tolerances, TOLERANCES) { return Err(BadTolerances); }

    var result := candidate;
    result := result.(body := result.body.(approval :=
      Some(Acceptance(approval.approvedBy.value, approval.approvedAt.value, approval.privacy, approval.baseline)),
      keys := result.body.keys + approval.keys));
    if result.body.anchors.None? { return Err(NoAnchors); }
    result := result.(body := result.body.(anchors := Some(IsTrue)));
    result := result.(body := result.body.(pending := []));
    if Truthy(candidate.body.gatingEligible) && issues == [] {
      result := result.(body := result.body.(status := "passed", gatePassed := IsTrue, missing := []));
    } else {
      var status := if issues != [] then "failed_thresholds" else "ineligible";
      result := result.(body := result.body.(status := status, gatePassed := IsFalse));
      result := result.(body := result.body.(missing := Unique(result.body.missing + issues)));
    }
    result := result.(finalSha := Some(FinalDigest(result)));
    if !PublicSafe(result) { return Err(UnsafeRecord); }
    return Ok(result);
  }

  method FailedPrivacy(privacy: map<string, Truth>) returns (failed: seq<string>)
    ensures failed == [] <==> PrivacyOk(privacy)
    ensures forall key :: key in failed <==> key in PRIVACY && !Confirmed(privacy, key)
  {
    hide PRIVACY, Confirmed;
    failed := [];
    for k := 0 to |PRIVACY|
      invariant forall key :: key in failed <==> key in PRIVACY[..k] && !Confirmed(privacy, key)
    {
      if !Confirmed(privacy, PRIVACY[k]) { failed := failed + [PRIVACY[k]]; }
    }
    assert PRIVACY[..|PRIVACY|] == PRIVACY;
    if failed == [] {
      forall key | key in PRIVACY ensures Confirmed(privacy, key) { assert key !in failed; }
    } else {
      assert failed[0] in failed;
    }
  }

  method CollectThresholdIssues(metrics: map<string, real>, thresholds: Limits)
    returns (r: Result<seq<Issue>, GateError>)
    ensures r == ThresholdIssues(metrics, thresholds)
  {
    hide THRESHOLDS, LimitsOk, ThresholdList, ThresholdIssue;
    if !LimitsOk(thresholds, THRESHOLDS) { return Err(BadThresholds); }
    var issues: seq<Issue> := [];
    for k := 0 to |THRESHOLDS|
      invariant issues + ThresholdList(metrics, thresholds, THRESHOLDS[k..])
        == ThresholdList(metrics, thresholds, THRESHOLDS)
    {
      NextBound(metrics, thresholds, THRESHOLDS, k, issues);
      issues := issues + ThresholdIssue(metrics, thresholds, THRESHOLDS[k]);
    }
    NoBound(metrics, thresholds, THRESHOLDS, issues);
    return Ok(issues);
  }

  lemma NextBound(metrics: map<string, real>, limits: Limits, bounds: seq<Bound>, k: nat, issues: seq<Issue>)
    requires k < |bounds|
    ensures issues + ThresholdList(metrics, limits, bounds[k..])
         == (issues + ThresholdIssue(metrics, limits, bounds[k])) + ThresholdList(metrics, limits, bounds[k + 1..])
  {
    assert bounds[k..][1..] == bounds[k + 1..];
  }

  lemma NoBound(metrics: map<string, real>, limits: Limits, bounds: seq<Bound>, issues: seq<Issue>)
    ensures issues + ThresholdList(metrics, limits, bounds[|bounds|..]) == issues
  {
  }

  // ----- regression

  function RegressionIssue(current: map<string, real>, baseline: Baseline, b: Bound): seq<Issue> {
    if b.metric !in current || b.metric !in baseline.metrics || b.key !in baseline.tolerances
       || baseline.tolerances[b.key].None? then [IncompleteFor(b.metric)]
    else
      var now, was, slack := current[b.metric], baseline.metrics[b.metric], baseline.tolerances[b.key].value;
      if b.lower && now < was - slack then [Regressed(b.metric)]
      else if !b.lower && now > was + slack then [Regressed(b.metric)]
      else []
  }

  function RegressionList(current: map<string, real>, baseline: Baseline, bounds: seq<Bound>): seq<Issue> {
    if bounds == [] then []
    else RegressionIssue(current, baseline, bounds[0]) + RegressionList(current, baseline, bounds[1..])
  }

  function NoBaseline(): Baseline { Baseline(map[], map[], map[]) }

  // `approved_regression_issues`
  function RegressionIssues(current: map<string, real>, approved: Record): Result<seq<Issue>, GateError> {
    if !approved.body.gatePassed.IsTrue? then Ok([NotPassed])
    else
      var baseline := if approved.body.approval.Some? then approved.body.approval.value.baseline else NoBaseline();
      if !LimitsOk(baseline.tolerances, TOLERANCES) then Err(BadTolerances)
      else Ok(RegressionList(current, baseline, TOLERANCES))
  }

  predicate SameIdentity(a: map<string, string>, b: map<string, string>, path: string) {
    (path in a <==> path in b) && (path in a && path in b ==> a[path] == b[path])
  }

  function IdentityIssues(a: map<string, string>, b: map<string, string>, paths: seq<string>): seq<Issue> {
    if paths == [] then []
    else (if SameIdentity(a, b, paths[0]) then [] else [IdentityChanged(paths[0])]) + IdentityIssues(a, b, paths[1..])
  }

  // `approved_candidate_regression_issues`
  function CandidateRegressionIssues(candidate: Record, approved: Record): Result<seq<Issue>, GateError> {
    if !CandidateHashOk(candidate) then Err(CandidateHashMismatch)
    else if !FinalHashOk(approved) then Err(FinalHashMismatch)
    else
      var eligible := if candidate.body.gatingEligible.IsTrue? then [] else [NotEligible];
      if !approved.body.gatePassed.IsTrue? then Ok(eligible + [NotPassed])
      else
        match RegressionIssues(candidate.body.metrics, approved)
        case Err(e) => Err(e)
        case Ok(issues) =>
          Ok(Unique(eligible + IdentityIssues(candidate.body.identity, approved.body.identity, IDENTITY_PATHS)
            + issues))
  }

  // ----- when the lists are empty

  ghost predicate Meets(metrics: map<string, real>, limits: Limits, b: Bound)
    requires b.key in limits && limits[b.key].Some?
  {
    && b.metric in metrics
    && if b.lower then metrics[b.metric] >= limits[b.key].value else metrics[b.metric] <= limits[b.key].value
  }

  lemma {:induction false} NoThresholdIssue(metrics: map<string, real>, limits: Limits, bounds: seq<Bound>)
    requires forall b :: b in bounds ==> b.key in limits && limits[b.key].Some?
    ensures ThresholdList(metrics, limits, bounds) == [] <==> forall b :: b in bounds ==> Meets(metrics, limits, b)
  {
    if bounds != [] {
      NoThresholdIssue(metrics, limits, bounds[1..]);
      assert bounds == [bounds[0]] + bounds[1..];
      assert ThresholdIssue(metrics, limits, bounds[0]) == [] <==> Meets(metrics, limits, bounds[0]);
    }
  }

  ghost predicate WithinTolerance(current: map<string, real>, baseline: Baseline, b: Bound)
    requires b.key in baseline.tolerances && baseline.tolerances[b.key].Some?
  {
    && b.metric in current && b.metric in baseline.metrics
    && if b.lower then current[b.metric] >= baseline.metrics[b.metric] - baseline.tolerances[b.key].value
       else current[b.metric] <= baseline.metrics[b.metric] + baseline.tolerances[b.key].value
  }

  lemma {:induction false} NoRegression(current: map<string, real>, baseline: Baseline, bounds: seq<Bound>)
    requires forall b :: b in bounds ==> b.key in baseline.tolerances && baseline.tolerances[b.key].Some?
    ensures RegressionList(current, baseline, bounds) == [] <==>
      forall b :: b in bounds ==> WithinTolerance(current, baseline, b)
  {
    if bounds != [] {
      NoRegression(current, baseline, bounds[1..]);
      assert bounds == [bounds[0]] + bounds[1..];
      assert RegressionIssue(current, baseline, bounds[0]) == [] <==> WithinTolerance(current, baseline, bounds[0]);
    }
  }

  lemma {:induction false} NoIdentityIssue(a: map<string, string>, b: map<string, string>, paths: seq<string>)
    ensures IdentityIssues(a, b, paths) == [] <==> forall path :: path in paths ==> SameIdentity(a, b, path)
  {
    if paths != [] {
      NoIdentityIssue(a, b, paths[1..]);
      assert paths == [paths[0]] + paths[1..];
    }
  }

  lemma UniqueEmpty(s: seq<Issue>)
    ensures Unique(s) == [] <==> s == []
  {
    if s != [] {
      var init := Unique(s[..|s| - 1]);
      if s[|s| - 1] in init { assert init != []; }
    }
  }

  lemma ThresholdsAreListed(b: Bound)
    ensures b in THRESHOLDS ==> b.metric in METRICS
  {
    if b in THRESHOLDS {
      var k :| 0 <= k < |THRESHOLDS| && THRESHOLDS[k] == b;
      assert THRESHOLDS[k].metric == METRICS[k];
    }
  }

  // Where each tolerated metric stands among the thresholds; blocked_rate is passed over.
  lemma TolerancesAreBounded(b: Bound)
    ensures b in TOLERANCES ==>
      b.metric in METRICS && exists t :: t in THRESHOLDS && t.metric == b.metric && t.lower == b.lower
  {
    if b in TOLERANCES {
      var k :| 0 <= k < |TOLERANCES| && TOLERANCES[k] == b;
      var m := if k < 6 then k else 7;
      assert THRESHOLDS[m].metric == METRICS[m] == b.metric && THRESHOLDS[m].lower == b.lower;
      assert THRESHOLDS[m] in THRESHOLDS;
    }
  }

  // ----- what a verdict means

  // A record that `finalize_gate` returned, marked passed.
  ghost predicate PassedBy(candidate: Record, approval: Approval, r: Record) {
    FinalizeGate(candidate, approval) == Ok(r) && r.body.gatePassed.IsTrue?
  }

  lemma PassedFacts(candidate: Record, approval: Approval, r: Record)
    requires PassedBy(candidate, approval, r)
    ensures Truthy(candidate.body.gatingEligible) && CandidateHashOk(candidate)
    ensures LimitsOk(approval.baseline.thresholds, THRESHOLDS) && LimitsOk(approval.baseline.tolerances, TOLERANCES)
    ensures ThresholdList(candidate.body.metrics, approval.baseline.thresholds, THRESHOLDS) == []
    ensures forall key :: key in METRICS ==> SameMetric(approval.baseline.metrics, candidate.body.metrics, key)
    ensures r.body.approval.Some? && r.body.approval.value.baseline == approval.baseline
    ensures r.body.metrics == candidate.body.metrics && r.body.identity == candidate.body.identity
    ensures r.candidateSha == candidate.candidateSha && FinalHashOk(r)
    ensures r.body.keys == candidate.body.keys + approval.keys && r.body.keys !! SENSITIVE
  {
    hide ThresholdList, LimitsOk, SENSITIVE;
  }

  ghost predicate MeetsAll(metrics: map<string, real>, limits: Limits) {
    forall b :: b in THRESHOLDS ==> b.key in limits && limits[b.key].Some? && Meets(metrics, limits, b)
  }

  /** A gate passes exactly when its candidate is eligible and meets every approved limit. */
  lemma PassedIff(candidate: Record, approval: Approval, r: Record)
    requires FinalizeGate(candidate, approval) == Ok(r)
    ensures r.body.gatePassed.IsTrue? <==>
      Truthy(candidate.body.gatingEligible) && MeetsAll(candidate.body.metrics, approval.baseline.thresholds)
    ensures r.body.gatePassed.IsTrue? <==> r.body.status == "passed"
  {
    hide ThresholdList, THRESHOLDS, METRICS, TOLERANCES, SameMetric, PrivacyOk, KeysOf, Unique, Meets;
    var issues := ThresholdList(candidate.body.metrics, approval.baseline.thresholds, THRESHOLDS);
    assert LimitsOk(approval.baseline.thresholds, THRESHOLDS) && r == Sealed(candidate, approval, issues);
    NoThresholdIssue(candidate.body.metrics, approval.baseline.thresholds, THRESHOLDS);
    StatusWords();
  }

  lemma StatusWords()
    ensures "passed" != "failed_thresholds" && "passed" != "ineligible"
  {
    assert |"passed"| == 6 && |"failed_thresholds"| == 17 && |"ineligible"| == 10;
  }

  /** Nothing is finalised without the whole privacy review, a named approver and the candidate's
      own metrics as the baseline, nor with a forbidden key anywhere in candidate or approval. */
  lemma FinalisedWasReviewed(candidate: Record, approval: Approval, key: string)
    requires FinalizeGate(candidate, approval).Ok?
    ensures key in PRIVACY ==> key in approval.privacy && approval.privacy[key].IsTrue?
    ensures key in METRICS ==> SameMetric(approval.baseline.metrics, candidate.body.metrics, key)
    ensures var r := FinalizeGate(candidate, approval).value;
      && r.body.approval.Some? && approval.approvedBy == Some(r.body.approval.value.approvedBy)
      && r.body.approval.value.privacy == approval.privacy && r.body.anchors == Some(IsTrue) && FinalHashOk(r)
      && candidate.body.keys !! SENSITIVE && approval.keys !! SENSITIVE
  {
    hide SENSITIVE, METRICS, PRIVACY, ThresholdList, LimitsOk;
  }

  /** A passed record has all eight metrics. */
  lemma PassedHasMetrics(candidate: Record, approval: Approval, r: Record, b: Bound)
    requires PassedBy(candidate, approval, r) && b in THRESHOLDS
    ensures b.key in approval.baseline.thresholds && approval.baseline.thresholds[b.key].Some?
    ensures Meets(r.body.metrics, approval.baseline.thresholds, b) && b.metric in approval.baseline.metrics
    ensures approval.baseline.metrics[b.metric] == r.body.metrics[b.metric]
  {
    hide ThresholdList, FinalizeGate;
    PassedFacts(candidate, approval, r);
    PassedIff(candidate, approval, r);
    ThresholdsAreListed(b);
    assert SameMetric(approval.baseline.metrics, candidate.body.metrics, b.metric);
  }

  // Each tolerated metric of a passed record is the baseline's own.
  lemma PassedBaseline(candidate: Record, approval: Approval, r: Record, b: Bound)
    requires PassedBy(candidate, approval, r) && b in TOLERANCES
    ensures b.metric in r.body.metrics && b.metric in approval.baseline.metrics
    ensures approval.baseline.metrics[b.metric] == r.body.metrics[b.metric]
    ensures b.key in approval.baseline.tolerances && approval.baseline.tolerances[b.key].Some?
      && approval.baseline.tolerances[b.key].value >= 0.0
  {
    hide FinalizeGate, TOLERANCES, THRESHOLDS, METRICS;
    PassedFacts(candidate, approval, r);
    TolerancesAreBounded(b);
    var t :| t in THRESHOLDS && t.metric == b.metric && t.lower == b.lower;
    PassedHasMetrics(candidate, approval, r, t);
  }

  /** A passed record shows no regression against its own candidate, exactly when the candidate's
      eligibility is the value true and not merely something truthy. */
  lemma SelfConsistent(candidate: Record, approval: Approval, r: Record)
    requires PassedBy(candidate, approval, r)
    ensures CandidateRegressionIssues(candidate, r).Ok?
    ensures CandidateRegressionIssues(candidate, r).value == [] <==> candidate.body.gatingEligible.IsTrue?
  {
    hide FinalizeGate, TOLERANCES, THRESHOLDS, METRICS, IDENTITY_PATHS, ThresholdList, Unique;
    PassedFacts(candidate, approval, r);
    forall b | b in TOLERANCES
      ensures b.key in approval.baseline.tolerances && approval.baseline.tolerances[b.key].Some?
        && WithinTolerance(candidate.body.metrics, approval.baseline, b) {
      PassedBaseline(candidate, approval, r, b);
    }
    NoRegression(candidate.body.metrics, approval.baseline, TOLERANCES);
    NoIdentityIssue(candidate.body.identity, r.body.identity, IDENTITY_PATHS);
    var eligible := if candidate.body.gatingEligible.IsTrue? then [] else [NotEligible];
    UniqueEmpty(eligible + IdentityIssues(candidate.body.identity, r.body.identity, IDENTITY_PATHS)
      + RegressionList(candidate.body.metrics, approval.baseline, TOLERANCES));
  }

  // Immediate from the digest being injective: an approval finalises one candidate only.
  lemma ApprovalBindsCandidate(c: Record, d: Record, approval: Approval)
    requires FinalizeGate(c, approval).Ok? && FinalizeGate(d, approval).Ok?
    ensures c == d
  {
  }

  // Likewise: a sealed record cannot be altered under its hash.
  lemma SealBindsRecord(r: Record, s: Record)
    requires FinalHashOk(r) && FinalHashOk(s) && r.finalSha == s.finalSha
    ensures r == s
  {
    assert FinalDigest(r) == FinalDigest(s);
  }

  // ----- chains of releases

  // Gate i was passed by candidate i; each candidate is regression-clean against the record before.
  ghost predicate Chain(candidates: seq<Record>, approvals: seq<Approval>, records: seq<Record>) {
    && |candidates| == |approvals| == |records| > 0
    && (forall i :: 0 <= i < |records| ==> PassedBy(candidates[i], approvals[i], records[i]))
    && (forall i :: 0 < i < |records| ==> CandidateRegressionIssues(candidates[i], records[i - 1]) == Ok([]))
  }

  function TotalSlack(approvals: seq<Approval>, key: string): real {
    if approvals == [] then 0.0
    else
      var t := approvals[|approvals| - 1].baseline.tolerances;
      TotalSlack(approvals[..|approvals| - 1], key) + (if key in t && t[key].Some? then t[key].value else 0.0)
  }

  lemma CleanStep(c: Record, before: Record, candidate0: Record, approval0: Approval, b: Bound)
    requires PassedBy(candidate0, approval0, before) && CandidateRegressionIssues(c, before) == Ok([])
    requires b in TOLERANCES
    ensures forall path :: path in IDENTITY_PATHS ==> SameIdentity(c.body.identity, before.body.identity, path)
    ensures b.key in approval0.baseline.tolerances && approval0.baseline.tolerances[b.key].Some?
    ensures WithinTolerance(c.body.metrics, approval0.baseline, b)
  {
    hide FinalizeGate, TOLERANCES, THRESHOLDS, METRICS, IDENTITY_PATHS, ThresholdList, Unique;
    PassedFacts(candidate0, approval0, before);
    var issues := RegressionList(c.body.metrics, approval0.baseline, TOLERANCES);
    var identity := IdentityIssues(c.body.identity, before.body.identity, IDENTITY_PATHS);
    var eligible := if c.body.gatingEligible.IsTrue? then [] else [NotEligible];
    UniqueEmpty(eligible + identity + issues);
    assert issues == [] && identity == [];
    assert forall t :: t in TOLERANCES ==>
      t.key in approval0.baseline.tolerances && approval0.baseline.tolerances[t.key].Some?;
    NoRegression(c.body.metrics, approval0.baseline, TOLERANCES);
    NoIdentityIssue(c.body.identity, before.body.identity, IDENTITY_PATHS);
  }

  // From the first to the last metrics, the bounded one moved the wrong way by at most `slack`.
  ghost predicate Drift(first: map<string, real>, last: map<string, real>, b: Bound, slack: real) {
    && b.metric in first && b.metric in last
    && if b.lower then last[b.metric] >= first[b.metric] - slack else last[b.metric] <= first[b.metric] + slack
  }

  ghost predicate IdentityKept(a: Record, b: Record) {
    forall path :: path in IDENTITY_PATHS ==> SameIdentity(a.body.identity, b.body.identity, path)
  }

  lemma ShorterChain(candidates: seq<Record>, approvals: seq<Approval>, records: seq<Record>, n: nat)
    requires Chain(candidates, approvals, records) && 0 < n <= |records|
    ensures Chain(candidates[..n], approvals[..n], records[..n])
  {
    hide CandidateRegressionIssues, PassedBy;
    forall i | 0 < i < n ensures CandidateRegressionIssues(candidates[..n][i], records[..n][i - 1]) == Ok([]) {
      assert CandidateRegressionIssues(candidates[i], records[i - 1]) == Ok([]);
    }
  }

  /** Along a chain of releases each compared metric drifts at most by the sum of the approved
      tolerances, and the identity of what is measured stays the same. */
  lemma {:induction false} DriftBounded(candidates: seq<Record>, approvals: seq<Approval>,
                                       records: seq<Record>, b: Bound)
    requires Chain(candidates, approvals, records) && b in TOLERANCES
    ensures var n := |records| - 1;
      && Drift(records[0].body.metrics, records[n].body.metrics, b, TotalSlack(approvals[..n], b.key))
      && IdentityKept(records[n], records[0])
    decreases |records|
  {
    hide FinalizeGate, TOLERANCES, THRESHOLDS, IDENTITY_PATHS, CandidateRegressionIssues;
    var n := |records| - 1;
    PassedBaseline(candidates[n], approvals[n], records[n], b);
    if n == 0 {
      assert approvals[..0] == [];
    } else {
      ShorterChain(candidates, approvals, records, n);
      DriftBounded(candidates[..n], approvals[..n], records[..n], b);
      assert approvals[..n][..n - 1] == approvals[..n - 1];
      DriftStep(candidates, approvals, records, n, b);
    }
  }

  lemma DriftStep(candidates: seq<Record>, approvals: seq<Approval>, records: seq<Record>, n: nat, b: Bound)
    requires Chain(candidates, approvals, records) && b in TOLERANCES && 0 < n < |records|
    requires Drift(records[0].body.metrics, records[n - 1].body.metrics, b, TotalSlack(approvals[..n - 1], b.key))
    requires IdentityKept(records[n - 1], records[0])
    ensures Drift(records[0].body.metrics, records[n].body.metrics, b, TotalSlack(approvals[..n], b.key))
    ensures IdentityKept(records[n], records[0])
  {
    hide FinalizeGate, TOLERANCES, THRESHOLDS, IDENTITY_PATHS, CandidateRegressionIssues, LimitsOk, ThresholdList;
    CleanStep(candidates[n], records[n - 1], candidates[n - 1], approvals[n - 1], b);
    PassedFacts(candidates[n], approvals[n], records[n]);
    PassedBaseline(candidates[n - 1], approvals[n - 1], records[n - 1], b);
    assert approvals[..n][..n - 1] == approvals[..n - 1];
  }

  ghost predicate AtLeast(metrics: map<string, real>, key: string, floor: real) {
    key in metrics && metrics[key] >= floor
  }

  ghost predicate Limit(limits: Limits, key: string, value: real) {
    key in limits && limits[key] == Some(value)
  }

  /** For kappa: never below the last approved minimum, which is not negative, nor below the first
      value less all the drops allowed on the way. */
  lemma KappaFloor(candidates: seq<Record>, approvals: seq<Approval>, records: seq<Record>, first: real, minimum: real)
    requires Chain(candidates, approvals, records)
    requires AtLeast(records[0].body.metrics, "qwk", first)
    requires Limit(approvals[|records| - 1].baseline.thresholds, "minimum_qwk", minimum)
    ensures var n := |records| - 1;
      && AtLeast(records[n].body.metrics, "qwk", first - TotalSlack(approvals[..n], "qwk_drop"))
      && AtLeast(records[n].body.metrics, "qwk", minimum) && minimum >= 0.0
  {
    hide FinalizeGate, CandidateRegressionIssues, ThresholdList, METRICS, IDENTITY_PATHS, KeysOf, TOLERANCES,
      THRESHOLDS;
    var n := |records| - 1;
    var drop, floor := Bound("qwk_drop", "qwk", true), Bound("minimum_qwk", "qwk", true);
    KappaIsBounded();
    DriftBounded(candidates, approvals, records, drop);
    PassedFacts(candidates[n], approvals[n], records[n]);
    PassedHasMetrics(candidates[n], approvals[n], records[n], floor);
  }

  lemma KappaIsBounded()
    ensures Bound("qwk_drop", "qwk", true) in TOLERANCES && Bound("minimum_qwk", "qwk", true) in THRESHOLDS
  {
    assert TOLERANCES[0] == Bound("qwk_drop", "qwk", true) && THRESHOLDS[0] == Bound("minimum_qwk", "qwk", true);
  }

  // ----- the metric that is not compared

  // The same candidate with another blocked rate, hashed again.
  function WithBlockedRate(c: Record, rate: real): Record {
    var body := c.body.(metrics := c.body.metrics["blocked_rate" := rate]);
    Record(body, Some(Digest(body, None, c.finalSha)), c.finalSha)
  }

  // An approval of it that only moves the limit of that rate.
  function ApprovingRate(c: Record, a: Approval, rate: real): Approval {
    var baseline := a.baseline.(
      metrics := a.baseline.metrics["blocked_rate" := rate],
      thresholds := a.baseline.thresholds["maximum_blocked_rate" := Some(rate)]);
    a.(candidateSha := WithBlockedRate(c, rate).candidateSha, baseline := baseline)
  }

  lemma BlockedRateIsNotCompared(b: Bound)
    ensures b in TOLERANCES ==> b.metric != "blocked_rate"
    ensures b in THRESHOLDS ==> (b.metric == "blocked_rate" <==> b.key == "maximum_blocked_rate")
    ensures Bound("maximum_blocked_rate", "blocked_rate", false) in THRESHOLDS && "blocked_rate" in METRICS
  {
    assert THRESHOLDS[6] == Bound("maximum_blocked_rate", "blocked_rate", false);
    assert METRICS[6] == "blocked_rate";
    assert |"blocked_rate"| == 12 && |"maximum_blocked_rate"| == 20;
    if b in TOLERANCES {
      var k :| 0 <= k < |TOLERANCES| && TOLERANCES[k] == b;
      assert b.metric[0] != 'b';
    }
    if b in THRESHOLDS {
      var k :| 0 <= k < |THRESHOLDS| && THRESHOLDS[k] == b;
      if k != 6 { assert b.metric[0] != 'b' && b.key != "maximum_blocked_rate" by { OtherKeys(k); } }
    }
  }

  lemma OtherKeys(k: nat)
    requires k < |THRESHOLDS| && k != 6
    ensures THRESHOLDS[k].key != "maximum_blocked_rate" && THRESHOLDS[k].metric[0] != 'b'
  {
    assert "maximum_blocked_rate"[8] == 'b';
    assert THRESHOLDS[k].key[8] != 'b';
  }

  /** `blocked_rate` is approved but never compared: after any passed gate, a candidate that differs
      only in that rate, however high, can be approved, passes, and shows no regression. */
  lemma BlockedRateMayRise(c: Record, a: Approval, r: Record, rate: real)
    requires PassedBy(c, a, r) && c.body.gatingEligible.IsTrue? && rate >= 0.0
    ensures var d, e := WithBlockedRate(c, rate), ApprovingRate(c, a, rate);
      && CandidateRegressionIssues(d, r) == Ok([])
      && FinalizeGate(d, e).Ok? && FinalizeGate(d, e).value.body.gatePassed.IsTrue?
      && FinalizeGate(d, e).value.body.metrics["blocked_rate" := 0.0] == r.body.metrics["blocked_rate" := 0.0]
      && "blocked_rate" in FinalizeGate(d, e).value.body.metrics
      && FinalizeGate(d, e).value.body.metrics["blocked_rate"] == rate
  {
    hide SENSITIVE, TOLERANCES, THRESHOLDS, METRICS, IDENTITY_PATHS, ThresholdList, Unique, RegressionList,
      IdentityIssues, KeysOf;
    var d, e := WithBlockedRate(c, rate), ApprovingRate(c, a, rate);
    PassedFacts(c, a, r);
    RaisedIsClean(c, a, r, rate);
    RaisedMeetsLimits(c, a, r, rate);
    RaisedBaseline(c, a, r, rate);
  }

  lemma RaisedIsClean(c: Record, a: Approval, r: Record, rate: real)
    requires PassedBy(c, a, r) && c.body.gatingEligible.IsTrue?
    ensures CandidateRegressionIssues(WithBlockedRate(c, rate), r) == Ok([])
  {
    hide FinalizeGate, TOLERANCES, THRESHOLDS, METRICS, IDENTITY_PATHS, ThresholdList, Unique;
    var d := WithBlockedRate(c, rate);
    PassedFacts(c, a, r);
    forall b | b in TOLERANCES
      ensures b.key in a.baseline.tolerances && a.baseline.tolerances[b.key].Some?
        && WithinTolerance(d.body.metrics, a.baseline, b) {
      PassedBaseline(c, a, r, b);
      BlockedRateIsNotCompared(b);
    }
    NoRegression(d.body.metrics, a.baseline, TOLERANCES);
    NoIdentityIssue(d.body.identity, r.body.identity, IDENTITY_PATHS);
    UniqueEmpty([] + IdentityIssues(d.body.identity, r.body.identity, IDENTITY_PATHS)
      + RegressionList(d.body.metrics, a.baseline, TOLERANCES));
  }

  lemma RaisedMeetsLimits(c: Record, a: Approval, r: Record, rate: real)
    requires PassedBy(c, a, r) && rate >= 0.0
    ensures var d, e := WithBlockedRate(c, rate), ApprovingRate(c, a, rate);
      ThresholdIssues(d.body.metrics, e.baseline.thresholds) == Ok([])
  {
    hide FinalizeGate, TOLERANCES, THRESHOLDS, METRICS, ThresholdList;
    var d, e := WithBlockedRate(c, rate), ApprovingRate(c, a, rate);
    PassedFacts(c, a, r);
    var top := Bound("maximum_blocked_rate", "blocked_rate", false);
    BlockedRateIsNotCompared(top);
    forall b | b in THRESHOLDS
      ensures b.key in e.baseline.thresholds && e.baseline.thresholds[b.key].Some?
        && e.baseline.thresholds[b.key].value >= 0.0
        && Meets(d.body.metrics, e.baseline.thresholds, b) {
      BlockedRateIsNotCompared(b);
      BoundsAreFunctional(b, top);
      PassedHasMetrics(c, a, r, b);
    }
    assert top.key in KeysOf(THRESHOLDS);
    assert e.baseline.thresholds.Keys == a.baseline.thresholds.Keys;
    NoThresholdIssue(d.body.metrics, e.baseline.thresholds, THRESHOLDS);
  }

  lemma BoundsAreFunctional(b: Bound, top: Bound)
    requires b in THRESHOLDS && top == Bound("maximum_blocked_rate", "blocked_rate", false)
    ensures b.key == top.key ==> b == top
  {
    var k :| 0 <= k < |THRESHOLDS| && THRESHOLDS[k] == b;
    if k != 6 { OtherKeys(k); }
  }

  lemma RaisedBaseline(c: Record, a: Approval, r: Record, rate: real)
    requires PassedBy(c, a, r)
    ensures var d, e := WithBlockedRate(c, rate), ApprovingRate(c, a, rate);
      forall key :: key in METRICS ==> SameMetric(e.baseline.metrics, d.body.metrics, key)
  {
    hide FinalizeGate, TOLERANCES, THRESHOLDS, METRICS, ThresholdList;
    PassedFacts(c, a, r);
  }

  // ----- which candidates can pass at all

  function Highest(metrics: map<string, real>, keys: seq<string>): (high: real)
    ensures high >= 0.0 && forall key :: key in keys && key in metrics ==> metrics[key] <= high
  {
    if keys == [] then 0.0
    else
      var rest := Highest(metrics, keys[1..]);
      if keys[0] in metrics && metrics[keys[0]] > rest then metrics[keys[0]] else rest
  }

  // The most generous limits for given metrics: "mi(nimum)" keys at zero, "ma(ximum)" keys at the top.
  function LoosestLimits(metrics: map<string, real>): Limits {
    var high := Highest(metrics, METRICS);
    map key | key in KeysOf(THRESHOLDS) :: Some(if |key| > 1 && key[1] == 'i' then 0.0 else high)
  }

  function LoosestApproval(c: Record): Approval {
    Approval(APPROVAL_SCHEMA, c.candidateSha, Some("approver"), Some("now"), map key | key in PRIVACY :: IsTrue,
      Baseline(c.body.metrics, LoosestLimits(c.body.metrics), map key | key in KeysOf(TOLERANCES) :: Some(0.0)), {})
  }

  ghost predicate Passable(c: Record) {
    && c.body.schema == RECORD_SCHEMA && CandidateHashOk(c) && Truthy(c.body.gatingEligible)
    && c.body.anchors.Some? && PublicSafe(c)
    && forall b :: b in THRESHOLDS ==> b.metric in c.body.metrics && (b.lower ==> c.body.metrics[b.metric] >= 0.0)
  }

  lemma MinimumKeys(b: Bound)
    requires b in THRESHOLDS
    ensures b.key in KeysOf(THRESHOLDS) && |b.key| > 1 && (b.lower <==> b.key[1] == 'i')
  {
    var k :| 0 <= k < |THRESHOLDS| && THRESHOLDS[k] == b;
    assert |THRESHOLDS[k].key| > 1 && (THRESHOLDS[k].lower <==> THRESHOLDS[k].key[1] == 'i');
  }

  lemma LoosestLimitsAreMet(metrics: map<string, real>)
    requires forall b :: b in THRESHOLDS ==> b.metric in metrics && (b.lower ==> metrics[b.metric] >= 0.0)
    ensures ThresholdIssues(metrics, LoosestLimits(metrics)) == Ok([])
  {
    hide THRESHOLDS, METRICS, ThresholdList, Highest;
    var limits := LoosestLimits(metrics);
    forall b | b in THRESHOLDS
      ensures b.key in limits && limits[b.key].Some? && limits[b.key].value >= 0.0 && Meets(metrics, limits, b) {
      MinimumKeys(b);
      ThresholdsAreListed(b);
    }
    NoThresholdIssue(metrics, limits, THRESHOLDS);
  }

  /** Some approval lets a candidate pass exactly when it is sealed, eligible, complete, has its
      anchors and no forbidden key, with no agreement metric below zero: since limits are not
      negative, a negative kappa never passes. */
  lemma CanPassIff(c: Record)
    ensures (exists a, r :: PassedBy(c, a, r)) <==> Passable(c)
  {
    hide THRESHOLDS, METRICS, PRIVACY, TOLERANCES, SENSITIVE, ThresholdList, LoosestLimits;
    if a, r :| PassedBy(c, a, r) { PassedIsPassable(c, a, r); }
    if Passable(c) {
      var a := LoosestApproval(c);
      LoosestLimitsAreMet(c.body.metrics);
      assert PassedBy(c, a, Sealed(c, a, []));
    }
  }

  // A sealed candidate with every metric at zero but a given kappa.
  function SampleCandidate(eligible: Truth, kappa: real): Record {
    var metrics := map key | key in METRICS :: if key == "qwk" then kappa else 0.0;
    var body := Body(RECORD_SCHEMA, "candidate", eligible, IsFalse, [], metrics, map[], Some(IsFalse), [], None,
      "", {});
    Record(body, Some(Digest(body, None, None)), None)
  }

  lemma SamplePasses(eligible: Truth, kappa: real) returns (a: Approval, r: Record)
    requires Truthy(eligible) && kappa >= 0.0
    ensures PassedBy(SampleCandidate(eligible, kappa), a, r)
  {
    hide THRESHOLDS, METRICS, PRIVACY, TOLERANCES, SENSITIVE, FinalizeGate;
    var c := SampleCandidate(eligible, kappa);
    forall b | b in THRESHOLDS ensures b.metric in c.body.metrics { ThresholdsAreListed(b); }
    CanPassIff(c);
    a, r :| PassedBy(c, a, r);
  }

  /** A truthy eligibility that is not the value true passes the gate and then fails the comparison
      of the candidate with its own record. */
  lemma TruthyPassesAndIsRefused() returns (c: Record, a: Approval, r: Record)
    ensures c.body.gatingEligible.OtherTruthy? && PassedBy(c, a, r)
    ensures CandidateRegressionIssues(c, r).Ok? && CandidateRegressionIssues(c, r).value != []
  {
    hide METRICS, FinalizeGate, CandidateRegressionIssues;
    c := SampleCandidate(OtherTruthy, 0.5);
    a, r := SamplePasses(OtherTruthy, 0.5);
    SelfConsistent(c, a, r);
  }

  /** A candidate that passes, and one that differs from it in a blocked rate of 1 only, which passes
      after it without a regression. */
  lemma BlockedRateRises() returns (c: Record, a: Approval, r: Record, d: Record, e: Approval, s: Record)
    ensures PassedBy(c, a, r) && PassedBy(d, e, s) && CandidateRegressionIssues(d, r) == Ok([])
    ensures d == WithBlockedRate(c, 1.0)
    ensures "blocked_rate" in r.body.metrics && r.body.metrics["blocked_rate"] == 0.0
    ensures "blocked_rate" in s.body.metrics && s.body.metrics["blocked_rate"] == 1.0
  {
    hide THRESHOLDS, METRICS, FinalizeGate, CandidateRegressionIssues, SampleCandidate;
    c := SampleCandidate(IsTrue, 0.5);
    a, r := SamplePasses(IsTrue, 0.5);
    SampleFacts(IsTrue, 0.5);
    PassedFacts(c, a, r);
    BlockedRateMayRise(c, a, r, 1.0);
    d, e := WithBlockedRate(c, 1.0), ApprovingRate(c, a, 1.0);
    s := FinalizeGate(d, e).value;
  }

  lemma SampleFacts(eligible: Truth, kappa: real)
    ensures var c := SampleCandidate(eligible, kappa);
      && c.body.gatingEligible == eligible
      && "qwk" in c.body.metrics && c.body.metrics["qwk"] == kappa
      && "blocked_rate" in c.body.metrics && c.body.metrics["blocked_rate"] == 0.0
  {
    assert METRICS[0] == "qwk" && METRICS[6] == "blocked_rate";
    assert "blocked_rate"[0] == 'b' && "qwk"[0] == 'q';
  }

  /** A kappa of -1, which two opposite raters get, fails every gate, in a candidate that a better
      kappa would let pass. */
  lemma NegativeKappaNeverPasses()
    ensures var c := SampleCandidate(IsTrue, -1.0);
      && c.body.metrics["qwk"] == -1.0 && CandidateHashOk(c) && c.body.gatingEligible.IsTrue?
      && (forall a, r :: !PassedBy(c, a, r))
      && (exists a, r :: PassedBy(SampleCandidate(IsTrue, 0.0), a, r))
  {
    hide METRICS, THRESHOLDS, TOLERANCES, PRIVACY, SENSITIVE, FinalizeGate;
    var c := SampleCandidate(IsTrue, -1.0);
    SampleFacts(IsTrue, -1.0);
    KappaIsBounded();
    CanPassIff(c);
    var a, r := SamplePasses(IsTrue, 0.0);
  }

  lemma PassedIsPassable(c: Record, a: Approval, r: Record)
    requires PassedBy(c, a, r)
    ensures Passable(c)
  {
    hide THRESHOLDS, METRICS, PRIVACY, TOLERANCES, SENSITIVE, ThresholdList;
    PassedFacts(c, a, r);
    forall b | b in THRESHOLDS ensures b.metric in c.body.metrics && (b.lower ==> c.body.metrics[b.metric] >= 0.0) {
      PassedHasMetrics(c, a, r, b);
    }
  }

  // ----- the verdicts, metric by metric

  ghost predicate AtLeastLimit(metrics: map<string, real>, metric: string, limits: Limits, key: string) {
    metric in metrics && key in limits && limits[key].Some? && metrics[metric] >= limits[key].value
  }

  ghost predicate AtMostLimit(metrics: map<string, real>, metric: string, limits: Limits, key: string) {
    metric in metrics && key in limits && limits[key].Some? && metrics[metric] <= limits[key].value
  }

  ghost predicate EightLimitsMet(m: map<string, real>, limits: Limits) {
    && AtLeastLimit(m, "qwk", limits, "minimum_qwk")
    && AtMostLimit(m, "mae", limits, "maximum_mae")
    && AtMostLimit(m, "rmse", limits, "maximum_rmse")
    && AtLeastLimit(m, "exact_grade_agreement", limits, "minimum_exact_grade_agreement")
    && AtLeastLimit(m, "adjacent_grade_agreement", limits, "minimum_adjacent_grade_agreement")
    && AtMostLimit(m, "review_rate", limits, "maximum_review_rate")
    && AtMostLimit(m, "blocked_rate", limits, "maximum_blocked_rate")
    && AtMostLimit(m, "invalid_evidence_rate", limits, "maximum_invalid_evidence_rate")
  }

  // The eight limits, one by one.
  lemma EightBounds(b: Bound)
    ensures b in THRESHOLDS <==>
      || b == Bound("minimum_qwk", "qwk", true)
      || b == Bound("maximum_mae", "mae", false)
      || b == Bound("maximum_rmse", "rmse", false)
      || b == Bound("minimum_exact_grade_agreement", "exact_grade_agreement", true)
      || b == Bound("minimum_adjacent_grade_agreement", "adjacent_grade_agreement", true)
      || b == Bound("maximum_review_rate", "review_rate", false)
      || b == Bound("maximum_blocked_rate", "blocked_rate", false)
      || b == Bound("maximum_invalid_evidence_rate", "invalid_evidence_rate", false)
  {
    assert |THRESHOLDS| == 8;
    if b in THRESHOLDS {
      var k :| 0 <= k < 8 && THRESHOLDS[k] == b;
    }
    assert forall k :: 0 <= k < 8 ==> THRESHOLDS[k] in THRESHOLDS;
  }

  lemma SevenBounds(b: Bound)
    ensures b in TOLERANCES <==>
      || b == Bound("qwk_drop", "qwk", true)
      || b == Bound("mae_rise", "mae", false)
      || b == Bound("rmse_rise", "rmse", false)
      || b == Bound("exact_grade_agreement_drop", "exact_grade_agreement", true)
      || b == Bound("adjacent_grade_agreement_drop", "adjacent_grade_agreement", true)
      || b == Bound("review_rate_rise", "review_rate", false)
      || b == Bound("invalid_evidence_rate_rise", "invalid_evidence_rate", false)
  {
    assert |TOLERANCES| == 7;
    if b in TOLERANCES {
      var k :| 0 <= k < 7 && TOLERANCES[k] == b;
    }
    assert forall k :: 0 <= k < 7 ==> TOLERANCES[k] in TOLERANCES;
  }

  ghost predicate MeetsOne(m: map<string, real>, limits: Limits, b: Bound) {
    if b.lower then AtLeastLimit(m, b.metric, limits, b.key) else AtMostLimit(m, b.metric, limits, b.key)
  }

  lemma MeetsAllIsEight(m: map<string, real>, limits: Limits)
    ensures MeetsAll(m, limits) <==> EightLimitsMet(m, limits)
  {
    hide THRESHOLDS;
    assert MeetsAll(m, limits) <==> forall b :: b in THRESHOLDS ==> MeetsOne(m, limits, b);
    hide MeetsAll;
    if EightLimitsMet(m, limits) {
      forall b | b in THRESHOLDS ensures MeetsOne(m, limits, b) { EightBounds(b); }
    }
    if forall b :: b in THRESHOLDS ==> MeetsOne(m, limits, b) { EachLimit(m, limits); }
  }

  lemma EachLimit(m: map<string, real>, limits: Limits)
    requires forall b :: b in THRESHOLDS ==> MeetsOne(m, limits, b)
    ensures EightLimitsMet(m, limits)
  {
    assert THRESHOLDS[0] in THRESHOLDS && THRESHOLDS[1] in THRESHOLDS && THRESHOLDS[2] in THRESHOLDS
      && THRESHOLDS[3] in THRESHOLDS && THRESHOLDS[4] in THRESHOLDS && THRESHOLDS[5] in THRESHOLDS
      && THRESHOLDS[6] in THRESHOLDS && THRESHOLDS[7] in THRESHOLDS;
    hide AtLeastLimit, AtMostLimit;
    assert MeetsOne(m, limits, THRESHOLDS[0]) && MeetsOne(m, limits, THRESHOLDS[1])
      && MeetsOne(m, limits, THRESHOLDS[2])
      && MeetsOne(m, limits, THRESHOLDS[3]) && MeetsOne(m, limits, THRESHOLDS[4]) && MeetsOne(m, limits, THRESHOLDS[5])
      && MeetsOne(m, limits, THRESHOLDS[6]) && MeetsOne(m, limits, THRESHOLDS[7]);
  }

  /** Passing, limit by limit: eligible, kappa and both agreements at or above their minimum, the two errors
      and the three rates at or below their maximum. */
  lemma PassedIffEightLimits(candidate: Record, approval: Approval, r: Record)
    requires FinalizeGate(candidate, approval) == Ok(r)
    ensures r.body.gatePassed.IsTrue? <==>
      Truthy(candidate.body.gatingEligible) && EightLimitsMet(candidate.body.metrics, approval.baseline.thresholds)
  {
    hide FinalizeGate, MeetsAll, EightLimitsMet;
    PassedIff(candidate, approval, r);
    MeetsAllIsEight(candidate.body.metrics, approval.baseline.thresholds);
  }

  // ----- what a record says that does not pass

  // A metric that is absent, or on the wrong side of its limit.
  ghost predicate LimitIssue(m: map<string, real>, limits: Limits, b: Bound, issue: Issue) {
    || (issue == MetricMissing(b.metric) && b.metric !in m)
    || (b.metric in m && b.key in limits && limits[b.key].Some?
        && if b.lower then issue == BelowMinimum(b.metric) && m[b.metric] < limits[b.key].value
           else issue == AboveMaximum(b.metric) && m[b.metric] > limits[b.key].value)
  }

  lemma {:induction false} ListedIssues(m: map<string, real>, limits: Limits, bounds: seq<Bound>, issue: Issue)
    ensures issue in ThresholdList(m, limits, bounds) <==> exists b :: b in bounds && LimitIssue(m, limits, b, issue)
  {
    if bounds != [] {
      ListedIssues(m, limits, bounds[1..], issue);
      assert issue in ThresholdIssue(m, limits, bounds[0]) <==> LimitIssue(m, limits, bounds[0], issue);
      assert bounds == [bounds[0]] + bounds[1..];
      hide ThresholdIssue, LimitIssue;
    }
  }

  lemma {:induction false} UniqueMembers(s: seq<Issue>)
    ensures forall x :: x in Unique(s) <==> x in s
    ensures forall i, j :: 0 <= i < j < |Unique(s)| ==> Unique(s)[i] != Unique(s)[j]
  {
    if s != [] {
      UniqueMembers(s[..|s| - 1]);
      assert s == s[..|s| - 1] + [s[|s| - 1]];
    }
  }

  /** The verdict and what else the gate writes: a record is ineligible exactly when all limits are met and it
      does not pass; it lists every unmet limit with its own kind of issue, once, after what the candidate
      listed, and nothing else; a passed one lists nothing.  All other fields are the candidate's. */
  lemma VerdictLists(candidate: Record, approval: Approval, r: Record)
    requires FinalizeGate(candidate, approval) == Ok(r)
    ensures var limits, m := approval.baseline.thresholds, candidate.body.metrics;
      var met := EightLimitsMet(m, limits);
      && r.body.status
           == (if r.body.gatePassed.IsTrue? then "passed" else if met then "ineligible" else "failed_thresholds")
      && (r.body.gatePassed.IsTrue? ==> r.body.missing == [])
      && (!r.body.gatePassed.IsTrue? ==>
            && r.body.gatePassed.IsFalse?
            && (forall i, j :: 0 <= i < j < |r.body.missing| ==> r.body.missing[i] != r.body.missing[j])
            && forall issue :: issue in r.body.missing <==>
                 issue in candidate.body.missing || exists b :: b in THRESHOLDS && LimitIssue(m, limits, b, issue))
    ensures r.body == candidate.body.(
      status := r.body.status, gatePassed := r.body.gatePassed, missing := r.body.missing, pending := [],
      anchors := Some(IsTrue), approval := r.body.approval, keys := candidate.body.keys + approval.keys)
    ensures r.body.approval.Some?
      && approval.approvedBy == Some(r.body.approval.value.approvedBy)
      && approval.approvedAt == Some(r.body.approval.value.approvedAt)
      && r.body.approval.value.privacy == approval.privacy && r.body.approval.value.baseline == approval.baseline
    ensures r.candidateSha == candidate.candidateSha && r.finalSha == Some(FinalDigest(r))
  {
    hide THRESHOLDS, METRICS, TOLERANCES, PRIVACY, SENSITIVE, ThresholdList, EightLimitsMet, Unique, LimitIssue,
      PrivacyOk;
    var m, limits := candidate.body.metrics, approval.baseline.thresholds;
    var issues := ThresholdList(m, limits, THRESHOLDS);
    assert LimitsOk(limits, THRESHOLDS) && r == Sealed(candidate, approval, issues);
    NoThresholdIssue(m, limits, THRESHOLDS);
    MeetsAllIsEight(m, limits);
    UniqueMembers(candidate.body.missing + issues);
    forall issue ensures issue in issues <==> exists b :: b in THRESHOLDS && LimitIssue(m, limits, b, issue) {
      ListedIssues(m, limits, THRESHOLDS, issue);
    }
    StatusWords();
  }

  // ----- the comparison, metric by metric

  ghost predicate NotBelow(m: map<string, real>, base: Baseline, metric: string, key: string) {
    && metric in m && metric in base.metrics && key in base.tolerances && base.tolerances[key].Some?
    && m[metric] >= base.metrics[metric] - base.tolerances[key].value
  }

  ghost predicate NotAbove(m: map<string, real>, base: Baseline, metric: string, key: string) {
    && metric in m && metric in base.metrics && key in base.tolerances && base.tolerances[key].Some?
    && m[metric] <= base.metrics[metric] + base.tolerances[key].value
  }

  ghost predicate SevenWithin(m: map<string, real>, base: Baseline) {
    && NotBelow(m, base, "qwk", "qwk_drop")
    && NotAbove(m, base, "mae", "mae_rise")
    && NotAbove(m, base, "rmse", "rmse_rise")
    && NotBelow(m, base, "exact_grade_agreement", "exact_grade_agreement_drop")
    && NotBelow(m, base, "adjacent_grade_agreement", "adjacent_grade_agreement_drop")
    && NotAbove(m, base, "review_rate", "review_rate_rise")
    && NotAbove(m, base, "invalid_evidence_rate", "invalid_evidence_rate_rise")
  }

  ghost predicate WithinOne(m: map<string, real>, base: Baseline, b: Bound) {
    if b.lower then NotBelow(m, base, b.metric, b.key) else NotAbove(m, base, b.metric, b.key)
  }

  lemma WithinAllIsSeven(m: map<string, real>, base: Baseline)
    ensures (forall b :: b in TOLERANCES ==> WithinOne(m, base, b)) <==> SevenWithin(m, base)
  {
    hide TOLERANCES;
    if SevenWithin(m, base) {
      forall b | b in TOLERANCES ensures WithinOne(m, base, b) { SevenBounds(b); }
    }
    if forall b :: b in TOLERANCES ==> WithinOne(m, base, b) { EachTolerance(m, base); }
  }

  lemma EachTolerance(m: map<string, real>, base: Baseline)
    requires forall b :: b in TOLERANCES ==> WithinOne(m, base, b)
    ensures SevenWithin(m, base)
  {
    assert TOLERANCES[0] in TOLERANCES && TOLERANCES[1] in TOLERANCES && TOLERANCES[2] in TOLERANCES
      && TOLERANCES[3] in TOLERANCES && TOLERANCES[4] in TOLERANCES && TOLERANCES[5] in TOLERANCES
      && TOLERANCES[6] in TOLERANCES;
    hide NotBelow, NotAbove;
    assert WithinOne(m, base, TOLERANCES[0]) && WithinOne(m, base, TOLERANCES[1]) && WithinOne(m, base, TOLERANCES[2])
      && WithinOne(m, base, TOLERANCES[3]) && WithinOne(m, base, TOLERANCES[4]) && WithinOne(m, base, TOLERANCES[5])
      && WithinOne(m, base, TOLERANCES[6]);
  }

  ghost predicate TenIdentitiesKept(a: map<string, string>, b: map<string, string>) {
    && SameIdentity(a, b, "profile_key")
    && SameIdentity(a, b, "dataset.dataset_id") && SameIdentity(a, b, "dataset.dataset_version")
    && SameIdentity(a, b, "dataset.sample_count") && SameIdentity(a, b, "dataset.dataset_manifest_sha256")
    && SameIdentity(a, b, "dataset.paper_manifest_sha256") && SameIdentity(a, b, "dataset.truth_sha256")
    && SameIdentity(a, b, "rubric.version_hash") && SameIdentity(a, b, "rubric.snapshot_sha256")
    && SameIdentity(a, b, "anchors.manifest_sha256")
  }

  lemma AllPathsAreTen(a: map<string, string>, b: map<string, string>)
    ensures (forall path :: path in IDENTITY_PATHS ==> SameIdentity(a, b, path)) <==> TenIdentitiesKept(a, b)
  {
    hide SameIdentity;
    assert |IDENTITY_PATHS| == 10;
    if forall path :: path in IDENTITY_PATHS ==> SameIdentity(a, b, path) {
      assert forall k :: 0 <= k < 10 ==> SameIdentity(a, b, IDENTITY_PATHS[k]);
      assert SameIdentity(a, b, IDENTITY_PATHS[0]) && SameIdentity(a, b, IDENTITY_PATHS[1])
        && SameIdentity(a, b, IDENTITY_PATHS[2]) && SameIdentity(a, b, IDENTITY_PATHS[3])
        && SameIdentity(a, b, IDENTITY_PATHS[4]) && SameIdentity(a, b, IDENTITY_PATHS[5])
        && SameIdentity(a, b, IDENTITY_PATHS[6]) && SameIdentity(a, b, IDENTITY_PATHS[7])
        && SameIdentity(a, b, IDENTITY_PATHS[8]) && SameIdentity(a, b, IDENTITY_PATHS[9]);
    }
    if TenIdentitiesKept(a, b) {
      forall path | path in IDENTITY_PATHS ensures SameIdentity(a, b, path) {
        var k :| 0 <= k < 10 && IDENTITY_PATHS[k] == path;
      }
    }
  }

  /** When a new candidate shows no regression against a passed record: its hash is valid, its eligibility the
      value true, the seven compared metrics are within tolerance of the record's baseline and the ten
      identities are those of the record's candidate. */
  lemma RegressionFreeIff(c: Record, a: Approval, r: Record, d: Record)
    requires PassedBy(c, a, r)
    ensures CandidateRegressionIssues(d, r) == Ok([]) <==>
      && CandidateHashOk(d) && d.body.gatingEligible.IsTrue?
      && SevenWithin(d.body.metrics, a.baseline) && TenIdentitiesKept(d.body.identity, c.body.identity)
  {
    hide FinalizeGate, TOLERANCES, THRESHOLDS, METRICS, IDENTITY_PATHS, ThresholdList, Unique, SENSITIVE;
    hide SevenWithin, TenIdentitiesKept;
    PassedFacts(c, a, r);
    WithinAllIsSeven(d.body.metrics, a.baseline);
    AllPathsAreTen(d.body.identity, c.body.identity);
    forall b | b in TOLERANCES
      ensures b.key in a.baseline.tolerances && a.baseline.tolerances[b.key].Some?
      ensures WithinTolerance(d.body.metrics, a.baseline, b) <==> WithinOne(d.body.metrics, a.baseline, b) {
      PassedBaseline(c, a, r, b);
    }
    NoRegression(d.body.metrics, a.baseline, TOLERANCES);
    NoIdentityIssue(d.body.identity, c.body.identity, IDENTITY_PATHS);
    var eligible := if d.body.gatingEligible.IsTrue? then [] else [NotEligible];
    UniqueEmpty(eligible + IdentityIssues(d.body.identity, c.body.identity, IDENTITY_PATHS)
      + RegressionList(d.body.metrics, a.baseline, TOLERANCES));
  }

  lemma {:induction false} ListedRegressions(m: map<string, real>, base: Baseline, bounds: seq<Bound>, issue: Issue)
    ensures issue in RegressionList(m, base, bounds) <==> exists b :: b in bounds && RegressionAt(m, base, b, issue)
  {
    if bounds != [] {
      ListedRegressions(m, base, bounds[1..], issue);
      assert issue in RegressionIssue(m, base, bounds[0]) <==> RegressionAt(m, base, bounds[0], issue);
      assert bounds == [bounds[0]] + bounds[1..];
      hide RegressionIssue, RegressionAt;
    }
  }

  // The metric or its tolerance is missing, or the metric is beyond its tolerance.
  ghost predicate RegressionAt(m: map<string, real>, base: Baseline, b: Bound, issue: Issue) {
    var complete := b.metric in m && b.metric in base.metrics && b.key in base.tolerances
      && base.tolerances[b.key].Some?;
    if !complete then issue == IncompleteFor(b.metric)
    else
      && issue == Regressed(b.metric)
      && if b.lower then m[b.metric] < base.metrics[b.metric] - base.tolerances[b.key].value
         else m[b.metric] > base.metrics[b.metric] + base.tolerances[b.key].value
  }

  lemma {:induction false} ListedIdentities(a: map<string, string>, b: map<string, string>, paths: seq<string>,
                                           issue: Issue)
    ensures issue in IdentityIssues(a, b, paths) <==>
      exists path :: path in paths && !SameIdentity(a, b, path) && issue == IdentityChanged(path)
  {
    if paths != [] {
      ListedIdentities(a, b, paths[1..], issue);
      assert paths == [paths[0]] + paths[1..];
      hide SameIdentity;
    }
  }

  // Both hashes are valid, and the record passed and carries its tolerances.
  ghost predicate Compared(d: Record, r: Record) {
    && CandidateHashOk(d) && FinalHashOk(r) && r.body.gatePassed.IsTrue?
    && r.body.approval.Some? && LimitsOk(r.body.approval.value.baseline.tolerances, TOLERANCES)
  }

  /** What the comparison answers: an error for a wrong hash of the candidate, then of the record; against a
      record that did not pass, that and a missing eligibility; else every changed identity, every incomplete
      and every regressed metric, each once, and nothing more. */
  lemma ComparisonLists(d: Record, r: Record)
    ensures var result := CandidateRegressionIssues(d, r);
      && (!CandidateHashOk(d) ==> result == Err(CandidateHashMismatch))
      && (CandidateHashOk(d) && !FinalHashOk(r) ==> result == Err(FinalHashMismatch))
      && (CandidateHashOk(d) && FinalHashOk(r) && !r.body.gatePassed.IsTrue? ==>
            result == Ok((if d.body.gatingEligible.IsTrue? then [] else [NotEligible]) + [NotPassed]))
    ensures Compared(d, r) ==>
        var base, result := r.body.approval.value.baseline, CandidateRegressionIssues(d, r);
        && result.Ok?
        && (forall i, j :: 0 <= i < j < |result.value| ==> result.value[i] != result.value[j])
        && forall issue :: issue in result.value <==>
             || (issue == NotEligible && !d.body.gatingEligible.IsTrue?)
             || (exists path :: path in IDENTITY_PATHS && !SameIdentity(d.body.identity, r.body.identity, path)
                                && issue == IdentityChanged(path))
             || (exists b :: b in TOLERANCES && RegressionAt(d.body.metrics, base, b, issue))
  {
    hide TOLERANCES, IDENTITY_PATHS, Unique, LimitsOk, SameIdentity, RegressionAt, CandidateHashOk, FinalHashOk;
    if r.body.approval.Some? {
      var base := r.body.approval.value.baseline;
      var eligible := if d.body.gatingEligible.IsTrue? then [] else [NotEligible];
      var identities := IdentityIssues(d.body.identity, r.body.identity, IDENTITY_PATHS);
      var regressions := RegressionList(d.body.metrics, base, TOLERANCES);
      UniqueMembers(eligible + identities + regressions);
      forall issue ensures issue in identities <==>
        exists path :: path in IDENTITY_PATHS && !SameIdentity(d.body.identity, r.body.identity, path)
                       && issue == IdentityChanged(path) {
        ListedIdentities(d.body.identity, r.body.identity, IDENTITY_PATHS, issue);
      }
      forall issue ensures issue in regressions <==>
        exists b :: b in TOLERANCES && RegressionAt(d.body.metrics, base, b, issue) {
        ListedRegressions(d.body.metrics, base, TOLERANCES, issue);
      }
      hide RegressionList, IdentityIssues;
    }
  }

  // ----- when a candidate is finalised at all

  ghost predicate NonNegativeLimits(limits: Limits, keys: set<string>) {
    limits.Keys == keys && forall key :: key in keys ==> limits[key].Some? && limits[key].value >= 0.0
  }

  /** A candidate is finalised exactly under the right schemas, its own valid hash, which the approval names,
      an approver and a date, the four privacy confirmations, its own eight metrics as the baseline, the eight
      limits and seven tolerances as non-negative numbers and no others, an anchors object, and no forbidden
      key. */
  lemma FinalisedIff(c: Record, a: Approval)
    ensures FinalizeGate(c, a).Ok? <==>
      && c.body.schema == "paper-grading/evaluation-gate@1" && a.schema == "paper-grading/evaluation-gate-approval@1"
      && CandidateHashOk(c) && a.candidateSha == c.candidateSha
      && a.approvedBy.Some? && a.approvedAt.Some?
      && Confirmed(a.privacy, "dataset_deidentified") && Confirmed(a.privacy, "repository_scan_passed")
      && Confirmed(a.privacy, "anchors_exclude_holdout") && Confirmed(a.privacy, "teacher_truth_external_only")
      && SameMetric(a.baseline.metrics, c.body.metrics, "qwk")
      && SameMetric(a.baseline.metrics, c.body.metrics, "mae")
      && SameMetric(a.baseline.metrics, c.body.metrics, "rmse")
      && SameMetric(a.baseline.metrics, c.body.metrics, "exact_grade_agreement")
      && SameMetric(a.baseline.metrics, c.body.metrics, "adjacent_grade_agreement")
      && SameMetric(a.baseline.metrics, c.body.metrics, "review_rate")
      && SameMetric(a.baseline.metrics, c.body.metrics, "blocked_rate")
      && SameMetric(a.baseline.metrics, c.body.metrics, "invalid_evidence_rate")
      && NonNegativeLimits(a.baseline.thresholds, EightLimitKeys())
      && NonNegativeLimits(a.baseline.tolerances, SevenToleranceKeys())
      && c.body.anchors.Some? && (c.body.keys + a.keys) !! SENSITIVE
  {
    hide THRESHOLDS, TOLERANCES, METRICS, PRIVACY, SENSITIVE, LimitsOk, NonNegativeLimits, SameMetric, Confirmed;
    hide CandidateHashOk, ThresholdList, Unique, PrivacyOk;
    FourConfirmations(a.privacy);
    EightMetrics(a.baseline.metrics, c.body.metrics);
    EightKeys(a.baseline.thresholds);
    SevenKeys(a.baseline.tolerances);
  }

  lemma FourConfirmations(privacy: map<string, Truth>)
    ensures PrivacyOk(privacy) <==>
      && Confirmed(privacy, "dataset_deidentified") && Confirmed(privacy, "repository_scan_passed")
      && Confirmed(privacy, "anchors_exclude_holdout") && Confirmed(privacy, "teacher_truth_external_only")
  {
    hide Confirmed;
    assert PRIVACY[0] in PRIVACY && PRIVACY[1] in PRIVACY && PRIVACY[2] in PRIVACY && PRIVACY[3] in PRIVACY;
    forall key | key in PRIVACY
      ensures key == PRIVACY[0] || key == PRIVACY[1] || key == PRIVACY[2] || key == PRIVACY[3] { }
  }

  lemma MetricNames(key: string)
    ensures key in METRICS <==>
      || key == "qwk" || key == "mae" || key == "rmse" || key == "exact_grade_agreement"
      || key == "adjacent_grade_agreement" || key == "review_rate" || key == "blocked_rate"
      || key == "invalid_evidence_rate"
  {
    assert |METRICS| == 8;
    if key in METRICS {
      var k :| 0 <= k < 8 && METRICS[k] == key;
    }
    assert forall k :: 0 <= k < 8 ==> METRICS[k] in METRICS;
  }

  lemma EightMetrics(a: map<string, real>, m: map<string, real>)
    ensures !(exists key | key in METRICS :: !SameMetric(a, m, key)) <==>
      && SameMetric(a, m, "qwk") && SameMetric(a, m, "mae") && SameMetric(a, m, "rmse")
      && SameMetric(a, m, "exact_grade_agreement") && SameMetric(a, m, "adjacent_grade_agreement")
      && SameMetric(a, m, "review_rate") && SameMetric(a, m, "blocked_rate")
      && SameMetric(a, m, "invalid_evidence_rate")
  {
    hide SameMetric, METRICS;
    forall key ensures key in METRICS <==>
      || key == "qwk" || key == "mae" || key == "rmse" || key == "exact_grade_agreement"
      || key == "adjacent_grade_agreement" || key == "review_rate" || key == "blocked_rate"
      || key == "invalid_evidence_rate" {
      MetricNames(key);
    }
  }

  lemma LimitsOkIff(limits: Limits, bounds: seq<Bound>, keys: set<string>)
    requires KeysOf(bounds) == keys
    ensures LimitsOk(limits, bounds) <==> NonNegativeLimits(limits, keys)
  {
    if NonNegativeLimits(limits, keys) {
      forall b | b in bounds ensures b.key in limits && limits[b.key].Some? && limits[b.key].value >= 0.0 {
        assert b.key in KeysOf(bounds);
      }
    }
    if LimitsOk(limits, bounds) {
      forall key | key in keys ensures limits[key].Some? && limits[key].value >= 0.0 {
        var b :| b in bounds && b.key == key;
      }
    }
  }

  ghost function EightLimitKeys(): set<string> {
    {"minimum_qwk", "maximum_mae", "maximum_rmse", "minimum_exact_grade_agreement",
     "minimum_adjacent_grade_agreement", "maximum_review_rate", "maximum_blocked_rate",
     "maximum_invalid_evidence_rate"}
  }

  ghost function SevenToleranceKeys(): set<string> {
    {"qwk_drop", "mae_rise", "rmse_rise", "exact_grade_agreement_drop", "adjacent_grade_agreement_drop",
     "review_rate_rise", "invalid_evidence_rate_rise"}
  }

  lemma EightKeys(limits: Limits)
    ensures LimitsOk(limits, THRESHOLDS) <==> NonNegativeLimits(limits, EightLimitKeys())
  {
    hide LimitsOk, NonNegativeLimits, THRESHOLDS;
    forall b | b in THRESHOLDS ensures b.key in EightLimitKeys() { EightBounds(b); }
    EightBounds(Bound("minimum_qwk", "qwk", true));
    EightBounds(Bound("maximum_mae", "mae", false));
    EightBounds(Bound("maximum_rmse", "rmse", false));
    EightBounds(Bound("minimum_exact_grade_agreement", "exact_grade_agreement", true));
    EightBounds(Bound("minimum_adjacent_grade_agreement", "adjacent_grade_agreement", true));
    EightBounds(Bound("maximum_review_rate", "review_rate", false));
    EightBounds(Bound("maximum_blocked_rate", "blocked_rate", false));
    EightBounds(Bound("maximum_invalid_evidence_rate", "invalid_evidence_rate", false));
    assert KeysOf(THRESHOLDS) == EightLimitKeys();
    LimitsOkIff(limits, THRESHOLDS, EightLimitKeys());
  }

  lemma SevenKeys(limits: Limits)
    ensures LimitsOk(limits, TOLERANCES) <==> NonNegativeLimits(limits, SevenToleranceKeys())
  {
    hide LimitsOk, NonNegativeLimits, TOLERANCES;
    forall b | b in TOLERANCES ensures b.key in SevenToleranceKeys() { SevenBounds(b); }
    SevenBounds(Bound("qwk_drop", "qwk", true));
    SevenBounds(Bound("mae_rise", "mae", false));
    SevenBounds(Bound("rmse_rise", "rmse", false));
    SevenBounds(Bound("exact_grade_agreement_drop", "exact_grade_agreement", true));
    SevenBounds(Bound("adjacent_grade_agreement_drop", "adjacent_grade_agreement", true));
    SevenBounds(Bound("review_rate_rise", "review_rate", false));
    SevenBounds(Bound("invalid_evidence_rate_rise", "invalid_evidence_rate", false));
    assert KeysOf(TOLERANCES) == SevenToleranceKeys();
    LimitsOkIff(limits, TOLERANCES, SevenToleranceKeys());
  }
}
