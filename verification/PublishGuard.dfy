/** `_protect_published_rubric_graph` of backend/app/db/models.py: the lifecycle guard of rubrics
    with provenance, as it decides about one flush. */
module PublishGuard {
  import opened Wrappers
  import opened RubricGraph

  // ----- which rubric an entity belongs to

  // Depth below the rubric; a parent is always less deep.
  function Depth(row: Row): nat {
    match row
    case Rubric(_, _, _, _, _) => 0
    case Criterion(_, _) => 1
    case Compilation(_, _, _, _, _, _, _, _, _) => 1
    case Version(_, _, _, _, _, _, _, _) => 1
    case Artifact(_, _) => 2
    case Rule(_, _, _) => 2
    case SourceRule(_, _) => 3
    case TemplateItem(_, _) => 3
    case Level(_, _) => 3
    case Link(_, _, _) => 3
    case Batch(_, _, _) => 4
    case User(_) => 4
  }

  function Parent(row: Row): Option<Id> {
    match row
    case Criterion(r, _) => Some(r)
    case Compilation(r, _, _, _, _, _, _, _, _) => Some(r)
    case Version(r, _, _, _, _, _, _, _) => Some(r)
    case Artifact(c, _) => Some(c)
    case Rule(v, _, _) => Some(v)
    case SourceRule(a, _) => Some(a)
    case TemplateItem(a, _) => Some(a)
    case Level(r, _) => Some(r)
    case Link(r, _, _) => Some(r)
    case _ => None
  }

  // The parent column refers to a row of the right table.
  predicate ParentFits(row: Row, parent: Row) {
    match row
    case Criterion(_, _) => parent.Rubric?
    case Compilation(_, _, _, _, _, _, _, _, _) => parent.Rubric?
    case Version(_, _, _, _, _, _, _, _) => parent.Rubric?
    case Artifact(_, _) => parent.Compilation?
    case Rule(_, _, _) => parent.Version?
    case SourceRule(_, _) => parent.Artifact?
    case TemplateItem(_, _) => parent.Artifact?
    case Level(_, _) => parent.Rule?
    case Link(_, _, _) => parent.Rule?
    case _ => false
  }

  predicate IsContent(row: Row) { !row.Batch? && !row.User? }

  // `_p103_current_rubric_id`: through the objects of the session; a version states its rubric itself.
  function CurrentRubricId(g: Graph, x: Id): Option<Id>
    decreases if x in g.rows then Depth(g.rows[x]) else 0
  {
    if x !in g.rows then None
    else
      var row := g.rows[x];
      if row.Rubric? then Some(x)
      else if row.Version? then Some(row.rubric)
      else
        match Parent(row)
        case None => None
        case Some(y) => if y in g.rows && ParentFits(row, g.rows[y]) then CurrentRubricId(g, y) else None
  }

  // `_p103_database_rubric_id`: by joins over the stored rows.
  function DatabaseRubricId(db: Graph, x: Id): Option<Id>
    decreases if x in db.rows then Depth(db.rows[x]) else 0
  {
    if x !in db.rows then None
    else
      var row := db.rows[x];
      if row.Rubric? then Some(x)
      else if row.Criterion? || row.Compilation? || row.Version? then Parent(row)
      else
        match Parent(row)
        case None => None
        case Some(y) => if y in db.rows && ParentFits(row, db.rows[y]) then DatabaseRubricId(db, y) else None
  }

  // `_p103_rubric_ids`
  function RubricIds(db: Graph, f: Flush, x: Id): set<Id> {
    var current, stored := CurrentRubricId(f.pending, x), DatabaseRubricId(db, x);
    (if current.Some? then {current.value} else {}) + (if stored.Some? then {stored.value} else {})
  }

  // ----- provenance and status

  predicate StoredProvenance(db: Graph, r: Id) {
    exists c | c in db.rows.Keys :: db.rows[c].Compilation? && db.rows[c].rubric == r
  }

  predicate NewProvenance(db: Graph, f: Flush, r: Id) {
    exists c | c in New(db, f) && c !in f.deleted ::
      IsCompilation(f.pending, c) && CurrentRubricId(f.pending, c) == Some(r)
  }

  // `_p103_has_provenance`: new compilations of the session, or stored ones.
  predicate HasProvenance(db: Graph, f: Flush, r: Id) {
    NewProvenance(db, f, r) || StoredProvenance(db, r)
  }

  function DbStatus(db: Graph, r: Id): Option<string> {
    if IsRubric(db, r) then Some(db.rows[r].status) else None
  }

  function Transition(op: Option<Operation>): Option<(string, string)> {
    match op
    case Some(SubmitForReview) => Some(("draft", "review"))
    case Some(ReturnToDraft) => Some(("review", "draft"))
    case Some(Publish) => Some(("review", "published"))
    case _ => None
  }

  // `candidates`: new, dirty and deleted objects.
  function Candidates(db: Graph, f: Flush): set<Id> {
    New(db, f) + Dirty(db, f) + f.deleted
  }

  // `_p103_has_content_change`
  predicate ContentChange(db: Graph, f: Flush, x: Id) {
    x in New(db, f) || x in f.deleted || Changed(db, f, x) || x in f.related
  }

  // The row differs in no column but those the operation may write.
  predicate OnlyAllowedColumns(op: Option<Operation>, was: Row, now: Row) {
    match op
    case Some(Publish) =>
      || (was.Rubric? && now.Rubric? &&
            now == was.(status := now.status, rubricPublishedAt := now.rubricPublishedAt,
              publishedBy := now.publishedBy))
      || (was.Compilation? && now.Compilation? &&
            now == was.(reviewedBy := now.reviewedBy, reviewedAt := now.reviewedAt,
                        publishedAt := now.publishedAt, finalHash := now.finalHash))
      || (was.Version? && now.Version? && now == was.(hash := now.hash))
    case _ => was.Rubric? && now.Rubric? && now == was.(status := now.status)
  }

  // `_p103_validate_operation_change`
  predicate OperationChangeOk(db: Graph, f: Flush, x: Id) {
    && x in db.rows && x in f.pending.rows && x !in f.deleted
    && x !in f.related
    && OnlyAllowedColumns(f.operation, db.rows[x], f.pending.rows[x])
  }

  // ----- publish sign-off

  predicate SignoffColumnsChanged(db: Graph, f: Flush, c: Id)
    requires IsCompilation(f.pending, c)
  {
    var now := f.pending.rows[c];
    if IsCompilation(db, c) then
      var was := db.rows[c];
      was.reviewedBy != now.reviewedBy || was.reviewedAt != now.reviewedAt
      || was.publishedAt != now.publishedAt || was.finalHash != now.finalHash
    else now.reviewedBy.Some? || now.reviewedAt.Some? || now.publishedAt.Some? || now.finalHash.Some?
  }

  function SignedCompilations(db: Graph, f: Flush, r: Id): set<Id> {
    set c | c in Candidates(db, f) && IsCompilation(f.pending, c) && r in RubricIds(db, f, c)
      && SignoffColumnsChanged(db, f, c)
  }

  function VersionsOf(db: Graph, f: Flush, c: Id): set<Id> {
    (set v | v in db.rows && db.rows[v].Version? && db.rows[v].compilation == c)
    + (set v | v in New(db, f) && f.pending.rows[v].Version? && f.pending.rows[v].compilation == c)
  }

  // The fields of the one signed compilation and of its one version.
  predicate SignoffComplete(f: Flush, r: Id, c: Id, v: Id) {
    && IsRubric(f.pending, r) && IsCompilation(f.pending, c) && IsVersion(f.pending, v)
    && var rubric, compilation, version := f.pending.rows[r], f.pending.rows[c], f.pending.rows[v];
      && compilation.compileStatus == "validated"
      && compilation.reviewedBy.Some? && compilation.reviewedAt.Some? && compilation.publishedAt.Some?
      && compilation.finalHash.Some? && compilation.finalHash.value != ""
      && rubric.rubricPublishedAt.Some?
      && compilation.reviewedAt == rubric.rubricPublishedAt
      && compilation.publishedAt == rubric.rubricPublishedAt
      && compilation.reviewedAt.value >= compilation.createdAt
      && IsUser(f.pending, compilation.reviewedBy.value)
      && version.rubric == r
      && Some(version.hash) == compilation.finalHash
  }

  // `_p103_validate_publish_signoff`
  predicate SignoffOk(db: Graph, f: Flush, r: Id) {
    && |SignedCompilations(db, f, r)| == 1
    && exists c | c in SignedCompilations(db, f, r) ::
      && |VersionsOf(db, f, c)| == 1
      && exists v | v in VersionsOf(db, f, c) :: SignoffComplete(f, r, c, v)
  }

  // ----- atomic import of a published graph

  predicate LowerHexDigest(s: string) {
    |s| == 64 && forall i :: 0 <= i < |s| ==> s[i] in "0123456789abcdef"
  }

  // The code points that `str.strip` removes.
  predicate IsBlank(c: char) {
    var n := c as int;
    || 9 <= n <= 13 || 28 <= n <= 32 || n == 0x85 || n == 0xA0 || n == 0x1680 || 0x2000 <= n <= 0x200A
    || n == 0x2028 || n == 0x2029 || n == 0x202F || n == 0x205F || n == 0x3000
  }

  predicate NotBlank(s: string) {
    exists i :: 0 <= i < |s| && !IsBlank(s[i])
  }

  predicate KnownUser(f: Flush, user: Option<Id>) {
    user.Some? && IsUser(f.pending, user.value)
  }

  function ImportedCompilations(db: Graph, f: Flush, r: Id): set<Id> {
    set c | c in New(db, f) && f.pending.rows[c].Compilation? && CurrentRubricId(f.pending, c) == Some(r)
  }

  function ImportedVersions(db: Graph, f: Flush, c: Id): set<Id> {
    set v | v in New(db, f) && f.pending.rows[v].Version? && f.pending.rows[v].compilation == c
  }

  predicate ImportComplete(f: Flush, r: Id, c: Id, v: Id) {
    && IsRubric(f.pending, r) && IsCompilation(f.pending, c) && IsVersion(f.pending, v)
    && var rubric, compilation, version := f.pending.rows[r], f.pending.rows[c], f.pending.rows[v];
      && rubric.status == "published"
      && rubric.rubricPublishedAt.Some? && KnownUser(f, rubric.createdBy)
      && compilation.rubric == r && compilation.compileStatus == "validated"
      && KnownUser(f, compilation.createdBy) && KnownUser(f, compilation.reviewedBy)
      && compilation.reviewedAt.Some? && compilation.publishedAt.Some?
      && compilation.reviewedAt == rubric.rubricPublishedAt
      && compilation.publishedAt == rubric.rubricPublishedAt
      && compilation.finalHash.Some? && LowerHexDigest(compilation.finalHash.value)
      && version.rubric == r && version.compilation == c && Some(version.hash) == compilation.finalHash
      && NotBlank(version.workflow) && NotBlank(version.profile)
      && (version.scheme == "rubric-content-v1" || version.scheme == "rubric-content-v2")
      && (version.scheme == "rubric-content-v1" ==> version.profile == "thesis")
      && KnownUser(f, version.createdBy)
  }

  // Batches of the flush that mention the rubric or the version must name both.
  predicate PinnedBatchesOk(db: Graph, f: Flush, r: Id, v: Id) {
    var pinned := set b | b in New(db, f) && f.pending.rows[b].Batch?
      && (f.pending.rows[b].batchRubric == Some(r) || f.pending.rows[b].batchVersion == Some(v));
    && pinned != {}
    && forall b | b in pinned ::
      f.pending.rows[b].batchRubric == Some(r) && f.pending.rows[b].batchVersion == Some(v)
  }

  // `_p103_validate_atomic_published_import`
  predicate ImportOk(db: Graph, f: Flush, r: Id) {
    && |ImportedCompilations(db, f, r)| == 1
    && (exists c | c in ImportedCompilations(db, f, r) ::
          && |ImportedVersions(db, f, c)| == 1
          && exists v | v in ImportedVersions(db, f, c) :: ImportComplete(f, r, c, v) && PinnedBatchesOk(db, f, r, v))
    && (forall y | y in Candidates(db, f) && y in f.pending.rows && IsContent(f.pending.rows[y])
         && r in RubricIds(db, f, y) ::
          y in New(db, f) && y !in f.deleted)
  }

  // ----- the listener

  // First loop: a rubric candidate.
  predicate StatusOk(db: Graph, f: Flush, r: Id) {
    IsRubric(f.pending, r) && HasProvenance(db, f, r) ==>
      var status := f.pending.rows[r].status;
      && (status == "draft" || status == "review" || status == "published")
      && if r in New(db, f) then
           if status == "published" then ImportOk(db, f, r) else status == "draft"
         else
           DbStatus(db, r) == Some(status)
           || (IsRubric(db, r) && Transition(f.operation) == Some((db.rows[r].status, status)))
  }

  predicate Transits(db: Graph, f: Flush, r: Id) {
    IsRubric(f.pending, r) && HasProvenance(db, f, r) && r !in New(db, f)
    && DbStatus(db, r) != Some(f.pending.rows[r].status)
  }

  // `transitions`
  function Transitioning(db: Graph, f: Flush): set<Id> {
    set r | r in Candidates(db, f) && Transits(db, f, r)
  }

  // Second loop: a content candidate.
  predicate ContentOk(db: Graph, f: Flush, x: Id) {
    x in f.pending.rows && IsContent(f.pending.rows[x]) && ContentChange(db, f, x) ==>
      && (RubricIds(db, f, x) * Transitioning(db, f) != {} ==> OperationChangeOk(db, f, x))
      && forall r | r in RubricIds(db, f, x) :: !(HasProvenance(db, f, r) && DbStatus(db, r) == Some("published"))
  }

  ghost predicate GuardAccepts(db: Graph, f: Flush) {
    && (forall r :: r in Candidates(db, f) ==> StatusOk(db, f, r))
    && (forall x :: x in Candidates(db, f) ==> ContentOk(db, f, x))
    && (f.operation == Some(Publish) ==> forall r :: r in Transitioning(db, f) ==> SignoffOk(db, f, r))
  }

  // The listener: `transitions` is filled by the first loop and read by the others.
  method ProtectPublishedRubricGraph(db: Graph, f: Flush, candidates: seq<Id>) returns (accepted: bool)
    requires Session(db, f)
    requires forall x :: x in candidates <==> x in Candidates(db, f)
    ensures accepted <==> GuardAccepts(db, f)
  {
    hide *;
    var transitions: seq<Id> := [];
    for k := 0 to |candidates|
      invariant forall r :: r in candidates[..k] ==> StatusOk(db, f, r)
      invariant forall r :: r in transitions <==> r in candidates[..k] && Transits(db, f, r)
    {
      var candidate := candidates[k];
      assert candidates[..k + 1] == candidates[..k] + [candidate];
      if !StatusOk(db, f, candidate) {
        RefusedByStatus(db, f, candidates, k);
        return false;
      }
      if Transits(db, f, candidate) { transitions := transitions + [candidate]; }
    }
    TransitionsCollected(db, f, candidates, transitions);
    for k := 0 to |candidates|
      invariant forall x :: x in candidates[..k] ==> ContentOk(db, f, x)
    {
      assert candidates[..k + 1] == candidates[..k] + [candidates[k]];
      if !ContentOk(db, f, candidates[k]) {
        RefusedByContent(db, f, candidates, k);
        return false;
      }
    }
    if f.operation == Some(Publish) {
      for k := 0 to |transitions|
        invariant forall r :: r in transitions[..k] ==> SignoffOk(db, f, r)
      {
        assert transitions[..k + 1] == transitions[..k] + [transitions[k]];
        if !SignoffOk(db, f, transitions[k]) {
          RefusedBySignoff(db, f, transitions, k);
          return false;
        }
      }
    }
    AllPassed(db, f, candidates, transitions);
    return true;
  }

  lemma RefusedByStatus(db: Graph, f: Flush, candidates: seq<Id>, k: nat)
    requires k < |candidates| && (forall x :: x in candidates <==> x in Candidates(db, f))
    requires !StatusOk(db, f, candidates[k])
    ensures !GuardAccepts(db, f)
  {
    hide StatusOk, ContentOk, SignoffOk, Candidates;
    assert candidates[k] in candidates;
  }

  lemma RefusedByContent(db: Graph, f: Flush, candidates: seq<Id>, k: nat)
    requires k < |candidates| && (forall x :: x in candidates <==> x in Candidates(db, f))
    requires !ContentOk(db, f, candidates[k])
    ensures !GuardAccepts(db, f)
  {
    hide StatusOk, ContentOk, SignoffOk, Candidates;
    assert candidates[k] in candidates;
  }

  lemma RefusedBySignoff(db: Graph, f: Flush, transitions: seq<Id>, k: nat)
    requires k < |transitions| && (forall r :: r in transitions <==> r in Transitioning(db, f))
    requires f.operation == Some(Publish) && !SignoffOk(db, f, transitions[k])
    ensures !GuardAccepts(db, f)
  {
    hide StatusOk, ContentOk, SignoffOk, Transitioning;
    assert transitions[k] in transitions;
  }

  lemma TransitionsCollected(db: Graph, f: Flush, candidates: seq<Id>, transitions: seq<Id>)
    requires forall x :: x in candidates <==> x in Candidates(db, f)
    requires forall r :: r in transitions <==> r in candidates[..|candidates|] && Transits(db, f, r)
    ensures forall r :: r in transitions <==> r in Transitioning(db, f)
  {
    hide HasProvenance, Candidates;
    assert candidates[..|candidates|] == candidates;
  }

  lemma AllPassed(db: Graph, f: Flush, candidates: seq<Id>, transitions: seq<Id>)
    requires forall x :: x in candidates <==> x in Candidates(db, f)
    requires forall r :: r in transitions <==> r in Transitioning(db, f)
    requires forall x :: x in candidates[..|candidates|] ==> StatusOk(db, f, x) && ContentOk(db, f, x)
    requires f.operation == Some(Publish) ==> forall r :: r in transitions[..|transitions|] ==> SignoffOk(db, f, r)
    ensures GuardAccepts(db, f)
  {
    hide StatusOk, ContentOk, SignoffOk, Transitioning, Candidates;
    assert candidates[..|candidates|] == candidates && transitions[..|transitions|] == transitions;
  }
}
