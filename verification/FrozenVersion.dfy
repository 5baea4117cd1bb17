/** The readers of what the guards establish: `is_frozen_version` and `resolve_batch_version` of
    backend/app/api/actions.py.  What one flush does to them, publication and import included. */
module FrozenVersion {
  import opened Wrappers
  import opened Ordering
  import opened RubricGraph
  import opened LineageGuard
  import opened PublishGuard
  import opened PublishedGraph

  predicate IsFrozenVersion(g: Graph, r: Id, v: Id) {
    && IsRubric(g, r) && IsVersion(g, v)
    && var rubric, version := g.rows[r], g.rows[v];
      && rubric.status == "published" && rubric.rubricPublishedAt.Some?
      && version.rubric == r
      && IsCompilation(g, version.compilation)
      && var compilation := g.rows[version.compilation];
        && compilation.rubric == r && compilation.compileStatus == "validated"
        && compilation.reviewedBy.Some? && compilation.reviewedAt.Some? && compilation.publishedAt.Some?
        && compilation.reviewedAt == compilation.publishedAt
        && compilation.publishedAt == rubric.rubricPublishedAt
        && compilation.finalHash == Some(version.hash)
  }

  datatype ResolveError = NotFound | WrongRubric | NotFrozen | NoFrozenVersion | SeveralFrozenVersions

  function Frozen(g: Graph, r: Id): Id -> bool {
    (v: Id) => IsFrozenVersion(g, r, v)
  }

  // `formal` is what the query for the rubric's versions returns.
  function ResolveBatchVersion(g: Graph, r: Id, requested: Option<Id>, formal: seq<Id>)
    : Result<Option<Id>, ResolveError>
  {
    match requested
    case Some(v) =>
      if !IsVersion(g, v) then Err(NotFound)
      else if g.rows[v].rubric != r then Err(WrongRubric)
      else if !IsFrozenVersion(g, r, v) then Err(NotFrozen)
      else Ok(Some(v))
    case None =>
      if formal == [] then Ok(None)
      else
        var eligible := Collect(formal, Frozen(g, r), Itself);
        if |eligible| == 1 then Ok(Some(eligible[0]))
        else if eligible == [] then Err(NoFrozenVersion)
        else Err(SeveralFrozenVersions)
  }

  ghost predicate FormalVersions(g: Graph, r: Id, formal: seq<Id>) {
    && Distinct(formal)
    && forall v :: v in formal <==> IsVersion(g, v) && g.rows[v].rubric == r
  }

  // ----- published means frozen

  ghost predicate HasFrozenVersion(g: Graph, r: Id) {
    exists v :: IsFrozenVersion(g, r, v)
  }

  ghost predicate PublishedMeansFrozen(g: Graph) {
    forall r :: PublishedFormally(g, r) ==> HasFrozenVersion(g, r)
  }

  // The flush moves a stored compilation to a published rubric that has none, stored or new:
  // the provenance test does not see it.
  ghost predicate Adopts(db: Graph, f: Flush, r: Id) {
    && PublishedFormally(After(f), r)
    && !HasProvenance(db, f, r)
  }

  // A stored compilation of another rubric becomes one of r.
  predicate MovedTo(db: Graph, f: Flush, r: Id, c: Id) {
    && IsCompilation(db, c) && IsCompilation(After(f), c)
    && db.rows[c].rubric != r && After(f).rows[c].rubric == r
  }

  /** An adoption is exactly a re-parented stored compilation. */
  lemma AdoptionMovesCompilation(db: Graph, f: Flush, r: Id)
    requires Accepted(db, f)
    ensures Adopts(db, f, r) <==>
      && IsRubric(After(f), r) && After(f).rows[r].status == "published"
      && !HasProvenance(db, f, r)
      && exists c :: MovedTo(db, f, r, c)
  {
    if Adopts(db, f, r) {
      var c :| c in After(f).rows.Keys && After(f).rows[c].Compilation? && After(f).rows[c].rubric == r;
      SessionAgrees(f, c);
      CompilationInGraph(After(f), c, r);
      assert c in New(db, f) ==> NewProvenance(db, f, r);
      assert c in db.rows.Keys;
      assert MovedTo(db, f, r, c);
    }
    if c :| MovedTo(db, f, r, c) {
      assert c in After(f).rows.Keys;
    }
  }

  // A new published rubric: the import check covers all that the reader asks.
  lemma ImportFreezes(db: Graph, f: Flush, r: Id)
    requires Accepted(db, f) && PublishedFormally(After(f), r) && HasProvenance(db, f, r) && r in New(db, f)
    ensures HasFrozenVersion(After(f), r)
  {
    hide HasProvenance, RubricIds, CurrentRubricId, Constraints, Lineage, LineageAccepts, LowerHexDigest, NotBlank;
    assert r in Candidates(db, f);
    assert StatusOk(db, f, r);
    var c :| c in ImportedCompilations(db, f, r) && exists v | v in ImportedVersions(db, f, c) ::
      ImportComplete(f, r, c, v);
    var v :| v in ImportedVersions(db, f, c) && ImportComplete(f, r, c, v);
    ImportFields(f, r, c, v);
  }

  lemma ImportFields(f: Flush, r: Id, c: Id, v: Id)
    requires ImportComplete(f, r, c, v) && r !in f.deleted && c !in f.deleted && v !in f.deleted
    ensures IsFrozenVersion(After(f), r, v)
  {
  }

  lemma SignoffFields(f: Flush, r: Id, c: Id, v: Id)
    requires SignoffComplete(f, r, c, v)
    ensures IsVersion(f.pending, v) && f.pending.rows[v].rubric == r
    ensures IsRubric(After(f), r) && IsCompilation(After(f), c) && IsVersion(After(f), v)
      && After(f).rows[r].status == "published" && After(f).rows[c].rubric == r && After(f).rows[v].compilation == c
      ==> IsFrozenVersion(After(f), r, v)
  {
  }

  // A published rubric: its frozen version and that version's compilation are in its graph.
  lemma FrozenPersists(db: Graph, f: Flush, r: Id)
    requires Accepted(db, f) && PublishedFormally(db, r) && HasFrozenVersion(db, r)
    ensures HasFrozenVersion(After(f), r)
  {
    hide Accepted, InGraph, RubricIds, CurrentRubricId, StoredProvenance;
    var v :| IsFrozenVersion(db, r, v);
    var c := db.rows[v].compilation;
    FrozenInGraph(db, r, v);
    PublishedIsImmutable(db, f, r);
    assert After(f).rows[v] == db.rows[v] && After(f).rows[c] == db.rows[c] && After(f).rows[r] == db.rows[r];
    assert IsFrozenVersion(After(f), r, v);
  }

  lemma FrozenInGraph(db: Graph, r: Id, v: Id)
    requires IsFrozenVersion(db, r, v)
    ensures InGraph(db, v, r) && InGraph(db, r, r) && InGraph(db, db.rows[v].compilation, r)
  {
    var c := db.rows[v].compilation;
    assert CurrentRubricId(db, r) == Some(r);
    assert CurrentRubricId(db, c) == CurrentRubricId(db, r);
  }

  // Provenance that arrives with the flush cannot land on a stored published rubric.
  lemma NoNewProvenanceOnPublished(db: Graph, f: Flush, r: Id)
    requires Accepted(db, f) && NewProvenance(db, f, r) && IsRubric(db, r)
    ensures db.rows[r].status != "published"
  {
    hide CurrentRubricId, DatabaseRubricId, StoredProvenance, Transitioning;
    var c :| c in New(db, f) && c !in f.deleted && IsCompilation(f.pending, c)
      && CurrentRubricId(f.pending, c) == Some(r);
    assert c in Candidates(db, f);
    assert ContentOk(db, f, c);
    assert r in RubricIds(db, f, c);
  }

  lemma SignedCompilationKept(db: Graph, f: Flush, r: Id, c: Id)
    requires Accepted(db, f) && r in Transitioning(db, f) && c in SignedCompilations(db, f, r)
    ensures IsCompilation(db, c) && IsCompilation(After(f), c) && db.rows[c].rubric == r && After(f).rows[c].rubric == r
  {
    hide Transitioning, DatabaseRubricId, CurrentRubricId;
    assert ContentChange(db, f, c) by { if c in db.rows { assert Changed(db, f, c); } }
    TransitionUpdate(db, f, r, c);
    UpdatesKeepParents(f.operation, db.rows[c], f.pending.rows[c]);
    CompilationIds(db, f, c, r);
  }

  lemma CompilationIds(db: Graph, f: Flush, c: Id, r: Id)
    requires IsCompilation(db, c) && IsCompilation(f.pending, c) && r in RubricIds(db, f, c)
    ensures r == db.rows[c].rubric || r == f.pending.rows[c].rubric
  {
    var y := f.pending.rows[c].rubric;
    assert IsRubric(f.pending, y) ==> CurrentRubricId(f.pending, y) == Some(y);
  }

  lemma SignedVersionKept(db: Graph, f: Flush, r: Id, c: Id, v: Id)
    requires Accepted(db, f) && r in Transitioning(db, f) && GraphKept(db, f, r)
    requires IsCompilation(db, c) && db.rows[c].rubric == r
    requires v in VersionsOf(db, f, c) && IsVersion(f.pending, v) && f.pending.rows[v].rubric == r
    ensures IsVersion(After(f), v) && After(f).rows[v] == f.pending.rows[v] && After(f).rows[v].compilation == c
  {
    hide LineageAccepts, GuardAccepts, Lineage, Constraints, Transitioning, CurrentRubricId;
    SignedVersionStored(db, f, r, v);
    ParentExists(db, c);
    VersionInGraph(db, v, c, r);
    assert KeptRow(db, f, v);
    UpdatesKeepParents(f.operation, db.rows[v], After(f).rows[v]);
  }

  // A transition brings no new version.
  lemma SignedVersionStored(db: Graph, f: Flush, r: Id, v: Id)
    requires Accepted(db, f) && r in Transitioning(db, f)
    requires IsVersion(f.pending, v) && f.pending.rows[v].rubric == r
    ensures v in db.rows
  {
    hide LineageAccepts, GuardAccepts, Lineage, Constraints, Transitioning, DatabaseRubricId;
    if v !in db.rows {
      assert v in New(db, f);
      assert CurrentRubricId(f.pending, v) == Some(r);
      TransitionUpdate(db, f, r, v);
      assert false;
    }
  }

  lemma VersionInGraph(g: Graph, v: Id, c: Id, r: Id)
    requires Constraints(g) && IsVersion(g, v) && g.rows[v].compilation == c
    requires IsCompilation(g, c) && g.rows[c].rubric == r
    ensures InGraph(g, v, r)
  {
    hide Constraints;
    assert References(g, g.rows[v]) by { ParentReferences(g, v); }
  }

  lemma ParentReferences(g: Graph, x: Id)
    requires Constraints(g) && x in g.rows
    ensures References(g, g.rows[x])
  {
  }

  // A rubric that is published by this flush: the sign-off check covers what the reader asks.
  lemma PublishFreezes(db: Graph, f: Flush, r: Id)
    requires Accepted(db, f) && HasProvenance(db, f, r) && IsRubric(db, r) && IsRubric(After(f), r)
    requires db.rows[r].status != "published" && After(f).rows[r].status == "published"
    ensures HasFrozenVersion(After(f), r)
  {
    hide HasProvenance, RubricIds, CurrentRubricId, Constraints, Lineage, LineageAccepts, InGraph,
      SignedCompilations, VersionsOf;
    TransitionIsClean(db, f, r);
    assert f.operation == Some(Publish);
    assert r in Candidates(db, f) && r in Transitioning(db, f);
    assert SignoffOk(db, f, r);
    var c :| c in SignedCompilations(db, f, r) && exists v | v in VersionsOf(db, f, c) :: SignoffComplete(f, r, c, v);
    var v :| v in VersionsOf(db, f, c) && SignoffComplete(f, r, c, v);
    SignedCompilationKept(db, f, r, c);
    SignoffFields(f, r, c, v);
    SignedVersionKept(db, f, r, c, v);
  }

  lemma Singleton(s: set<Id>, x: Id, y: Id)
    requires |s| == 1 && x in s && y in s
    ensures x == y
  {
    var rest := s - {x};
    assert |rest| == 0;
    assert rest == {};
  }

  /** Publishing signs off exactly one compilation, reviewed by a known user no earlier than it was
      created; no other compilation of the rubric changed. */
  lemma PublishSignsOne(db: Graph, f: Flush, r: Id) returns (c: Id, v: Id)
    requires Accepted(db, f) && HasProvenance(db, f, r) && IsRubric(db, r) && IsRubric(After(f), r)
    requires db.rows[r].status != "published" && After(f).rows[r].status == "published"
    ensures SignoffComplete(f, r, c, v)
    ensures forall d :: IsCompilation(db, d) && db.rows[d].rubric == r && d != c ==>
      IsCompilation(After(f), d) && After(f).rows[d] == db.rows[d]
  {
    hide HasProvenance, RubricIds, CurrentRubricId, Constraints, Lineage, LineageAccepts, InGraph,
      SignedCompilations, VersionsOf;
    TransitionIsClean(db, f, r);
    assert f.operation == Some(Publish);
    assert r in Candidates(db, f) && r in Transitioning(db, f);
    assert SignoffOk(db, f, r);
    c :| c in SignedCompilations(db, f, r) && exists v | v in VersionsOf(db, f, c) :: SignoffComplete(f, r, c, v);
    v :| v in VersionsOf(db, f, c) && SignoffComplete(f, r, c, v);
    forall d | IsCompilation(db, d) && db.rows[d].rubric == r && d != c
      ensures IsCompilation(After(f), d) && After(f).rows[d] == db.rows[d] {
      OtherCompilation(db, f, r, c, d);
    }
  }

  lemma OtherCompilation(db: Graph, f: Flush, r: Id, c: Id, d: Id)
    requires Accepted(db, f) && GraphKept(db, f, r) && f.operation == Some(Publish)
    requires |SignedCompilations(db, f, r)| == 1 && c in SignedCompilations(db, f, r) && c != d
    requires IsCompilation(db, d) && db.rows[d].rubric == r
    ensures IsCompilation(After(f), d) && After(f).rows[d] == db.rows[d]
  {
    hide Constraints, Lineage, LineageAccepts, GuardAccepts, CurrentRubricId, InGraph;
    CompilationInGraph(db, d, r);
    assert KeptRow(db, f, d);
    MembersAreSeen(db, f, d, r);
    if After(f).rows[d] != db.rows[d] {
      assert Changed(db, f, d) && d in Candidates(db, f);
      assert d in SignedCompilations(db, f, r);
      Singleton(SignedCompilations(db, f, r), c, d);
      assert false;
    }
  }

  /** An import brings its whole graph: every row of it is new, it has one compilation, and a batch
      of the same flush pins its version. */
  lemma ImportIsWhole(db: Graph, f: Flush, r: Id) returns (c: Id, v: Id, b: Id)
    requires Accepted(db, f) && HasProvenance(db, f, r) && IsRubric(After(f), r) && r in New(db, f)
    requires After(f).rows[r].status == "published"
    ensures ImportComplete(f, r, c, v)
    ensures forall x :: InGraph(After(f), x, r) ==> x in New(db, f)
    ensures forall d :: IsCompilation(After(f), d) && After(f).rows[d].rubric == r ==> d == c
    ensures b in New(db, f) && b in After(f).rows && After(f).rows[b].Batch?
      && After(f).rows[b].batchRubric == Some(r) && After(f).rows[b].batchVersion == Some(v)
  {
    hide HasProvenance, RubricIds, CurrentRubricId, Constraints, Lineage, LineageAccepts, LowerHexDigest, NotBlank,
      InGraph;
    assert r in Candidates(db, f);
    assert StatusOk(db, f, r);
    assert ImportOk(db, f, r);
    c :| c in ImportedCompilations(db, f, r)
      && exists v | v in ImportedVersions(db, f, c) :: ImportComplete(f, r, c, v) && PinnedBatchesOk(db, f, r, v);
    v :| v in ImportedVersions(db, f, c) && ImportComplete(f, r, c, v) && PinnedBatchesOk(db, f, r, v);
    b := PinnedBatch(db, f, r, v);
    forall x | InGraph(After(f), x, r) ensures x in New(db, f) { ImportedRowIsNew(db, f, r, x); }
    forall d | IsCompilation(After(f), d) && After(f).rows[d].rubric == r ensures d == c {
      CompilationInGraph(After(f), d, r);
      ImportedCompilation(db, f, r, d);
      Singleton(ImportedCompilations(db, f, r), c, d);
    }
  }

  lemma PinnedBatch(db: Graph, f: Flush, r: Id, v: Id) returns (b: Id)
    requires Session(db, f) && PinnedBatchesOk(db, f, r, v)
    ensures b in New(db, f) && b in After(f).rows && After(f).rows[b].Batch?
      && After(f).rows[b].batchRubric == Some(r) && After(f).rows[b].batchVersion == Some(v)
  {
    b :| b in New(db, f) && f.pending.rows[b].Batch?
      && (f.pending.rows[b].batchRubric == Some(r) || f.pending.rows[b].batchVersion == Some(v));
  }

  lemma ImportedCompilation(db: Graph, f: Flush, r: Id, d: Id)
    requires Accepted(db, f) && IsCompilation(After(f), d) && InGraph(After(f), d, r) && d in New(db, f)
    ensures d in ImportedCompilations(db, f, r)
  {
    SessionAgrees(f, d);
  }

  lemma SurvivorUntouched(db: Graph, f: Flush, r: Id, x: Id)
    requires Accepted(db, f) && ImportOk(db, f, r) && InGraph(After(f), x, r) && x in db.rows
    ensures x in After(f).rows && After(f).rows[x] == db.rows[x]
  {
    hide LineageAccepts, GuardAccepts, Lineage, RubricIds, CurrentRubricId, Constraints, ImportComplete,
      PinnedBatchesOk;
    MembersAreSeen(db, f, x, r);
    KindKeepsContent(db.rows[x], f.pending.rows[x]);
    assert x !in New(db, f);
    assert x !in Candidates(db, f);
  }

  // A stored row cannot hang off a new rubric without being a candidate of the import.
  lemma {:induction false} ImportedRowIsNew(db: Graph, f: Flush, r: Id, x: Id)
    requires Accepted(db, f) && r in New(db, f) && ImportOk(db, f, r) && InGraph(After(f), x, r)
    ensures x in New(db, f)
    decreases if x in After(f).rows then Depth(After(f).rows[x]) else 0
  {
    hide LineageAccepts, GuardAccepts, Lineage, Constraints, ImportOk, CurrentRubricId, RubricIds;
    if x in db.rows {
      SurvivorUntouched(db, f, r, x);
      ParentExists(db, x);
      GraphStep(After(f), x, r);
      if Parent(After(f).rows[x]).Some? {
        ImportedRowIsNew(db, f, r, Parent(After(f).rows[x]).value);
      }
    }
  }

  /** A new rubric with provenance is a draft, or a published import that is frozen from the start. */
  lemma NewRubricStarts(db: Graph, f: Flush, r: Id)
    requires Accepted(db, f) && HasProvenance(db, f, r) && IsRubric(After(f), r) && r in New(db, f)
    ensures var status := After(f).rows[r].status;
      status == "draft" || (status == "published" && (PublishedFormally(After(f), r) ==> HasFrozenVersion(After(f), r)))
  {
    hide HasProvenance, HasFrozenVersion, StoredProvenance, ImportOk, Constraints, Lineage, LineageAccepts;
    assert r in Candidates(db, f);
    assert StatusOk(db, f, r);
    if PublishedFormally(After(f), r) { ImportFreezes(db, f, r); }
  }

  lemma FrozenUnlessAdopted(db: Graph, f: Flush, r: Id)
    requires Accepted(db, f) && PublishedMeansFrozen(db) && PublishedFormally(After(f), r) && !Adopts(db, f, r)
    ensures HasFrozenVersion(After(f), r)
  {
    hide Accepted, StoredProvenance, NewProvenance, HasFrozenVersion;
    if r in New(db, f) {
      ImportFreezes(db, f, r);
    } else {
      KindOfStored(db, f, r);
      if db.rows[r].status != "published" {
        PublishFreezes(db, f, r);
      } else if StoredProvenance(db, r) {
        FrozenPersists(db, f, r);
      } else {
        NoNewProvenanceOnPublished(db, f, r);
        assert false;
      }
    }
  }

  lemma KindOfStored(db: Graph, f: Flush, r: Id)
    requires Accepted(db, f) && IsRubric(After(f), r) && r !in New(db, f)
    ensures IsRubric(db, r)
  {
  }

  // A stored compilation that the flush moves to r, signed off at r's publication date.
  predicate MovedSigned(db: Graph, f: Flush, r: Id, c: Id) {
    && IsRubric(f.pending, r) && MovedTo(db, f, r, c)
    && var published, compilation := f.pending.rows[r].rubricPublishedAt, f.pending.rows[c];
      && published.Some? && compilation.compileStatus == "validated" && compilation.reviewedBy.Some?
      && compilation.reviewedAt == compilation.publishedAt == published
  }

  ghost predicate KeptVersionOf(f: Flush, c: Id, v: Id) {
    IsVersion(f.pending, v) && v !in f.deleted && f.pending.rows[v].compilation == c
  }

  // What the adopted rubric needs to be frozen: one such compilation, and a version of it.
  ghost predicate AdoptsSigned(db: Graph, f: Flush, r: Id) {
    exists c, v :: MovedSigned(db, f, r, c) && KeptVersionOf(f, c, v)
  }

  lemma AdoptedFrozenIff(db: Graph, f: Flush, r: Id)
    requires Accepted(db, f) && Adopts(db, f, r)
    ensures HasFrozenVersion(After(f), r) <==> AdoptsSigned(db, f, r)
  {
    hide LineageAccepts, GuardAccepts, Lineage, Constraints, HasProvenance;
    if v :| IsFrozenVersion(After(f), r, v) {
      var c := After(f).rows[v].compilation;
      AdoptedIsMoved(db, f, r, c);
      assert MovedSigned(db, f, r, c) && KeptVersionOf(f, c, v);
    }
    if c, v :| MovedSigned(db, f, r, c) && KeptVersionOf(f, c, v) {
      ParentReferences(After(f), v);
      assert IsFrozenVersion(After(f), r, v);
    }
  }

  // Without provenance, new or stored, a compilation of the rubric was moved there.
  lemma AdoptedIsMoved(db: Graph, f: Flush, r: Id, c: Id)
    requires Accepted(db, f) && !HasProvenance(db, f, r)
    requires IsCompilation(After(f), c) && After(f).rows[c].rubric == r
    ensures IsCompilation(db, c) && db.rows[c].rubric != r
  {
    hide LineageAccepts, GuardAccepts, Lineage, Constraints, CurrentRubricId, InGraph;
    CompilationInGraph(After(f), c, r);
    assert CurrentRubricId(f.pending, c) == Some(r) by { InGraphFacts(f, c, r); }
    assert c in New(db, f) ==> NewProvenance(db, f, r);
    assert c in db.rows.Keys;
  }

  lemma InGraphFacts(f: Flush, x: Id, r: Id)
    requires Constraints(After(f)) && InGraph(After(f), x, r)
    ensures CurrentRubricId(f.pending, x) == Some(r)
  {
    SessionAgrees(f, x);
  }

  /** After an accepted flush, published means frozen exactly when every adopted rubric gets, with
      some moved compilation, its sign-off at the rubric's own publication date and a version;
      without adoption it always holds. */
  lemma PublishedMeansFrozenIff(db: Graph, f: Flush)
    requires Accepted(db, f) && PublishedMeansFrozen(db)
    ensures PublishedMeansFrozen(After(f)) <==> forall r :: Adopts(db, f, r) ==> AdoptsSigned(db, f, r)
    ensures (forall r :: !Adopts(db, f, r)) ==> PublishedMeansFrozen(After(f))
  {
    hide Accepted, HasFrozenVersion, HasProvenance, PublishedFormally, AdoptsSigned;
    forall r | PublishedFormally(After(f), r) && !Adopts(db, f, r) ensures HasFrozenVersion(After(f), r) {
      FrozenUnlessAdopted(db, f, r);
    }
    forall r | Adopts(db, f, r) ensures HasFrozenVersion(After(f), r) <==> AdoptsSigned(db, f, r) {
      AdoptedFrozenIff(db, f, r);
    }
  }

  /** Whatever the resolver returns is a frozen version of the rubric; it returns no version only
      for a rubric without versions. */
  lemma ResolverReturnsFrozen(g: Graph, r: Id, requested: Option<Id>, formal: seq<Id>)
    requires FormalVersions(g, r, formal) && ResolveBatchVersion(g, r, requested, formal).Ok?
    ensures var result := ResolveBatchVersion(g, r, requested, formal).value;
      && (result.Some? ==> IsFrozenVersion(g, r, result.value) && (requested.Some? ==> result == requested))
      && (result.None? <==> requested.None? && forall v :: IsVersion(g, v) ==> g.rows[v].rubric != r)
  {
    hide IsFrozenVersion;
    EligibleAreFrozen(g, r, formal);
    if formal != [] { assert formal[0] in formal; }
  }

  lemma {:induction false} EligibleAreFrozen(g: Graph, r: Id, formal: seq<Id>)
    ensures forall v :: v in Collect(formal, Frozen(g, r), Itself) ==> IsFrozenVersion(g, r, v)
  {
    hide IsFrozenVersion;
    if formal != [] { EligibleAreFrozen(g, r, formal[1..]); }
  }

  /** What the resolver answers, for every number of frozen versions: without a request the only one, an
      error for none or several, and nothing for a rubric without versions; a requested version only if
      it is a frozen one of the rubric. */
  lemma ResolverCases(g: Graph, r: Id, requested: Option<Id>, formal: seq<Id>)
    requires FormalVersions(g, r, formal)
    ensures var result := ResolveBatchVersion(g, r, requested, formal);
      match requested
      case Some(v) =>
        && (!IsVersion(g, v) ==> result == Err(NotFound))
        && (IsVersion(g, v) && g.rows[v].rubric != r ==> result == Err(WrongRubric))
        && (IsVersion(g, v) && g.rows[v].rubric == r && !IsFrozenVersion(g, r, v) ==> result == Err(NotFrozen))
        && (IsFrozenVersion(g, r, v) ==> result == Ok(Some(v)))
      case None =>
        && ((forall v :: IsVersion(g, v) ==> g.rows[v].rubric != r) ==> result == Ok(None))
        && ((exists v :: IsVersion(g, v) && g.rows[v].rubric == r) && !HasFrozenVersion(g, r) ==>
              result == Err(NoFrozenVersion))
        && (forall v :: IsFrozenVersion(g, r, v) && (forall w :: IsFrozenVersion(g, r, w) ==> w == v) ==>
              result == Ok(Some(v)))
        && (forall v, w :: IsFrozenVersion(g, r, v) && IsFrozenVersion(g, r, w) && v != w ==>
              result == Err(SeveralFrozenVersions))
  {
    hide IsFrozenVersion, HasFrozenVersion, ResolveBatchVersion;
    match requested
    case Some(v) => RequestedCases(g, r, v, formal);
    case None => UnaskedCases(g, r, formal);
  }

  lemma RequestedCases(g: Graph, r: Id, v: Id, formal: seq<Id>)
    ensures var result := ResolveBatchVersion(g, r, Some(v), formal);
      && (!IsVersion(g, v) ==> result == Err(NotFound))
      && (IsVersion(g, v) && g.rows[v].rubric != r ==> result == Err(WrongRubric))
      && (IsVersion(g, v) && g.rows[v].rubric == r && !IsFrozenVersion(g, r, v) ==> result == Err(NotFrozen))
      && (IsFrozenVersion(g, r, v) ==> result == Ok(Some(v)))
  {
  }

  lemma UnaskedCases(g: Graph, r: Id, formal: seq<Id>)
    requires FormalVersions(g, r, formal)
    ensures var result := ResolveBatchVersion(g, r, None, formal);
      && ((forall v :: IsVersion(g, v) ==> g.rows[v].rubric != r) ==> result == Ok(None))
      && ((exists v :: IsVersion(g, v) && g.rows[v].rubric == r) && !HasFrozenVersion(g, r) ==>
            result == Err(NoFrozenVersion))
      && (forall v :: IsFrozenVersion(g, r, v) && (forall w :: IsFrozenVersion(g, r, w) ==> w == v) ==>
            result == Ok(Some(v)))
      && (forall v, w :: IsFrozenVersion(g, r, v) && IsFrozenVersion(g, r, w) && v != w ==>
            result == Err(SeveralFrozenVersions))
  {
    hide IsFrozenVersion, ResolveBatchVersion, HasFrozenVersion;
    NoneEligible(g, r, formal);
    forall v | IsFrozenVersion(g, r, v) && (forall w :: IsFrozenVersion(g, r, w) ==> w == v)
      ensures ResolveBatchVersion(g, r, None, formal) == Ok(Some(v)) {
      OneEligible(g, r, v, formal);
    }
    forall v, w | IsFrozenVersion(g, r, v) && IsFrozenVersion(g, r, w) && v != w
      ensures ResolveBatchVersion(g, r, None, formal) == Err(SeveralFrozenVersions) {
      SeveralEligible(g, r, v, w, formal);
    }
  }

  lemma NoneEligible(g: Graph, r: Id, formal: seq<Id>)
    requires FormalVersions(g, r, formal)
    ensures (forall v :: IsVersion(g, v) ==> g.rows[v].rubric != r) ==>
      ResolveBatchVersion(g, r, None, formal) == Ok(None)
    ensures (exists v :: IsVersion(g, v) && g.rows[v].rubric == r) && !HasFrozenVersion(g, r) ==>
      ResolveBatchVersion(g, r, None, formal) == Err(NoFrozenVersion)
  {
    hide IsFrozenVersion, Collect;
    if formal != [] { assert formal[0] in formal; }
    var eligible := Collect(formal, Frozen(g, r), Itself);
    if eligible != [] {
      assert eligible[0] in eligible;
      EligibleIff(g, r, formal, eligible[0]);
    }
  }

  lemma OneEligible(g: Graph, r: Id, v: Id, formal: seq<Id>)
    requires FormalVersions(g, r, formal) && IsFrozenVersion(g, r, v)
    requires forall w :: IsFrozenVersion(g, r, w) ==> w == v
    ensures ResolveBatchVersion(g, r, None, formal) == Ok(Some(v))
  {
    hide IsFrozenVersion, Collect;
    EligibleIff(g, r, formal, v);
    OnlyFrozen(g, r, v, formal);
  }

  lemma SeveralEligible(g: Graph, r: Id, v: Id, w: Id, formal: seq<Id>)
    requires FormalVersions(g, r, formal)
    requires IsFrozenVersion(g, r, v) && IsFrozenVersion(g, r, w) && v != w
    ensures ResolveBatchVersion(g, r, None, formal) == Err(SeveralFrozenVersions)
  {
    hide IsFrozenVersion, Collect, FormalVersions;
    EligibleIff(g, r, formal, v);
    EligibleIff(g, r, formal, w);
    var eligible := Collect(formal, Frozen(g, r), Itself);
    assert v in eligible && w in eligible;
  }

  lemma EligibleIff(g: Graph, r: Id, formal: seq<Id>, v: Id)
    requires FormalVersions(g, r, formal)
    ensures v in Collect(formal, Frozen(g, r), Itself) <==> IsFrozenVersion(g, r, v)
    ensures IsFrozenVersion(g, r, v) ==> v in formal
  {
    CollectMembers(formal, Frozen(g, r), Itself, v);
    if IsFrozenVersion(g, r, v) {
      assert v in formal;
      var i :| 0 <= i < |formal| && formal[i] == v;
      assert Frozen(g, r)(formal[i]);
    }
  }

  /** The reader and the publication check ask for the same sign-off: a version is frozen exactly when the
      check would pass it, but for the reviewer's account, the date of creation and an empty hash. */
  lemma ReaderMatchesGuard(g: Graph, r: Id, v: Id)
    requires IsRubric(g, r) && IsVersion(g, v) && g.rows[r].status == "published"
    requires IsCompilation(g, g.rows[v].compilation) && g.rows[g.rows[v].compilation].rubric == r
    ensures var c, f := g.rows[v].compilation, Flush(g, {}, {}, {}, None);
      SignoffComplete(f, r, c, v) <==>
        && IsFrozenVersion(g, r, v)
        && IsUser(g, g.rows[c].reviewedBy.value) && g.rows[c].reviewedAt.value >= g.rows[c].createdAt
        && g.rows[v].hash != ""
  {
  }

  ghost predicate OneCompilation(g: Graph, r: Id) {
    forall c, d :: IsCompilation(g, c) && IsCompilation(g, d) && g.rows[c].rubric == r && g.rows[d].rubric == r ==>
      c == d
  }

  /** With a single compilation, the batch resolver finds that version without being told. */
  lemma ResolverFindsFrozen(g: Graph, r: Id, formal: seq<Id>)
    requires Constraints(g) && PublishedMeansFrozen(g) && PublishedFormally(g, r) && FormalVersions(g, r, formal)
    requires OneCompilation(g, r)
    ensures var result := ResolveBatchVersion(g, r, None, formal);
      result.Ok? && result.value.Some? && IsFrozenVersion(g, r, result.value.value)
  {
    var v :| IsFrozenVersion(g, r, v);
    assert v in formal;
    forall w | IsFrozenVersion(g, r, w) ensures w == v { }
    OnlyFrozen(g, r, v, formal);
  }

  lemma {:induction false} OnlyFrozen(g: Graph, r: Id, v: Id, formal: seq<Id>)
    requires Distinct(formal) && IsFrozenVersion(g, r, v)
    requires forall w :: IsFrozenVersion(g, r, w) ==> w == v
    ensures Collect(formal, Frozen(g, r), Itself) == if v in formal then [v] else []
  {
    hide IsFrozenVersion;
    if formal != [] {
      OnlyFrozen(g, r, v, formal[1..]);
      assert formal == [formal[0]] + formal[1..];
      assert formal[0] !in formal[1..];
    }
  }
}
