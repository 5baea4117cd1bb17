/** Which flushes the lifecycle guard lets through: the three status changes, a publication with its
    sign-off, edits of rubrics that are not published, and the import of a published graph. */
module Lifecycle {
  import opened Wrappers
  import opened RubricGraph
  import opened LineageGuard
  import opened PublishGuard
  import opened PublishedGraph
  import opened RubricRuns

  // ----- a flush that changes only a status

  ghost function StatusFlush(db: Graph, r: Id, now: string, operation: Option<Operation>): Flush
    requires IsRubric(db, r)
  {
    Flush(Graph(db.rows[r := db.rows[r].(status := now)], db.sources), {}, {}, {}, operation)
  }

  ghost predicate HasStoredCompilation(db: Graph, r: Id) {
    exists c :: IsCompilation(db, c) && db.rows[c].rubric == r
  }

  /** A flush that changes only the status of a rubric with a stored compilation is taken exactly for
      draft to review as a submission and review to draft as a return; then the database holds the new
      status and is otherwise unchanged. */
  lemma StatusFlushTaken(db: Graph, r: Id, now: string, operation: Option<Operation>)
    requires Sound(db) && IsRubric(db, r) && HasStoredCompilation(db, r) && db.rows[r].status != now
    ensures var f, was := StatusFlush(db, r, now, operation), db.rows[r].status;
      && Session(db, f)
      && (Taken(db, f) <==>
            || (was == "draft" && now == "review" && operation == Some(SubmitForReview))
            || (was == "review" && now == "draft" && operation == Some(ReturnToDraft)))
      && (Taken(db, f) ==> Step(db, f) == Graph(db.rows[r := db.rows[r].(status := now)], db.sources))
  {
    hide Taken, Session, Constraints, Lineage, LineageAccepts, GuardAccepts;
    var f := StatusFlush(db, r, now, operation);
    ColumnFlush(db, f, {r});
    ConstraintsMatch(db);
    assert HashesMatch(f.pending);
    StatusDecision(db, r, now, operation);
    TakenUnfolds(db, f);
  }

  lemma NothingDeleted(f: Flush)
    requires f.deleted == {}
    ensures After(f) == f.pending
  {
    assert After(f).rows == f.pending.rows && After(f).sources == f.pending.sources;
  }

  lemma TakenUnfolds(db: Graph, f: Flush)
    ensures Taken(db, f) <==> Session(db, f) && LineageAccepts(db, f) && GuardAccepts(db, f) && Constraints(After(f))
  {
  }

  // The flush changes columns of the given stored rows that no foreign key and no lineage rule reads.
  ghost predicate OnlyColumns(db: Graph, f: Flush, changed: set<Id>) {
    && f.pending.rows.Keys == db.rows.Keys && f.pending.sources == db.sources
    && f.deleted == {} && f.touched == {} && f.related == {}
    && (forall x :: x in db.rows && x !in changed ==> f.pending.rows[x] == db.rows[x])
    && forall x :: x in db.rows && x in changed ==> OtherColumns(db.rows[x], f.pending.rows[x])
  }

  ghost predicate OtherColumns(was: Row, now: Row) {
    || (was.Rubric? && now.Rubric?)
    || (was.Compilation? && now.Compilation? && now.rubric == was.rubric)
    || (was.Version? && now.Version? && now.rubric == was.rubric && now.compilation == was.compilation)
  }

  ghost predicate HashesMatch(g: Graph) {
    forall v :: IsVersion(g, v) && IsCompilation(g, g.rows[v].compilation)
      ==> g.rows[g.rows[v].compilation].finalHash == Some(g.rows[v].hash)
  }

  // Such a flush keeps the lineage, and the constraints if the hashes of versions still match.
  lemma ColumnFlush(db: Graph, f: Flush, changed: set<Id>)
    requires Sound(db) && OnlyColumns(db, f, changed)
    ensures Session(db, f) && LineageAccepts(db, f) && After(f) == f.pending
    ensures Constraints(After(f)) <==> HashesMatch(f.pending)
  {
    hide Lineage;
    NothingDeleted(f);
    ColumnSession(db, f, changed);
    ColumnLineage(db, f, changed);
    if HashesMatch(f.pending) { ColumnConstraints(db, f, changed); }
    if Constraints(f.pending) { ConstraintsMatch(f.pending); }
  }

  lemma ConstraintsMatch(g: Graph)
    requires Constraints(g)
    ensures HashesMatch(g)
  {
    forall v | IsVersion(g, v) && IsCompilation(g, g.rows[v].compilation)
      ensures g.rows[g.rows[v].compilation].finalHash == Some(g.rows[v].hash) {
      assert References(g, g.rows[v]);
    }
  }

  lemma ColumnSession(db: Graph, f: Flush, changed: set<Id>)
    requires Sound(db) && OnlyColumns(db, f, changed)
    ensures Session(db, f)
  {
    hide Lineage;
    forall x | x in db.rows ensures SameKind(db.rows[x], f.pending.rows[x]) {
      if x !in changed { assert f.pending.rows[x] == db.rows[x]; }
    }
  }

  lemma ColumnLineage(db: Graph, f: Flush, changed: set<Id>)
    requires Session(db, f) && OnlyColumns(db, f, changed)
    ensures LineageAccepts(db, f)
  {
    hide Session;
    forall x | (x in New(db, f) || x in Dirty(db, f)) && x !in f.deleted ensures CandidateOk(db, f, x) {
      assert x in db.rows && Changed(db, f, x) && x in changed;
      assert OtherColumns(db.rows[x], f.pending.rows[x]);
    }
  }

  lemma ColumnConstraints(db: Graph, f: Flush, changed: set<Id>)
    requires Constraints(db) && OnlyColumns(db, f, changed) && HashesMatch(f.pending)
    ensures Constraints(f.pending)
  {
    var g := f.pending;
    forall x | x in g.rows ensures References(g, g.rows[x]) {
      assert References(db, db.rows[x]);
    }
  }

  lemma StatusDecision(db: Graph, r: Id, now: string, operation: Option<Operation>)
    requires IsRubric(db, r) && HasStoredCompilation(db, r) && db.rows[r].status != now
    ensures var f, was := StatusFlush(db, r, now, operation), db.rows[r].status;
      GuardAccepts(db, f) <==>
        || (was == "draft" && now == "review" && operation == Some(SubmitForReview))
        || (was == "review" && now == "draft" && operation == Some(ReturnToDraft))
  {
    hide ImportOk, SignoffOk;
    var f := StatusFlush(db, r, now, operation);
    assert New(db, f) == {};
    assert Changed(db, f, r);
    assert Candidates(db, f) == {r};
    assert StoredProvenance(db, r) by { Provenance(db, r); }
    assert HasProvenance(db, f, r) && Transits(db, f, r);
    assert Transitioning(db, f) == {r};
    assert RubricIds(db, f, r) == {r};
    assert f.operation == Some(Publish) ==> !SignoffOk(db, f, r) by { NothingSigned(db, f, r); }
    StatusWords();
  }

  lemma Provenance(db: Graph, r: Id)
    requires HasStoredCompilation(db, r)
    ensures StoredProvenance(db, r)
  {
    var c :| IsCompilation(db, c) && db.rows[c].rubric == r;
    assert c in db.rows.Keys;
  }

  lemma NothingSigned(db: Graph, f: Flush, r: Id)
    requires Candidates(db, f) == {r} && IsRubric(f.pending, r)
    ensures !SignoffOk(db, f, r)
  {
    assert SignedCompilations(db, f, r) == {};
  }

  lemma StatusWords()
    ensures "draft" != "review" && "draft" != "published" && "review" != "published"
  {
    assert |"draft"| == 5 && |"review"| == 6 && |"published"| == 9;
  }

  // ----- a flush that publishes

  // A publication of rubric r with compilation c and version v: every column the operation may write.
  datatype Signing = Signing(publishedAt: Option<int>, publishedBy: Option<Id>, reviewedBy: Option<Id>,
    reviewedAt: Option<int>, compilationPublishedAt: Option<int>, finalHash: Option<string>, versionHash: string)

  ghost function PublishFlush(db: Graph, r: Id, c: Id, v: Id, s: Signing, operation: Option<Operation>): Flush
    requires IsRubric(db, r) && IsCompilation(db, c) && IsVersion(db, v)
  {
    var rubric := db.rows[r].(status := "published", rubricPublishedAt := s.publishedAt, publishedBy := s.publishedBy);
    var compilation := db.rows[c].(reviewedBy := s.reviewedBy, reviewedAt := s.reviewedAt,
      publishedAt := s.compilationPublishedAt, finalHash := s.finalHash);
    var version := db.rows[v].(hash := s.versionHash);
    Flush(Graph(db.rows[r := rubric][c := compilation][v := version], db.sources), {}, {}, {}, operation)
  }

  // One date for the review and both publications, a user who reviewed no earlier than the
  // compilation was created, and one hash, in a validated compilation.
  ghost predicate CompleteSigning(db: Graph, c: Id, s: Signing)
    requires IsCompilation(db, c)
  {
    && db.rows[c].compileStatus == "validated"
    && s.publishedAt.Some? && s.reviewedAt == s.publishedAt && s.compilationPublishedAt == s.publishedAt
    && s.publishedAt.value >= db.rows[c].createdAt
    && s.reviewedBy.Some? && IsUser(db, s.reviewedBy.value)
    && s.versionHash != "" && s.finalHash == Some(s.versionHash)
  }

  ghost predicate NewSigning(db: Graph, c: Id, s: Signing)
    requires IsCompilation(db, c)
  {
    var was := db.rows[c];
    was.reviewedBy != s.reviewedBy || was.reviewedAt != s.reviewedAt
    || was.publishedAt != s.compilationPublishedAt || was.finalHash != s.finalHash
  }

  /** A flush that publishes a rubric with one of its compilations and that one's version, and changes
      nothing else, is taken exactly from review, as a publication, with a complete sign-off that was
      not there before; then the database holds just those rows. */
  lemma PublishFlushTaken(db: Graph, r: Id, c: Id, v: Id, s: Signing, operation: Option<Operation>)
    requires Sound(db) && IsRubric(db, r) && IsCompilation(db, c) && IsVersion(db, v)
    requires db.rows[c].rubric == r && db.rows[v].compilation == c && db.rows[r].status != "published"
    ensures var f := PublishFlush(db, r, c, v, s, operation);
      && Session(db, f)
      && (Taken(db, f) <==>
            && db.rows[r].status == "review" && operation == Some(Publish)
            && CompleteSigning(db, c, s) && NewSigning(db, c, s))
      && (Taken(db, f) ==> Step(db, f) == f.pending)
  {
    hide Taken, Session, Constraints, Lineage, LineageAccepts, GuardAccepts;
    var f := PublishFlush(db, r, c, v, s, operation);
    VersionOfRubric(db, c, v);
    ColumnFlush(db, f, {r, c, v});
    PublishHashes(db, r, c, v, s, operation);
    PublishDecision(db, r, c, v, s, operation);
    TakenUnfolds(db, f);
  }

  lemma VersionOfRubric(db: Graph, c: Id, v: Id)
    requires Constraints(db) && IsCompilation(db, c) && IsVersion(db, v) && db.rows[v].compilation == c
    ensures db.rows[v].rubric == db.rows[c].rubric
    ensures forall w :: IsVersion(db, w) && db.rows[w].compilation == c ==> w == v
  {
    assert References(db, db.rows[v]);
  }

  lemma PublishHashes(db: Graph, r: Id, c: Id, v: Id, s: Signing, operation: Option<Operation>)
    requires Constraints(db) && IsRubric(db, r) && IsCompilation(db, c) && IsVersion(db, v)
    requires db.rows[v].compilation == c
    ensures HashesMatch(PublishFlush(db, r, c, v, s, operation).pending) <==> s.finalHash == Some(s.versionHash)
  {
    var g := PublishFlush(db, r, c, v, s, operation).pending;
    VersionOfRubric(db, c, v);
    ConstraintsMatch(db);
    hide Constraints;
    assert g.rows[v].hash == s.versionHash && g.rows[c].finalHash == s.finalHash && g.rows[v].compilation == c;
    assert IsVersion(g, v) && IsCompilation(g, c);
    if s.finalHash == Some(s.versionHash) {
      forall w | IsVersion(g, w) && IsCompilation(g, g.rows[w].compilation)
        ensures g.rows[g.rows[w].compilation].finalHash == Some(g.rows[w].hash) {
        if w != v { assert g.rows[w] == db.rows[w] && db.rows[w].compilation != c; }
      }
    }
  }

  lemma PublishDecision(db: Graph, r: Id, c: Id, v: Id, s: Signing, operation: Option<Operation>)
    requires Constraints(db) && IsRubric(db, r) && IsCompilation(db, c) && IsVersion(db, v)
    requires db.rows[c].rubric == r && db.rows[v].rubric == r && db.rows[v].compilation == c
    requires db.rows[r].status != "published"
    ensures var f := PublishFlush(db, r, c, v, s, operation);
      GuardAccepts(db, f) <==>
        && db.rows[r].status == "review" && operation == Some(Publish)
        && CompleteSigning(db, c, s) && NewSigning(db, c, s)
  {
    hide StatusOk, ContentOk, SignoffOk, Constraints, RubricIds, HasProvenance;
    var f := PublishFlush(db, r, c, v, s, operation);
    PublishCandidates(db, r, c, v, s, operation);
    PublishStatus(db, r, c, v, s, operation);
    forall x | x in Candidates(db, f) ensures operation == Some(Publish) ==> ContentOk(db, f, x) {
      PublishContent(db, r, c, v, s, operation, x);
    }
    PublishSignoff(db, r, c, v, s, operation);
  }

  lemma PublishCandidates(db: Graph, r: Id, c: Id, v: Id, s: Signing, operation: Option<Operation>)
    requires IsRubric(db, r) && IsCompilation(db, c) && IsVersion(db, v)
    requires db.rows[c].rubric == r && db.rows[v].rubric == r && db.rows[r].status != "published"
    ensures var f := PublishFlush(db, r, c, v, s, operation);
      && New(db, f) == {} && r in Candidates(db, f) && Candidates(db, f) <= {r, c, v}
      && HasProvenance(db, f, r) && Transitioning(db, f) == {r}
      && RubricIds(db, f, r) == RubricIds(db, f, c) == RubricIds(db, f, v) == {r}
  {
    hide CurrentRubricId, DatabaseRubricId;
    var f := PublishFlush(db, r, c, v, s, operation);
    assert f.pending.rows[r].status == "published" && Changed(db, f, r);
    Provenance(db, r);
    OneRubric(db, f, r, c, v);
  }

  // The first loop: the rubric is the only one among the candidates.
  lemma PublishStatus(db: Graph, r: Id, c: Id, v: Id, s: Signing, operation: Option<Operation>)
    requires IsRubric(db, r) && IsCompilation(db, c) && IsVersion(db, v) && db.rows[r].status != "published"
    requires var f := PublishFlush(db, r, c, v, s, operation);
      New(db, f) == {} && HasProvenance(db, f, r) && r in Candidates(db, f) && Candidates(db, f) <= {r, c, v}
    ensures var f := PublishFlush(db, r, c, v, s, operation);
      (forall x :: x in Candidates(db, f) ==> StatusOk(db, f, x)) <==>
        db.rows[r].status == "review" && operation == Some(Publish)
  {
    hide HasProvenance, ImportOk, Candidates;
    StatusWords();
  }

  // The second loop.
  lemma PublishContent(db: Graph, r: Id, c: Id, v: Id, s: Signing, operation: Option<Operation>, x: Id)
    requires IsRubric(db, r) && IsCompilation(db, c) && IsVersion(db, v) && db.rows[r].status != "published"
    requires x == r || x == c || x == v
    requires var f := PublishFlush(db, r, c, v, s, operation); RubricIds(db, f, x) == {r}
    ensures operation == Some(Publish) ==> ContentOk(db, PublishFlush(db, r, c, v, s, operation), x)
  {
    hide RubricIds, HasProvenance, Transitioning;
  }

  lemma OneRubric(db: Graph, f: Flush, r: Id, c: Id, v: Id)
    requires IsRubric(db, r) && IsCompilation(db, c) && IsVersion(db, v)
    requires IsRubric(f.pending, r) && IsCompilation(f.pending, c) && IsVersion(f.pending, v)
    requires db.rows[c].rubric == f.pending.rows[c].rubric == r && db.rows[v].rubric == f.pending.rows[v].rubric == r
    ensures RubricIds(db, f, r) == RubricIds(db, f, c) == RubricIds(db, f, v) == {r}
  {
    assert CurrentRubricId(f.pending, r) == Some(r);
  }

  lemma PublishSignoff(db: Graph, r: Id, c: Id, v: Id, s: Signing, operation: Option<Operation>)
    requires Constraints(db) && IsRubric(db, r) && IsCompilation(db, c) && IsVersion(db, v)
    requires db.rows[c].rubric == r && db.rows[v].rubric == r && db.rows[v].compilation == c
    requires var f := PublishFlush(db, r, c, v, s, operation); Candidates(db, f) <= {r, c, v}
    requires var f := PublishFlush(db, r, c, v, s, operation); RubricIds(db, f, c) == {r}
    ensures SignoffOk(db, PublishFlush(db, r, c, v, s, operation), r) <==>
      CompleteSigning(db, c, s) && NewSigning(db, c, s)
  {
    var f := PublishFlush(db, r, c, v, s, operation);
    VersionOfRubric(db, c, v);
    hide Constraints, RubricIds;
    assert SignoffColumnsChanged(db, f, c) <==> NewSigning(db, c, s);
    if NewSigning(db, c, s) {
      assert Changed(db, f, c) && c in Dirty(db, f);
      assert SignedCompilations(db, f, r) == {c};
      assert VersionsOf(db, f, c) == {v};
      assert SignoffComplete(f, r, c, v) <==> CompleteSigning(db, c, s);
    } else {
      assert SignedCompilations(db, f, r) == {};
    }
  }

  // ----- edits without a status change

  // What a flush edits: it adds, deletes or changes the row, or one of its content relationships.
  ghost predicate Edits(db: Graph, f: Flush, x: Id) {
    x in f.pending.rows && (x !in db.rows || x in f.deleted || f.pending.rows[x] != db.rows[x] || x in f.related)
  }

  ghost predicate EditsGraph(db: Graph, f: Flush, x: Id, r: Id) {
    Edits(db, f, x) && (InGraph(db, x, r) || InGraph(f.pending, x, r))
  }

  // A compilation of the rubric is stored, or is added by the flush.
  ghost predicate HasCompilation(db: Graph, f: Flush, r: Id) {
    || HasStoredCompilation(db, r)
    || exists c :: IsCompilation(f.pending, c) && c !in db.rows && InGraph(f.pending, c, r)
  }

  lemma ProvenanceIff(db: Graph, f: Flush, r: Id)
    requires Session(db, f)
    ensures HasProvenance(db, f, r) <==> HasCompilation(db, f, r)
  {
    hide CurrentRubricId;
    if HasStoredCompilation(db, r) { Provenance(db, r); }
    if StoredProvenance(db, r) {
      var c :| c in db.rows.Keys && db.rows[c].Compilation? && db.rows[c].rubric == r;
      assert IsCompilation(db, c);
    }
    if NewProvenance(db, f, r) {
      var c :| c in New(db, f) && c !in f.deleted && IsCompilation(f.pending, c)
        && CurrentRubricId(f.pending, c) == Some(r);
      assert InGraph(f.pending, c, r);
    }
    if c :| IsCompilation(f.pending, c) && c !in db.rows && InGraph(f.pending, c, r) {
      assert c in New(db, f) && c !in f.deleted;
    }
  }

  /** A flush that neither adds rubrics nor changes a status passes exactly when nothing it edits belongs,
      before or after, to a published rubric with a compilation; so drafts are free to edit. */
  lemma EditsPassIff(db: Graph, f: Flush)
    requires Session(db, f) && Constraints(db)
    requires forall x :: IsRubric(f.pending, x) ==> IsRubric(db, x) && db.rows[x].status == f.pending.rows[x].status
    requires forall x :: IsRubric(db, x) ==> db.rows[x].status in {"draft", "review", "published"}
    ensures GuardAccepts(db, f) <==> forall x, r ::
      EditsGraph(db, f, x, r) && IsRubric(db, r) && db.rows[r].status == "published" ==> !HasCompilation(db, f, r)
  {
    hide HasProvenance, CurrentRubricId, DatabaseRubricId, ContentOk, SignoffOk, Constraints, HasCompilation, InGraph;
    assert Transitioning(db, f) == {};
    forall x | x in Candidates(db, f) ensures StatusOk(db, f, x) { }
    forall x | x in Candidates(db, f)
      ensures ContentOk(db, f, x) <==> forall r ::
        EditsGraph(db, f, x, r) && IsRubric(db, r) && db.rows[r].status == "published" ==> !HasCompilation(db, f, r) {
      EditDecided(db, f, x);
    }
    forall x, r | EditsGraph(db, f, x, r) ensures x in Candidates(db, f) { }
  }

  lemma EditDecided(db: Graph, f: Flush, x: Id)
    requires Session(db, f) && Constraints(db) && x in Candidates(db, f) && Transitioning(db, f) == {}
    ensures ContentOk(db, f, x) <==> forall r ::
      EditsGraph(db, f, x, r) && IsRubric(db, r) && db.rows[r].status == "published" ==> !HasCompilation(db, f, r)
  {
    hide HasProvenance, HasCompilation, Transitioning, Constraints, CurrentRubricId;
    forall r ensures HasProvenance(db, f, r) <==> HasCompilation(db, f, r) { ProvenanceIff(db, f, r); }
    if x in f.pending.rows && IsContent(f.pending.rows[x]) {
      forall r ensures r in RubricIds(db, f, x) <==> InGraph(db, x, r) || InGraph(f.pending, x, r) {
        BelongsIff(db, f, x, r);
      }
    } else if x in db.rows {
      KindKeepsContent(db.rows[x], f.pending.rows[x]);
    }
    hide RubricIds;
  }

  lemma BelongsIff(db: Graph, f: Flush, x: Id, r: Id)
    requires Session(db, f) && Constraints(db) && x in f.pending.rows && IsContent(f.pending.rows[x])
    ensures r in RubricIds(db, f, x) <==> InGraph(db, x, r) || InGraph(f.pending, x, r)
  {
    hide CurrentRubricId, DatabaseRubricId, Constraints;
    if x in db.rows {
      JoinsAgree(db, x);
      KindKeepsContent(db.rows[x], f.pending.rows[x]);
    } else {
      NotStored(db, x);
    }
  }

  lemma NotStored(db: Graph, x: Id)
    requires x !in db.rows
    ensures DatabaseRubricId(db, x) == None
  {
  }

  // ----- a new rubric with its whole graph

  // The flush adds rows and changes none: one rubric, and content of that rubric only.
  ghost predicate AddsRubric(db: Graph, f: Flush, r: Id) {
    && f.deleted == {} && f.touched == {} && f.related !! db.rows.Keys
    && (forall x :: x in db.rows && x in f.pending.rows ==> f.pending.rows[x] == db.rows[x])
    && IsRubric(f.pending, r) && r !in db.rows
    && forall x :: x in f.pending.rows && x !in db.rows && IsContent(f.pending.rows[x]) ==>
         InGraph(f.pending, x, r) && (f.pending.rows[x].Rubric? ==> x == r)
  }

  ghost predicate UserOf(g: Graph, user: Option<Id>) { user.Some? && IsUser(g, user.value) }

  ghost predicate HexDigest(s: string) {
    |s| == 64 && forall i :: 0 <= i < |s| ==> '0' <= s[i] <= '9' || 'a' <= s[i] <= 'f'
  }

  // What the rubric, its compilation and its version must say: one date, known users, one hash.
  ghost predicate SignedRows(g: Graph, r: Id, c: Id, v: Id)
    requires IsRubric(g, r) && IsCompilation(g, c) && IsVersion(g, v)
  {
    var rubric, compilation, version := g.rows[r], g.rows[c], g.rows[v];
    && rubric.rubricPublishedAt.Some? && UserOf(g, rubric.createdBy)
    && compilation.rubric == r && compilation.compileStatus == "validated"
    && UserOf(g, compilation.createdBy) && UserOf(g, compilation.reviewedBy)
    && compilation.reviewedAt == rubric.rubricPublishedAt && compilation.publishedAt == rubric.rubricPublishedAt
    && version.rubric == r && version.compilation == c && UserOf(g, version.createdBy)
    && compilation.finalHash == Some(version.hash) && HexDigest(version.hash)
    && NotBlank(version.workflow) && NotBlank(version.profile)
    && (version.scheme == "rubric-content-v2" || (version.scheme == "rubric-content-v1" && version.profile == "thesis"))
  }

  ghost predicate Names(g: Graph, b: Id, r: Option<Id>, v: Option<Id>) {
    b in g.rows && g.rows[b].Batch? && (r.Some? ==> g.rows[b].batchRubric == r)
      && (v.Some? ==> g.rows[b].batchVersion == v)
  }

  // The only compilation and the only version of it that the flush adds, signed, and pinned by new batches.
  ghost predicate SignedImport(db: Graph, f: Flush, r: Id, c: Id, v: Id) {
    var g := f.pending;
    && IsRubric(g, r) && IsCompilation(g, c) && IsVersion(g, v) && c !in db.rows && v !in db.rows
    && SignedRows(g, r, c, v)
    && (forall d :: IsCompilation(g, d) && d !in db.rows ==> d == c)
    && (forall w :: IsVersion(g, w) && w !in db.rows && g.rows[w].compilation == c ==> w == v)
    && (exists b :: b !in db.rows && Names(g, b, Some(r), Some(v)))
    && (forall b :: b !in db.rows && (Names(g, b, Some(r), None) || Names(g, b, None, Some(v))) ==>
          Names(g, b, Some(r), Some(v)))
  }

  /** A flush that adds one rubric with its graph is taken exactly when its rows fit the constraints and the
      lineage rules, and the rubric has no compilation, or is a draft, or is published with a signed import. */
  lemma ImportTakenIff(db: Graph, f: Flush, r: Id)
    requires Session(db, f) && Sound(db) && AddsRubric(db, f, r)
    ensures Taken(db, f) <==>
      && Constraints(After(f)) && Lineage(After(f))
      && (|| (forall c :: IsCompilation(f.pending, c) ==> c in db.rows)
          || f.pending.rows[r].status == "draft"
          || (f.pending.rows[r].status == "published" && exists c, v :: SignedImport(db, f, r, c, v)))
  {
    hide Taken, Constraints, Lineage, LineageAccepts, GuardAccepts, SignedImport;
    TakenUnfolds(db, f);
    IncrementalIsWholeAdds(db, f);
    ImportDecision(db, f, r);
  }

  lemma IncrementalIsWholeAdds(db: Graph, f: Flush)
    requires Session(db, f) && Sound(db) && f.deleted == {}
    ensures Constraints(After(f)) ==> (LineageAccepts(db, f) <==> Lineage(After(f)))
  {
    hide Constraints, Lineage, LineageAccepts;
    if Constraints(After(f)) { IncrementalIsWholeGraph(db, f); }
  }

  lemma ImportDecision(db: Graph, f: Flush, r: Id)
    requires Session(db, f) && Constraints(db) && AddsRubric(db, f, r)
    ensures GuardAccepts(db, f) <==>
      || (forall c :: IsCompilation(f.pending, c) ==> c in db.rows)
      || f.pending.rows[r].status == "draft"
      || (f.pending.rows[r].status == "published" && exists c, v :: SignedImport(db, f, r, c, v))
  {
    hide SignedImport, ImportOk, SignoffOk, CurrentRubricId, DatabaseRubricId, OnlyAllowedColumns;
    var g := f.pending;
    assert Candidates(db, f) == New(db, f);
    assert r in New(db, f) && Transitioning(db, f) == {};
    ImportProvenance(db, f, r);
    forall x | x in New(db, f) ensures ContentOk(db, f, x) { NewContentOk(db, f, r, x); }
    forall x | x in New(db, f) && x != r ensures StatusOk(db, f, x) { }
    if f.pending.rows[r].status == "published" { ImportOkIff(db, f, r); }
    StatusWords();
  }

  lemma ImportProvenance(db: Graph, f: Flush, r: Id)
    requires Session(db, f) && Constraints(db) && AddsRubric(db, f, r)
    ensures HasProvenance(db, f, r) <==> exists c :: IsCompilation(f.pending, c) && c !in db.rows
  {
    hide CurrentRubricId;
    forall c | c in db.rows.Keys && db.rows[c].Compilation? ensures db.rows[c].rubric != r {
      assert References(db, db.rows[c]);
    }
    if c :| IsCompilation(f.pending, c) && c !in db.rows {
      assert c in New(db, f) && c !in f.deleted && InGraph(f.pending, c, r);
    }
  }

  lemma NewContentOk(db: Graph, f: Flush, r: Id, x: Id)
    requires Session(db, f) && AddsRubric(db, f, r) && x in New(db, f) && Transitioning(db, f) == {}
    ensures ContentOk(db, f, x)
  {
    hide HasProvenance, CurrentRubricId, Transitioning;
    if IsContent(f.pending.rows[x]) {
      NotStored(db, x);
      assert InGraph(f.pending, x, r);
      assert RubricIds(db, f, x) == {r};
    }
  }

  lemma ImportOkIff(db: Graph, f: Flush, r: Id)
    requires Session(db, f) && AddsRubric(db, f, r) && Candidates(db, f) == New(db, f)
    requires f.pending.rows[r].status == "published"
    ensures ImportOk(db, f, r) <==> exists c, v :: SignedImport(db, f, r, c, v)
  {
    hide ImportOk, ImportFor, SignedImport;
    OkIsFor(db, f, r);
    forall c, v ensures ImportFor(db, f, r, c, v) <==> SignedImport(db, f, r, c, v) {
      ImportForIff(db, f, r, c, v);
    }
  }

  // The check on one choice of compilation and version.
  ghost predicate ImportFor(db: Graph, f: Flush, r: Id, c: Id, v: Id) {
    && |ImportedCompilations(db, f, r)| == 1 && c in ImportedCompilations(db, f, r)
    && |ImportedVersions(db, f, c)| == 1 && v in ImportedVersions(db, f, c)
    && ImportComplete(f, r, c, v) && PinnedBatchesOk(db, f, r, v)
  }

  lemma OkIsFor(db: Graph, f: Flush, r: Id)
    requires Session(db, f) && f.deleted == {} && Candidates(db, f) == New(db, f)
    ensures ImportOk(db, f, r) <==> exists c, v :: ImportFor(db, f, r, c, v)
  {
    hide ImportComplete, PinnedBatchesOk, ImportedCompilations, ImportedVersions, RubricIds, Candidates, Session;
    if ImportOk(db, f, r) {
      var c :| c in ImportedCompilations(db, f, r) && |ImportedVersions(db, f, c)| == 1
        && exists v | v in ImportedVersions(db, f, c) :: ImportComplete(f, r, c, v) && PinnedBatchesOk(db, f, r, v);
      var v :| v in ImportedVersions(db, f, c) && ImportComplete(f, r, c, v) && PinnedBatchesOk(db, f, r, v);
      assert ImportFor(db, f, r, c, v);
    }
  }

  lemma ImportForIff(db: Graph, f: Flush, r: Id, c: Id, v: Id)
    requires Session(db, f) && AddsRubric(db, f, r) && f.pending.rows[r].status == "published"
    ensures ImportFor(db, f, r, c, v) <==> SignedImport(db, f, r, c, v)
  {
    hide CurrentRubricId, PinnedBatchesOk, Names, AddsRubric, Session;
    var g := f.pending;
    var shaped := IsCompilation(g, c) && c !in db.rows && IsVersion(g, v) && v !in db.rows
      && g.rows[v].compilation == c;
    assert IsRubric(g, r) && r !in db.rows by { NewRubric(db, f, r); }
    if shaped {
      ImportedOnly(db, f, r, c);
      VersionsOnly(db, f, c, v);
      CompleteIsSigned(f, r, c, v);
      PinnedIff(db, f, r, v);
      hide ImportedCompilations, ImportedVersions, ImportComplete, SignedRows;
    }
  }

  lemma NewRubric(db: Graph, f: Flush, r: Id)
    requires AddsRubric(db, f, r)
    ensures IsRubric(f.pending, r) && r !in db.rows
  {
  }

  lemma OnlyMember(s: set<Id>, x: Id)
    requires x in s
    ensures |s| == 1 <==> s == {x}
  {
    var rest := s - {x};
    assert s == rest + {x};
    assert |s| == |rest| + 1;
  }

  lemma ImportedOnly(db: Graph, f: Flush, r: Id, c: Id)
    requires Session(db, f) && AddsRubric(db, f, r) && IsCompilation(f.pending, c) && c !in db.rows
    ensures c in ImportedCompilations(db, f, r)
    ensures |ImportedCompilations(db, f, r)| == 1 <==>
      forall d :: IsCompilation(f.pending, d) && d !in db.rows ==> d == c
  {
    hide CurrentRubricId;
    forall d | IsCompilation(f.pending, d) && d !in db.rows ensures d in ImportedCompilations(db, f, r) {
      assert InGraph(f.pending, d, r);
    }
    OnlyMember(ImportedCompilations(db, f, r), c);
  }

  lemma VersionsOnly(db: Graph, f: Flush, c: Id, v: Id)
    requires IsVersion(f.pending, v) && v !in db.rows && f.pending.rows[v].compilation == c
    ensures v in ImportedVersions(db, f, c)
    ensures |ImportedVersions(db, f, c)| == 1 <==>
      forall w :: IsVersion(f.pending, w) && w !in db.rows && f.pending.rows[w].compilation == c ==> w == v
  {
    forall w | IsVersion(f.pending, w) && w !in db.rows && f.pending.rows[w].compilation == c
      ensures w in ImportedVersions(db, f, c) {
    }
    OnlyMember(ImportedVersions(db, f, c), v);
  }

  lemma CompleteIsSigned(f: Flush, r: Id, c: Id, v: Id)
    requires IsRubric(f.pending, r) && IsCompilation(f.pending, c) && IsVersion(f.pending, v)
    ensures ImportComplete(f, r, c, v) <==> SignedRows(f.pending, r, c, v) && f.pending.rows[r].status == "published"
  {
    hide NotBlank, LowerHexDigest, HexDigest;
    HexIff(f.pending.rows[v].hash);
    assert "rubric-content-v1"[16] != "rubric-content-v2"[16];
  }

  lemma HexIff(s: string)
    ensures LowerHexDigest(s) <==> HexDigest(s)
  {
    forall i | 0 <= i < |s| ensures s[i] in "0123456789abcdef" <==> '0' <= s[i] <= '9' || 'a' <= s[i] <= 'f' {
      HexChar(s[i]);
    }
  }

  lemma HexChar(c: char)
    ensures c in "0123456789abcdef" <==> '0' <= c <= '9' || 'a' <= c <= 'f'
  {
    var hex := "0123456789abcdef";
    if '0' <= c <= '9' {
      assert hex[c as int - 48] == c;
    } else if 'a' <= c <= 'f' {
      assert hex[c as int - 97 + 10] == c;
    }
  }

  lemma PinnedIff(db: Graph, f: Flush, r: Id, v: Id)
    ensures PinnedBatchesOk(db, f, r, v) <==>
      && (exists b :: b !in db.rows && Names(f.pending, b, Some(r), Some(v)))
      && forall b :: b !in db.rows && (Names(f.pending, b, Some(r), None) || Names(f.pending, b, None, Some(v))) ==>
           Names(f.pending, b, Some(r), Some(v))
  {
    var g := f.pending;
    var pinned := set b | b in New(db, f) && g.rows[b].Batch?
      && (g.rows[b].batchRubric == Some(r) || g.rows[b].batchVersion == Some(v));
    forall b ensures b in pinned <==> b !in db.rows && (Names(g, b, Some(r), None) || Names(g, b, None, Some(v))) { }
    if PinnedBatchesOk(db, f, r, v) {
      var b :| b in pinned;
      assert Names(g, b, Some(r), Some(v));
    }
  }
}
