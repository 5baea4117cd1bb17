/** Runs of flushes over the rubric store: what holds in every reachable state. */
module RubricRuns {
  import opened Wrappers
  import opened RubricGraph
  import opened LineageGuard
  import opened PublishGuard
  import opened PublishedGraph
  import opened FrozenVersion

  // A flush is written when both listeners and the database take it, and leaves no trace otherwise.
  ghost predicate Taken(db: Graph, f: Flush) {
    Session(db, f) && LineageAccepts(db, f) && GuardAccepts(db, f) && Constraints(After(f))
  }

  ghost function Step(db: Graph, f: Flush): Graph {
    if Taken(db, f) then After(f) else db
  }

  ghost predicate Sound(db: Graph) {
    Constraints(db) && Lineage(db)
  }

  // ----- the store

  class RubricStore {
    var db: Graph

    ghost predicate Valid()
      reads this
    {
      Sound(db)
    }

    constructor ()
      ensures Valid() && db == Graph(map[], {})
    {
      db := Graph(map[], {});
    }

    // `session.flush()`: `candidates` is the session's enumeration of what it changed, and
    // `databaseTakes` the verdict of the database on the rows to be written.
    method FlushSession(f: Flush, candidates: seq<Id>, withDeleted: seq<Id>, databaseTakes: bool)
      returns (written: bool)
      requires Valid() && Session(db, f)
      requires forall x :: x in candidates <==> x in New(db, f) || x in Dirty(db, f)
      requires forall x :: x in withDeleted <==> x in Candidates(db, f)
      requires databaseTakes <==> Constraints(After(f))
      modifies this
      ensures Valid()
      ensures db == Step(old(db), f)
      ensures written <==> Taken(old(db), f)
    {
      hide LineageAccepts, GuardAccepts, Constraints, Lineage, Session;
      ghost var was := db;
      written := ValidateAtomicRuleLineage(db, f, candidates);
      if written { written := ProtectPublishedRubricGraph(db, f, withDeleted); }
      if written && databaseTakes {
        IncrementalIsSound(db, f);
        db := After(f);
      } else {
        written := false;
      }
    }
  }

  // ----- runs

  ghost predicate Run(states: seq<Graph>, flushes: seq<Flush>) {
    && |states| == |flushes| + 1
    && forall i :: 0 <= i < |flushes| ==> states[i + 1] == Step(states[i], flushes[i])
  }

  lemma StepIsAccepted(db: Graph, f: Flush)
    requires Sound(db) && Taken(db, f)
    ensures Accepted(db, f) && Sound(After(f))
  {
    IncrementalIsSound(db, f);
  }

  /** Every reachable state satisfies the lineage rules and the database's own constraints. */
  lemma {:induction false} RunStaysSound(states: seq<Graph>, flushes: seq<Flush>, i: nat)
    requires Run(states, flushes) && Sound(states[0]) && i < |states|
    ensures Sound(states[i])
  {
    hide Taken, Constraints, Lineage;
    if i > 0 {
      RunStaysSound(states, flushes, i - 1);
      assert states[i - 1 + 1] == Step(states[i - 1], flushes[i - 1]);
      if Taken(states[i - 1], flushes[i - 1]) { StepIsAccepted(states[i - 1], flushes[i - 1]); }
    }
  }

  // Two states hold the same graph of a rubric: members, rows and associations.
  ghost predicate SameGraph(g: Graph, h: Graph, r: Id) {
    && (forall x :: InGraph(g, x, r) <==> InGraph(h, x, r))
    && (forall x :: InGraph(g, x, r) ==> x in h.rows && h.rows[x] == g.rows[x])
    && (forall a, b :: InGraph(g, a, r) || InGraph(g, b, r) ==> ((a, b) in g.sources <==> (a, b) in h.sources))
  }

  lemma PublishedStep(db: Graph, f: Flush, r: Id)
    requires Sound(db) && PublishedFormally(db, r)
    ensures PublishedFormally(Step(db, f), r) && SameGraph(db, Step(db, f), r)
  {
    hide Taken, PublishedFormally, InGraph, Sound;
    if Taken(db, f) {
      StepIsAccepted(db, f);
      PublishedIsImmutable(db, f, r);
    } else {
      assert forall x :: InGraph(db, x, r) ==> x in db.rows by { Members(db, r); }
    }
  }

  lemma Members(db: Graph, r: Id)
    ensures forall x :: InGraph(db, x, r) ==> x in db.rows
  {
  }

  lemma SameGraphTransitive(g: Graph, h: Graph, k: Graph, r: Id)
    requires SameGraph(g, h, r) && SameGraph(h, k, r)
    ensures SameGraph(g, k, r)
  {
    hide InGraph;
  }

  /** Published for good: from the state in which a rubric with provenance is published, its graph
      is the same in every later state of every run. */
  lemma {:induction false} PublishedForGood(states: seq<Graph>, flushes: seq<Flush>, i: nat, j: nat, r: Id)
    requires Run(states, flushes) && Sound(states[0]) && i <= j < |states|
    requires PublishedFormally(states[i], r)
    ensures PublishedFormally(states[j], r) && SameGraph(states[i], states[j], r)
    decreases j
  {
    hide InGraph, PublishedFormally, Step, Sound;
    if i == j {
      Members(states[i], r);
    } else {
      PublishedForGood(states, flushes, i, j - 1, r);
      RunStaysSound(states, flushes, j - 1);
      assert states[j - 1 + 1] == Step(states[j - 1], flushes[j - 1]);
      PublishedStep(states[j - 1], flushes[j - 1], r);
      SameGraphTransitive(states[i], states[j - 1], states[j], r);
    }
  }

  /** In a run, the status of a rubric with provenance only moves draft to review, review to draft
      or review to published, each under its own operation key. */
  lemma StatusMoves(states: seq<Graph>, flushes: seq<Flush>, i: nat, r: Id)
    requires Run(states, flushes) && Sound(states[0]) && i < |flushes|
    requires IsRubric(states[i], r) && IsRubric(states[i + 1], r) && StoredProvenance(states[i], r)
    requires states[i].rows[r].status != states[i + 1].rows[r].status
    ensures var was, now := states[i].rows[r].status, states[i + 1].rows[r].status;
      || (was == "draft" && now == "review" && flushes[i].operation == Some(SubmitForReview))
      || (was == "review" && now == "draft" && flushes[i].operation == Some(ReturnToDraft))
      || (was == "review" && now == "published" && flushes[i].operation == Some(Publish))
    ensures GraphKept(states[i], flushes[i], r)
  {
    hide Taken, Sound, StoredProvenance, NewProvenance, GraphKept;
    RunStaysSound(states, flushes, i);
    assert states[i + 1] == Step(states[i], flushes[i]);
    StepIsAccepted(states[i], flushes[i]);
    TransitionIsClean(states[i], flushes[i], r);
  }

  // No flush of the run that is taken adopts a rubric.
  ghost predicate NoAdoption(states: seq<Graph>, flushes: seq<Flush>)
    requires |states| == |flushes| + 1
  {
    forall k, r :: 0 <= k < |flushes| && Taken(states[k], flushes[k]) ==> !Adopts(states[k], flushes[k], r)
  }

  /** In a run without adoptions, published means frozen in every state. */
  lemma {:induction false} RunPublishedMeansFrozen(states: seq<Graph>, flushes: seq<Flush>, i: nat)
    requires Run(states, flushes) && Sound(states[0]) && PublishedMeansFrozen(states[0]) && i < |states|
    requires NoAdoption(states, flushes)
    ensures PublishedMeansFrozen(states[i])
  {
    hide Taken, Sound, PublishedMeansFrozen, Adopts;
    if i > 0 {
      RunPublishedMeansFrozen(states, flushes, i - 1);
      RunStaysSound(states, flushes, i - 1);
      assert states[i - 1 + 1] == Step(states[i - 1], flushes[i - 1]);
      if Taken(states[i - 1], flushes[i - 1]) {
        StepIsAccepted(states[i - 1], flushes[i - 1]);
        PublishedMeansFrozenIff(states[i - 1], flushes[i - 1]);
      }
    }
  }

  lemma EmptyStoreIsFine(db: Graph)
    requires db == Graph(map[], {})
    ensures Sound(db) && PublishedMeansFrozen(db)
  {
  }

  /** From the empty database on, in every state of a run without adoptions, the batch resolver
      finds the frozen version of a published rubric with a single compilation. */
  lemma ReachableResolves(states: seq<Graph>, flushes: seq<Flush>, i: nat, r: Id, formal: seq<Id>)
    requires Run(states, flushes) && states[0] == Graph(map[], {}) && NoAdoption(states, flushes) && i < |states|
    requires PublishedFormally(states[i], r) && FormalVersions(states[i], r, formal)
    requires OneCompilation(states[i], r)
    ensures var result := ResolveBatchVersion(states[i], r, None, formal);
      result.Ok? && result.value.Some? && IsFrozenVersion(states[i], r, result.value.value)
  {
    hide Step, PublishedMeansFrozen, PublishedFormally, Lineage, Constraints, NoAdoption, IsFrozenVersion,
      ResolveBatchVersion, OneCompilation;
    EmptyStoreIsFine(states[0]);
    RunStaysSound(states, flushes, i);
    RunPublishedMeansFrozen(states, flushes, i);
    ResolverFindsFrozen(states[i], r, formal);
  }

  // ----- an adoption

  // A legacy rubric is published without provenance; a draft's compilation is moved onto it.
  ghost function AdoptionBefore(): Graph {
    Graph(map[
      Id(0) := Rubric("published", None, None, None, ""),
      Id(1) := Rubric("draft", None, None, None, ""),
      Id(2) := Compilation(Id(1), "created", None, None, None, None, Some(Id(3)), 0, ""),
      Id(3) := User("")],
      {})
  }

  ghost function AdoptionFlush(): Flush {
    var moved := Compilation(Id(0), "created", None, None, None, None, Some(Id(3)), 0, "");
    Flush(Graph(AdoptionBefore().rows[Id(2) := moved], {}),
      {}, {}, {}, None)
  }

  lemma AdoptionSession()
    ensures Session(AdoptionBefore(), AdoptionFlush())
    ensures After(AdoptionFlush()) == AdoptionFlush().pending
  {
    var f := AdoptionFlush();
    assert After(f).rows == f.pending.rows && After(f).sources == f.pending.sources;
  }

  // Two rubrics, a compilation of one of them and its creator satisfy everything.
  lemma FourRows(g: Graph, owner: Id)
    requires owner == Id(0) || owner == Id(1)
    requires g == Graph(map[
      Id(0) := Rubric("published", None, None, None, ""),
      Id(1) := Rubric("draft", None, None, None, ""),
      Id(2) := Compilation(owner, "created", None, None, None, None, Some(Id(3)), 0, ""),
      Id(3) := User("")], {})
    ensures Sound(g)
  {
    hide References, Lineage;
    forall x | x in g.rows ensures References(g, g.rows[x]) { FourRowsRefer(g, owner, x); }
    assert Lineage(g) by { NothingLinked(g); }
  }

  lemma FourRowsRefer(g: Graph, owner: Id, x: Id)
    requires owner in g.rows && g.rows[owner].Rubric? && x in g.rows
    requires g.rows[x].Rubric? || g.rows[x].User? || (g.rows[x].Compilation? && g.rows[x].rubric == owner)
    ensures References(g, g.rows[x])
  {
  }

  lemma NothingLinked(g: Graph)
    requires g.sources == {} && forall x :: !IsRule(g, x) && !IsLink(g, x)
    ensures Lineage(g)
  {
  }

  lemma AdoptionIsPossible()
    ensures Session(AdoptionBefore(), AdoptionFlush()) && Sound(AdoptionBefore())
      && PublishedMeansFrozen(AdoptionBefore())
    ensures Constraints(After(AdoptionFlush()))
  {
    hide Session, Constraints, Lineage;
    AdoptionSession();
    FourRows(AdoptionBefore(), Id(1));
    FourRows(AdoptionFlush().pending, Id(0));
    assert !StoredProvenance(AdoptionBefore(), Id(0));
    assert "draft" != "published";
  }

  // Only the moved compilation is a candidate.
  lemma AdoptionCandidates()
    ensures var db, f := AdoptionBefore(), AdoptionFlush();
      New(db, f) == {} && Dirty(db, f) == Candidates(db, f) == {Id(2)}
  {
    var db, f := AdoptionBefore(), AdoptionFlush();
    assert New(db, f) == {};
    assert Dirty(db, f) == {Id(2)} by { assert Changed(db, f, Id(2)); }
  }

  lemma AdoptionIsTaken()
    ensures Taken(AdoptionBefore(), AdoptionFlush())
  {
    hide Session, Constraints;
    var db, f := AdoptionBefore(), AdoptionFlush();
    AdoptionIsPossible();
    AdoptionCandidates();
    AdoptionPassesGuard();
    assert LineageAccepts(db, f);
  }

  lemma AdoptionPassesGuard()
    ensures GuardAccepts(AdoptionBefore(), AdoptionFlush())
  {
    hide CandidateOk, Session, Constraints;
    var db, f := AdoptionBefore(), AdoptionFlush();
    AdoptionCandidates();
    assert !StoredProvenance(db, Id(0));
    assert ContentOk(db, f, Id(2)) by {
      assert RubricIds(db, f, Id(2)) <= {Id(0), Id(1)};
      assert Transitioning(db, f) == {};
      assert DbStatus(db, Id(1)) == Some("draft");
      assert "draft" != "published";
    }
  }

  /** An adoption is accepted, and leaves a published rubric with provenance and no frozen version. */
  lemma AdoptionBreaksFrozen()
    ensures var db, f := AdoptionBefore(), AdoptionFlush();
      && Sound(db) && PublishedMeansFrozen(db) && Taken(db, f)
      && Adopts(db, f, Id(0)) && !PublishedMeansFrozen(Step(db, f))
  {
    var db, f := AdoptionBefore(), AdoptionFlush();
    AdoptionIsPossible();
    AdoptionIsTaken();
    hide Taken, Sound, Session, Constraints;
    var g := After(f);
    assert Id(2) in g.rows.Keys;
    assert PublishedFormally(g, Id(0));
    assert forall v :: !IsVersion(g, v);
    assert New(db, f) == {} && !StoredProvenance(db, Id(0));
  }
}
