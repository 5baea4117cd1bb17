/** What the lifecycle guard guarantees about one flush: a published graph does not change, and a
    transition changes nothing in the graph beyond the columns of its operation. */
module PublishedGraph {
  import opened Wrappers
  import opened RubricGraph
  import opened LineageGuard
  import opened PublishGuard

  ghost predicate InGraph(g: Graph, x: Id, r: Id) {
    x in g.rows && IsContent(g.rows[x]) && CurrentRubricId(g, x) == Some(r)
  }

  // A flush that both listeners let through and the database takes.
  ghost predicate Accepted(db: Graph, f: Flush) {
    && Session(db, f) && Constraints(db) && Lineage(db)
    && LineageAccepts(db, f) && GuardAccepts(db, f) && Constraints(After(f))
  }

  // ----- the two ways to find the rubric agree where the foreign keys hold

  lemma ParentExists(g: Graph, x: Id)
    requires Constraints(g) && x in g.rows
    ensures Parent(g.rows[x]).Some? ==>
      Parent(g.rows[x]).value in g.rows && ParentFits(g.rows[x], g.rows[Parent(g.rows[x]).value])
  {
    assert References(g, g.rows[x]);
  }

  lemma {:induction false} JoinsAgree(g: Graph, x: Id)
    requires Constraints(g) && x in g.rows
    ensures DatabaseRubricId(g, x) == CurrentRubricId(g, x)
    decreases Depth(g.rows[x])
  {
    ParentExists(g, x);
    match Parent(g.rows[x])
    case None =>
    case Some(y) => JoinsAgree(g, y);
  }

  lemma {:induction false} SessionAgrees(f: Flush, x: Id)
    requires Constraints(After(f)) && x in After(f).rows
    ensures CurrentRubricId(f.pending, x) == CurrentRubricId(After(f), x)
    decreases Depth(After(f).rows[x])
  {
    ParentExists(After(f), x);
    match Parent(After(f).rows[x])
    case None =>
    case Some(y) => SessionAgrees(f, y);
  }

  lemma MembersAreSeen(db: Graph, f: Flush, x: Id, r: Id)
    requires Accepted(db, f)
    ensures InGraph(db, x, r) ==> r in RubricIds(db, f, x)
    ensures InGraph(After(f), x, r) ==> r in RubricIds(db, f, x)
  {
    if InGraph(db, x, r) { JoinsAgree(db, x); }
    if InGraph(After(f), x, r) { SessionAgrees(f, x); }
  }

  // ----- graphs whose content changes are only allowed columns

  // Every content change that touches r's graph is a permitted column update.
  ghost predicate OnlyUpdates(db: Graph, f: Flush, r: Id) {
    forall x :: x in f.pending.rows && IsContent(f.pending.rows[x]) && r in RubricIds(db, f, x)
      && ContentChange(db, f, x)
      ==> OperationChangeOk(db, f, x)
  }

  // The members stay, no one joins, and each row keeps all but the allowed columns.
  ghost predicate GraphKept(db: Graph, f: Flush, r: Id) {
    && (forall x :: InGraph(db, x, r) <==> InGraph(After(f), x, r))
    && (forall x :: InGraph(db, x, r) ==> KeptRow(db, f, x))
    && (forall a, b :: InGraph(db, a, r) || InGraph(db, b, r) ==>
         ((a, b) in db.sources <==> (a, b) in After(f).sources))
  }

  // What the operation may write, by what it must leave: of the rubric, all but the status and, when
  // publishing, the date and publisher; when publishing, also the sign-off columns of a compilation and the
  // hash of a version.
  ghost predicate LeavesTheRest(publishing: bool, was: Row, now: Row) {
    match (was, now)
    case (Rubric(_, p, q, u, t), Rubric(_, p', q', u', t')) => u == u' && t == t'
      && (publishing || (p == p' && q == q'))
    case (Compilation(r, s, _, _, _, _, u, d, t), Compilation(r', s', _, _, _, _, u', d', t')) =>
      was == now || (publishing && r == r' && s == s' && u == u' && d == d' && t == t')
    case (Version(r, c, _, w, p, s, u, t), Version(r', c', _, w', p', s', u', t')) =>
      was == now || (publishing && r == r' && c == c' && w == w' && p == p' && s == s' && u == u' && t == t')
    case _ => was == now
  }

  lemma AllowedColumnsMeaning(op: Option<Operation>, was: Row, now: Row)
    ensures was == now || OnlyAllowedColumns(op, was, now) <==> LeavesTheRest(op == Some(Publish), was, now)
  {
  }

  ghost predicate KeptRow(db: Graph, f: Flush, x: Id) {
    && x in db.rows && x in After(f).rows
    && (After(f).rows[x] == db.rows[x] || OnlyAllowedColumns(f.operation, db.rows[x], After(f).rows[x]))
  }

  lemma UpdatesKeepParents(op: Option<Operation>, was: Row, now: Row)
    requires was == now || OnlyAllowedColumns(op, was, now)
    ensures SameKind(was, now) && Parent(was) == Parent(now) && IsContent(was) == IsContent(now)
    ensures was.Version? ==> now.rubric == was.rubric && now.compilation == was.compilation
  {
  }

  // A row of either graph that changed only permitted columns is in both sets of rows.
  lemma MemberKept(db: Graph, f: Flush, x: Id, r: Id)
    requires Accepted(db, f) && OnlyUpdates(db, f, r) && (InGraph(db, x, r) || InGraph(After(f), x, r))
    ensures KeptRow(db, f, x) && x !in f.related
  {
    hide CurrentRubricId, RubricIds, OnlyAllowedColumns;
    MembersAreSeen(db, f, x, r);
    assert x in f.pending.rows;
    if x in db.rows { KindKeepsContent(db.rows[x], f.pending.rows[x]); }
    if ContentChange(db, f, x) { assert OperationChangeOk(db, f, x); }
  }

  lemma KindKeepsContent(a: Row, b: Row)
    requires SameKind(a, b)
    ensures IsContent(a) == IsContent(b) && Depth(a) == Depth(b)
  {
  }

  // A row other than a rubric is in a graph exactly when its parent is.
  lemma GraphStep(g: Graph, x: Id, r: Id)
    requires Constraints(g) && x in g.rows && IsContent(g.rows[x])
    ensures match Parent(g.rows[x])
      case None => InGraph(g, x, r) <==> x == r
      case Some(y) => y in g.rows && Depth(g.rows[y]) < Depth(g.rows[x]) && (InGraph(g, x, r) <==> InGraph(g, y, r))
  {
    hide Constraints;
    ParentExists(g, x);
  }

  lemma {:induction false} MemberStays(db: Graph, f: Flush, x: Id, r: Id)
    requires Accepted(db, f) && OnlyUpdates(db, f, r) && InGraph(db, x, r)
    ensures InGraph(After(f), x, r)
    decreases if x in db.rows then Depth(db.rows[x]) else 0
  {
    hide LineageAccepts, GuardAccepts, Lineage, Constraints, OnlyAllowedColumns, RubricIds, OnlyUpdates,
      CurrentRubricId;
    MemberKept(db, f, x, r);
    UpdatesKeepParents(f.operation, db.rows[x], After(f).rows[x]);
    GraphStep(db, x, r);
    GraphStep(After(f), x, r);
    match Parent(db.rows[x])
    case None =>
    case Some(y) => MemberStays(db, f, y, r);
  }

  lemma {:induction false} NobodyJoins(db: Graph, f: Flush, x: Id, r: Id)
    requires Accepted(db, f) && OnlyUpdates(db, f, r) && InGraph(After(f), x, r)
    ensures InGraph(db, x, r)
    decreases if x in After(f).rows then Depth(After(f).rows[x]) else 0
  {
    hide LineageAccepts, GuardAccepts, Lineage, Constraints, OnlyAllowedColumns, RubricIds, OnlyUpdates,
      CurrentRubricId;
    MemberKept(db, f, x, r);
    UpdatesKeepParents(f.operation, db.rows[x], After(f).rows[x]);
    GraphStep(db, x, r);
    GraphStep(After(f), x, r);
    match Parent(db.rows[x])
    case None =>
    case Some(y) => NobodyJoins(db, f, y, r);
  }

  lemma AssociationsStay(db: Graph, f: Flush, a: Id, b: Id, r: Id)
    requires Accepted(db, f) && OnlyUpdates(db, f, r) && (InGraph(db, a, r) || InGraph(db, b, r))
    ensures (a, b) in db.sources <==> (a, b) in After(f).sources
  {
    if InGraph(db, a, r) { MemberKept(db, f, a, r); } else { MemberKept(db, f, b, r); }
    assert (a, b) in f.pending.sources <==> (a, b) in db.sources;
    if (a, b) in db.sources {
      AssociationEndsStay(db, f, a, b, r);
    }
  }

  /** The lineage rules on a graph whose foreign keys hold, column by column. */
  lemma LineageMeaning(g: Graph)
    requires Constraints(g)
    ensures Lineage(g) <==>
      && (forall r :: IsRule(g, r) ==> RuleInOneRubric(g, r))
      && (forall r, s :: (r, s) in g.sources ==> FromOneCompilation(g, r, g.rows[s].artifact))
      && (forall l :: IsLink(g, l) ==> FromOneCompilation(g, g.rows[l].rule, g.rows[g.rows[l].item].artifact))
  {
    forall r | IsRule(g, r)
      ensures RuleCriterionOk(g, r) <==> RuleInOneRubric(g, r) { assert References(g, g.rows[r]); }
    forall r, s | (r, s) in g.sources ensures SourceOk(g, r, s) <==> FromOneCompilation(g, r, g.rows[s].artifact) {
      assert References(g, g.rows[r]) && References(g, g.rows[s]);
    }
    forall l | IsLink(g, l)
      ensures LinkOk(g, l) <==> FromOneCompilation(g, g.rows[l].rule, g.rows[g.rows[l].item].artifact) {
      assert References(g, g.rows[l]);
      assert References(g, g.rows[g.rows[l].rule]) && References(g, g.rows[g.rows[l].item]);
    }
  }

  ghost predicate RuleInOneRubric(g: Graph, r: Id)
    requires Constraints(g) && IsRule(g, r)
  {
    assert References(g, g.rows[r]);
    g.rows[g.rows[r].version].rubric == g.rows[g.rows[r].criterion].rubric
  }

  // The rule's version and the artifact come from one compilation.
  ghost predicate FromOneCompilation(g: Graph, r: Id, a: Id)
    requires Constraints(g) && IsRule(g, r) && IsArtifact(g, a)
  {
    assert References(g, g.rows[r]);
    g.rows[g.rows[r].version].compilation == g.rows[a].compilation
  }

  /** By lineage a rule's criterion lies in the rule's graph. */
  lemma RuleWithinGraph(db: Graph, x: Id, r: Id)
    requires Constraints(db) && Lineage(db) && IsRule(db, x)
    ensures InGraph(db, x, r) <==> InGraph(db, db.rows[x].criterion, r)
  {
    assert RuleCriterionOk(db, x);
    assert References(db, db.rows[x]);
    hide Lineage, Constraints;
    GraphStep(db, x, r);
    GraphStep(db, db.rows[x].version, r);
    GraphStep(db, db.rows[x].criterion, r);
  }

  /** By lineage a link's template item lies in the link's graph, and comes from the compilation of the
      version of the link's rule. */
  lemma LinkWithinGraph(db: Graph, l: Id, r: Id)
    requires Constraints(db) && Lineage(db) && IsLink(db, l)
    ensures var rule, item := db.rows[l].rule, db.rows[l].item;
      && IsRule(db, rule) && IsTemplateItem(db, item)
      && IsVersion(db, db.rows[rule].version) && IsArtifact(db, db.rows[item].artifact)
      && db.rows[db.rows[rule].version].compilation == db.rows[db.rows[item].artifact].compilation
      && (InGraph(db, l, r) <==> InGraph(db, item, r))
  {
    assert LinkOk(db, l);
    assert References(db, db.rows[l]);
    var rule, item := db.rows[l].rule, db.rows[l].item;
    assert References(db, db.rows[rule]) && References(db, db.rows[item]);
    var v, a := db.rows[rule].version, db.rows[item].artifact;
    assert References(db, db.rows[v]) && References(db, db.rows[a]);
    hide Lineage, Constraints, References;
    GraphStep(db, l, r);
    GraphStep(db, rule, r);
    GraphStep(db, v, r);
    GraphStep(db, item, r);
    GraphStep(db, a, r);
    GraphStep(db, db.rows[a].compilation, r);
  }

  // By lineage both ends of an association hang off one compilation, hence off one rubric.
  lemma AssociationWithinGraph(db: Graph, a: Id, b: Id, r: Id)
    requires Constraints(db) && Lineage(db) && (a, b) in db.sources
    ensures InGraph(db, a, r) <==> InGraph(db, b, r)
  {
    hide Lineage;
    assert SourceOk(db, a, b) by { AssociatedOk(db, a, b); }
    var v, artifact := db.rows[a].version, db.rows[b].artifact;
    assert References(db, db.rows[a]) && References(db, db.rows[b]);
    assert References(db, db.rows[v]) && References(db, db.rows[artifact]);
    var c := db.rows[artifact].compilation;
    assert References(db, db.rows[c]);
    assert CurrentRubricId(db, v) == Some(db.rows[v].rubric);
    assert CurrentRubricId(db, c) == CurrentRubricId(db, db.rows[c].rubric) == Some(db.rows[c].rubric);
    assert CurrentRubricId(db, artifact) == CurrentRubricId(db, c);
  }

  lemma AssociatedOk(db: Graph, a: Id, b: Id)
    requires Constraints(db) && Lineage(db) && (a, b) in db.sources
    ensures IsRule(db, a) && IsSourceRule(db, b) && SourceOk(db, a, b)
  {
  }

  lemma AssociationEndsStay(db: Graph, f: Flush, a: Id, b: Id, r: Id)
    requires Accepted(db, f) && OnlyUpdates(db, f, r) && (InGraph(db, a, r) || InGraph(db, b, r))
    requires (a, b) in db.sources
    ensures a !in f.deleted && b !in f.deleted
  {
    AssociationWithinGraph(db, a, b, r);
    MemberKept(db, f, a, r);
    MemberKept(db, f, b, r);
  }

  lemma UpdatesKeepGraph(db: Graph, f: Flush, r: Id)
    requires Accepted(db, f) && OnlyUpdates(db, f, r)
    ensures GraphKept(db, f, r)
  {
    hide Accepted, OnlyUpdates, InGraph, KeptRow;
    forall x ensures InGraph(db, x, r) <==> InGraph(After(f), x, r) {
      if InGraph(db, x, r) { MemberStays(db, f, x, r); }
      if InGraph(After(f), x, r) { NobodyJoins(db, f, x, r); }
    }
    forall x | InGraph(db, x, r) ensures KeptRow(db, f, x) { MemberKept(db, f, x, r); }
    forall a, b | InGraph(db, a, r) || InGraph(db, b, r)
      ensures (a, b) in db.sources <==> (a, b) in After(f).sources {
      AssociationsStay(db, f, a, b, r);
    }
  }

  // ----- published is absorbing

  ghost predicate PublishedFormally(g: Graph, r: Id) {
    IsRubric(g, r) && g.rows[r].status == "published" && StoredProvenance(g, r)
  }

  // Not one content change touches a published graph.
  lemma PublishedUntouched(db: Graph, f: Flush, r: Id, x: Id)
    requires Accepted(db, f) && PublishedFormally(db, r)
    requires x in f.pending.rows && IsContent(f.pending.rows[x]) && r in RubricIds(db, f, x)
    ensures !ContentChange(db, f, x)
  {
    hide RubricIds, StoredProvenance, NewProvenance, Transitioning;
    assert ContentChange(db, f, x) ==> x in Candidates(db, f);
  }

  /** Once a rubric with provenance is published, no accepted flush adds to its graph, takes from
      it, moves anything in or out of it, or edits a row or an association of it. */
  lemma PublishedIsImmutable(db: Graph, f: Flush, r: Id)
    requires Accepted(db, f) && PublishedFormally(db, r)
    ensures forall x :: InGraph(db, x, r) <==> InGraph(After(f), x, r)
    ensures forall x :: InGraph(db, x, r) ==> x in After(f).rows && After(f).rows[x] == db.rows[x]
    ensures forall a, b :: InGraph(db, a, r) || InGraph(db, b, r) ==>
      ((a, b) in db.sources <==> (a, b) in After(f).sources)
    ensures PublishedFormally(After(f), r)
  {
    hide RubricIds, CurrentRubricId;
    assert OnlyUpdates(db, f, r) by {
      forall x | x in f.pending.rows && IsContent(f.pending.rows[x]) && r in RubricIds(db, f, x)
        ensures !ContentChange(db, f, x) {
        PublishedUntouched(db, f, r, x);
      }
    }
    UpdatesKeepGraph(db, f, r);
    forall x | InGraph(db, x, r) ensures x in After(f).rows && After(f).rows[x] == db.rows[x] {
      MemberUnedited(db, f, r, x);
    }
    StaysPublished(db, f, r);
  }

  lemma MemberUnedited(db: Graph, f: Flush, r: Id, x: Id)
    requires Accepted(db, f) && PublishedFormally(db, r) && InGraph(db, x, r)
    ensures x in After(f).rows && After(f).rows[x] == db.rows[x]
  {
    hide RubricIds, CurrentRubricId;
    MembersAreSeen(db, f, x, r);
    KindKeepsContent(db.rows[x], f.pending.rows[x]);
    PublishedUntouched(db, f, r, x);
  }

  lemma CompilationInGraph(g: Graph, c: Id, r: Id)
    requires Constraints(g) && IsCompilation(g, c) && g.rows[c].rubric == r
    ensures InGraph(g, c, r) && InGraph(g, r, r)
  {
    assert References(g, g.rows[c]);
  }

  lemma StaysPublished(db: Graph, f: Flush, r: Id)
    requires Accepted(db, f) && PublishedFormally(db, r)
    ensures PublishedFormally(After(f), r)
  {
    hide InGraph, RubricIds;
    var c :| c in db.rows.Keys && db.rows[c].Compilation? && db.rows[c].rubric == r;
    CompilationInGraph(db, c, r);
    MemberUnedited(db, f, r, r);
    MemberUnedited(db, f, r, c);
    assert c in After(f).rows.Keys;
  }

  // ----- transitions

  /** A rubric that has provenance after the flush and keeps its stored compilations, or gains new
      ones, changes status only by the transition of the session's operation, and that flush
      changes nothing else in its graph than the columns the operation may write. */
  lemma TransitionIsClean(db: Graph, f: Flush, r: Id)
    requires Accepted(db, f) && HasProvenance(db, f, r)
    requires IsRubric(db, r) && IsRubric(After(f), r) && db.rows[r].status != After(f).rows[r].status
    ensures Transition(f.operation) == Some((db.rows[r].status, After(f).rows[r].status))
    ensures GraphKept(db, f, r)
    ensures forall x :: InGraph(db, x, r) ==>
      x in After(f).rows && LeavesTheRest(f.operation == Some(Publish), db.rows[x], After(f).rows[x])
  {
    hide RubricIds, HasProvenance, InGraph;
    assert r in Candidates(db, f);
    assert StatusOk(db, f, r);
    assert r in Transitioning(db, f);
    assert OnlyUpdates(db, f, r) by {
      forall x | x in f.pending.rows && IsContent(f.pending.rows[x]) && r in RubricIds(db, f, x)
        && ContentChange(db, f, x)
        ensures OperationChangeOk(db, f, x) {
        TransitionUpdate(db, f, r, x);
      }
    }
    UpdatesKeepGraph(db, f, r);
    forall x | InGraph(db, x, r)
      ensures x in After(f).rows && LeavesTheRest(f.operation == Some(Publish), db.rows[x], After(f).rows[x]) {
      RowOfKept(db, f, r, x);
    }
  }

  lemma RowOfKept(db: Graph, f: Flush, r: Id, x: Id)
    requires GraphKept(db, f, r) && InGraph(db, x, r)
    ensures x in After(f).rows && LeavesTheRest(f.operation == Some(Publish), db.rows[x], After(f).rows[x])
  {
    hide InGraph;
    assert KeptRow(db, f, x);
    AllowedColumnsMeaning(f.operation, db.rows[x], After(f).rows[x]);
  }

  lemma TransitionUpdate(db: Graph, f: Flush, r: Id, x: Id)
    requires Accepted(db, f) && r in Transitioning(db, f)
    requires x in f.pending.rows && IsContent(f.pending.rows[x]) && r in RubricIds(db, f, x) && ContentChange(db, f, x)
    ensures OperationChangeOk(db, f, x)
  {
    hide RubricIds, Transitioning, OperationChangeOk;
    assert x in Candidates(db, f);
    assert ContentOk(db, f, x);
    assert r in RubricIds(db, f, x) * Transitioning(db, f);
  }
}
