/** `_validate_atomic_rule_lineage` of backend/app/db/models.py: an incremental check, run on what
    a flush changes, and the whole-graph rules it stands for. */
module LineageGuard {
  import opened Wrappers
  import opened RubricGraph

  // ----- the three rules, on single rows of what the session sees

  // The rule's version and criterion, when both resolve, belong to one rubric.
  predicate RuleCriterionOk(g: Graph, r: Id)
    requires IsRule(g, r)
  {
    var rule := g.rows[r];
    IsVersion(g, rule.version) && IsCriterion(g, rule.criterion) ==>
      g.rows[rule.version].rubric == g.rows[rule.criterion].rubric
  }

  // The rule's version and the source rule's artifact come from one compilation.
  predicate SourceOk(g: Graph, r: Id, s: Id)
    requires IsRule(g, r) && IsSourceRule(g, s)
  {
    var v, a := g.rows[r].version, g.rows[s].artifact;
    IsVersion(g, v) && IsArtifact(g, a) ==> g.rows[a].compilation == g.rows[v].compilation
  }

  // Both ends of a template link come from one compilation.
  predicate LinkOk(g: Graph, l: Id)
    requires IsLink(g, l)
  {
    var r, t := g.rows[l].rule, g.rows[l].item;
    IsRule(g, r) && IsTemplateItem(g, t) ==>
      var v, a := g.rows[r].version, g.rows[t].artifact;
      IsVersion(g, v) && IsArtifact(g, a) ==> g.rows[v].compilation == g.rows[a].compilation
  }

  // The rules on the whole graph.
  ghost predicate Lineage(g: Graph) {
    && (forall r :: IsRule(g, r) ==> RuleCriterionOk(g, r))
    && (forall r, s :: (r, s) in g.sources && IsRule(g, r) && IsSourceRule(g, s) ==> SourceOk(g, r, s))
    && (forall l :: IsLink(g, l) ==> LinkOk(g, l))
  }

  // ----- the incremental check

  predicate Live(f: Flush, x: Id) { x in f.pending.rows && x !in f.deleted }

  predicate LinksOfRuleOk(f: Flush, r: Id) {
    forall l | l in f.pending.rows.Keys && f.pending.rows[l].Link? && f.pending.rows[l].rule == r && l !in f.deleted ::
      LinkOk(f.pending, l)
  }

  predicate LinksOfItemOk(f: Flush, t: Id) {
    forall l | l in f.pending.rows.Keys && f.pending.rows[l].Link? && f.pending.rows[l].item == t && l !in f.deleted ::
      LinkOk(f.pending, l)
  }

  // Source rules attached to r; deleted ones are not skipped here.
  predicate SourcesOfRuleOk(f: Flush, r: Id, skip: set<(Id, Id)>)
  {
    forall p | p in f.pending.sources && p.0 == r && p !in skip :: SourcePairOk(f, p)
  }

  predicate RulesOfSourceOk(f: Flush, s: Id) {
    forall p | p in f.pending.sources && p.1 == s && p.0 !in f.deleted :: SourcePairOk(f, p)
  }

  predicate SourcePairOk(f: Flush, p: (Id, Id)) {
    IsRule(f.pending, p.0) && IsSourceRule(f.pending, p.1) ==> SourceOk(f.pending, p.0, p.1)
  }

  predicate RulesOfCriterionOk(f: Flush, c: Id) {
    forall r | r in f.pending.rows.Keys && f.pending.rows[r].Rule? && f.pending.rows[r].criterion == c
      && r !in f.deleted ::
      RuleCriterionOk(f.pending, r)
  }

  predicate RulesOfVersionOk(f: Flush, v: Id) {
    forall r | r in f.pending.rows.Keys && f.pending.rows[r].Rule? && f.pending.rows[r].version == v
      && r !in f.deleted ::
      RuleCriterionOk(f.pending, r) && SourcesOfRuleOk(f, r, {}) && LinksOfRuleOk(f, r)
  }

  predicate ChildrenOfArtifactOk(f: Flush, a: Id) {
    && (forall s | s in f.pending.rows.Keys && f.pending.rows[s].SourceRule? && f.pending.rows[s].artifact == a
         && s !in f.deleted ::
          RulesOfSourceOk(f, s))
    && (forall t | t in f.pending.rows.Keys && f.pending.rows[t].TemplateItem? && f.pending.rows[t].artifact == a
         && t !in f.deleted ::
          LinksOfItemOk(f, t))
  }

  // The branch of the listener for one candidate.
  predicate CandidateOk(db: Graph, f: Flush, x: Id)
    requires x in f.pending.rows
    requires x in db.rows ==> SameKind(db.rows[x], f.pending.rows[x])
  {
    var row := f.pending.rows[x];
    var isNew := x !in db.rows;
    match row
    case Criterion(r, _) =>
      isNew || db.rows[x].rubric != r ==> RulesOfCriterionOk(f, x)
    case Version(r, c, _, _, _, _, _, _) =>
      isNew || db.rows[x].rubric != r || db.rows[x].compilation != c ==> RulesOfVersionOk(f, x)
    case Artifact(c, _) =>
      isNew || db.rows[x].compilation != c ==> ChildrenOfArtifactOk(f, x)
    case Rule(v, _, _) =>
      && RuleCriterionOk(f.pending, x)
      && (IsVersion(f.pending, v) ==>
            if isNew || db.rows[x].version != v
            then SourcesOfRuleOk(f, x, {}) && LinksOfRuleOk(f, x)
            else SourcesOfRuleOk(f, x, db.sources))
    case SourceRule(a, _) =>
      isNew || db.rows[x].artifact != a ==> RulesOfSourceOk(f, x)
    case TemplateItem(a, _) =>
      isNew || db.rows[x].artifact != a ==> LinksOfItemOk(f, x)
    case Link(_, _, _) => LinkOk(f.pending, x)
    case _ => true
  }

  ghost predicate LineageAccepts(db: Graph, f: Flush)
    requires Session(db, f)
  {
    forall x :: (x in New(db, f) || x in Dirty(db, f)) && x !in f.deleted ==> CandidateOk(db, f, x)
  }

  // The listener: candidates in any order, possibly repeated.
  method ValidateAtomicRuleLineage(db: Graph, f: Flush, candidates: seq<Id>) returns (accepted: bool)
    requires Session(db, f)
    requires forall x :: x in candidates <==> x in New(db, f) || x in Dirty(db, f)
    ensures accepted <==> LineageAccepts(db, f)
  {
    hide CandidateOk;
    var seen: set<Id> := {};
    for k := 0 to |candidates|
      invariant seen == set x | x in candidates[..k] && x !in f.deleted
      invariant forall x :: x in seen ==> x in candidates && CandidateOk(db, f, x)
    {
      var candidate := candidates[k];
      assert candidate in candidates;
      assert candidates[..k + 1] == candidates[..k] + [candidate];
      if candidate !in seen && candidate !in f.deleted {
        seen := seen + {candidate};
        if !CandidateOk(db, f, candidate) { return false; }
      }
    }
    assert candidates[..|candidates|] == candidates;
    return true;
  }

  // ----- soundness

  // What changed, live, was checked.
  lemma ChangeIsChecked(db: Graph, f: Flush, x: Id)
    requires Session(db, f) && LineageAccepts(db, f) && Live(f, x)
    ensures (x in db.rows && db.rows[x] == f.pending.rows[x] && x !in f.related) || CandidateOk(db, f, x)
  {
    if x !in db.rows || db.rows[x] != f.pending.rows[x] || x in f.related {
      assert x in New(db, f) || x in Dirty(db, f);
    }
  }

  // A live version keeps its stored lineage columns, or every live rule of it was checked.
  lemma VersionKeptOrChecked(db: Graph, f: Flush, v: Id, r: Id)
    requires Session(db, f) && LineageAccepts(db, f) && IsVersion(After(f), v)
    requires IsRule(After(f), r) && f.pending.rows[r].version == v
    ensures || (IsVersion(db, v) && db.rows[v].rubric == f.pending.rows[v].rubric
                  && db.rows[v].compilation == f.pending.rows[v].compilation)
            || (RuleCriterionOk(f.pending, r) && SourcesOfRuleOk(f, r, {}) && LinksOfRuleOk(f, r))
  {
    ChangeIsChecked(db, f, v);
    if !(IsVersion(db, v) && db.rows[v].rubric == f.pending.rows[v].rubric
           && db.rows[v].compilation == f.pending.rows[v].compilation) {
      assert RulesOfVersionOk(f, v);
    }
  }

  lemma CriterionKeptOrChecked(db: Graph, f: Flush, c: Id, r: Id)
    requires Session(db, f) && LineageAccepts(db, f) && IsCriterion(After(f), c)
    requires IsRule(After(f), r) && f.pending.rows[r].criterion == c
    ensures (IsCriterion(db, c) && db.rows[c].rubric == f.pending.rows[c].rubric) || RuleCriterionOk(f.pending, r)
  {
    ChangeIsChecked(db, f, c);
    if !(IsCriterion(db, c) && db.rows[c].rubric == f.pending.rows[c].rubric) {
      assert RulesOfCriterionOk(f, c);
    }
  }

  lemma ArtifactKeptOrChecked(db: Graph, f: Flush, a: Id)
    requires Session(db, f) && LineageAccepts(db, f) && IsArtifact(After(f), a)
    ensures (IsArtifact(db, a) && db.rows[a].compilation == f.pending.rows[a].compilation) || ChildrenOfArtifactOk(f, a)
  {
    ChangeIsChecked(db, f, a);
  }

  lemma SourceRuleKeptOrChecked(db: Graph, f: Flush, s: Id)
    requires Session(db, f) && LineageAccepts(db, f) && IsSourceRule(After(f), s)
    ensures (IsSourceRule(db, s) && db.rows[s].artifact == f.pending.rows[s].artifact) || RulesOfSourceOk(f, s)
  {
    ChangeIsChecked(db, f, s);
  }

  lemma ItemKeptOrChecked(db: Graph, f: Flush, t: Id)
    requires Session(db, f) && LineageAccepts(db, f) && IsTemplateItem(After(f), t)
    ensures (IsTemplateItem(db, t) && db.rows[t].artifact == f.pending.rows[t].artifact) || LinksOfItemOk(f, t)
  {
    ChangeIsChecked(db, f, t);
  }

  // A live rule keeps its stored version, or all its sources and links were checked; a new
  // association was checked in any case.
  lemma RuleKeptOrChecked(db: Graph, f: Flush, r: Id)
    requires Session(db, f) && LineageAccepts(db, f) && IsRule(After(f), r)
    requires IsVersion(f.pending, f.pending.rows[r].version)
    ensures (IsRule(db, r) && db.rows[r].version == f.pending.rows[r].version)
         || (SourcesOfRuleOk(f, r, {}) && LinksOfRuleOk(f, r))
    ensures (IsRule(db, r) && db.rows[r].criterion == f.pending.rows[r].criterion) || RuleCriterionOk(f.pending, r)
    ensures forall s :: (r, s) in f.pending.sources && (r, s) !in db.sources ==> SourcePairOk(f, (r, s))
  {
    ChangeIsChecked(db, f, r);
    forall s | (r, s) in f.pending.sources && (r, s) !in db.sources ensures SourcePairOk(f, (r, s)) {
      assert r in f.related;
      assert CandidateOk(db, f, r);
    }
  }

  lemma SoundRule(db: Graph, f: Flush, r: Id)
    requires Session(db, f) && Lineage(db) && LineageAccepts(db, f)
    requires IsRule(After(f), r)
    ensures RuleCriterionOk(After(f), r)
  {
    var v, c := f.pending.rows[r].version, f.pending.rows[r].criterion;
    if IsVersion(After(f), v) && IsCriterion(After(f), c) {
      ChangeIsChecked(db, f, r);
      RuleKeptOrChecked(db, f, r);
      VersionKeptOrChecked(db, f, v, r);
      CriterionKeptOrChecked(db, f, c, r);
      assert IsRule(db, r) ==> RuleCriterionOk(db, r);
    }
  }

  lemma SoundSource(db: Graph, f: Flush, r: Id, s: Id)
    requires Session(db, f) && Lineage(db) && LineageAccepts(db, f)
    requires (r, s) in After(f).sources && IsRule(After(f), r) && IsSourceRule(After(f), s)
    ensures SourceOk(After(f), r, s)
  {
    var v, a := f.pending.rows[r].version, f.pending.rows[s].artifact;
    if IsVersion(After(f), v) && IsArtifact(After(f), a) {
      RuleKeptOrChecked(db, f, r);
      VersionKeptOrChecked(db, f, v, r);
      SourceRuleKeptOrChecked(db, f, s);
      ArtifactKeptOrChecked(db, f, a);
      PairIsChecked(f, r, s, a);
      if (r, s) in db.sources && IsRule(db, r) && IsSourceRule(db, s) { assert SourceOk(db, r, s); }
    }
  }

  // Any of the collections that contain the pair covers it.
  lemma PairIsChecked(f: Flush, r: Id, s: Id, a: Id)
    requires (r, s) in f.pending.sources && IsRule(f.pending, r) && IsSourceRule(f.pending, s)
    requires r !in f.deleted && s !in f.deleted && f.pending.rows[s].artifact == a
    ensures SourcesOfRuleOk(f, r, {}) || RulesOfSourceOk(f, s) || ChildrenOfArtifactOk(f, a) || SourcePairOk(f, (r, s))
        ==> SourceOk(f.pending, r, s)
  {
    assert (r, s).0 == r && (r, s).1 == s;
    if SourcesOfRuleOk(f, r, {}) { assert SourcePairOk(f, (r, s)); }
    if ChildrenOfArtifactOk(f, a) { assert RulesOfSourceOk(f, s); }
    if RulesOfSourceOk(f, s) { assert SourcePairOk(f, (r, s)); }
  }

  lemma SoundLink(db: Graph, f: Flush, l: Id)
    requires Session(db, f) && Lineage(db) && LineageAccepts(db, f)
    requires IsLink(After(f), l)
    ensures LinkOk(After(f), l)
  {
    hide LinksOfRuleOk, LinksOfItemOk, ChildrenOfArtifactOk, SourcesOfRuleOk, RuleCriterionOk;
    var r, t := f.pending.rows[l].rule, f.pending.rows[l].item;
    if IsRule(After(f), r) && IsTemplateItem(After(f), t) {
      var v, a := f.pending.rows[r].version, f.pending.rows[t].artifact;
      if IsVersion(After(f), v) && IsArtifact(After(f), a) {
        ChangeIsChecked(db, f, l);
        RuleKeptOrChecked(db, f, r);
        VersionKeptOrChecked(db, f, v, r);
        ItemKeptOrChecked(db, f, t);
        ArtifactKeptOrChecked(db, f, a);
        LinkIsChecked(f, l, r, t, a);
        if IsLink(db, l) { assert LinkOk(db, l); }
      }
    }
  }

  lemma LinkIsChecked(f: Flush, l: Id, r: Id, t: Id, a: Id)
    requires IsLink(f.pending, l) && l !in f.deleted && f.pending.rows[l].rule == r && f.pending.rows[l].item == t
    requires IsTemplateItem(f.pending, t) && t !in f.deleted && f.pending.rows[t].artifact == a
    ensures LinksOfRuleOk(f, r) || LinksOfItemOk(f, t) || ChildrenOfArtifactOk(f, a) ==> LinkOk(f.pending, l)
  {
    if ChildrenOfArtifactOk(f, a) { assert LinksOfItemOk(f, t); }
  }

  /** The incremental check is enough: from a graph that satisfies the rules, whatever it accepts
      leaves the whole graph satisfying them. */
  lemma IncrementalIsSound(db: Graph, f: Flush)
    requires Session(db, f) && Lineage(db) && LineageAccepts(db, f)
    ensures Lineage(After(f))
  {
    forall r | IsRule(After(f), r) ensures RuleCriterionOk(After(f), r) { SoundRule(db, f, r); }
    forall r, s | (r, s) in After(f).sources && IsRule(After(f), r) && IsSourceRule(After(f), s)
      ensures SourceOk(After(f), r, s) {
      SoundSource(db, f, r, s);
    }
    forall l | IsLink(After(f), l) ensures LinkOk(After(f), l) { SoundLink(db, f, l); }
  }

  // ----- completeness

  // The checked attachments of deleted source rules: the one thing checked that is not in the result.
  ghost predicate StrayAttachmentsOk(db: Graph, f: Flush)
    requires Session(db, f)
  {
    forall r, s :: (r, s) in f.pending.sources && r !in f.deleted && s in f.deleted && StrayChecked(db, f, r, s)
      ==> SourcePairOk(f, (r, s))
  }

  // A caller can see this before the flush: the rule is new, or moved, or newly attached, or its
  // version is new or moved.
  ghost predicate StrayChecked(db: Graph, f: Flush, r: Id, s: Id)
    requires Session(db, f) && (r, s) in f.pending.sources
  {
    var v := f.pending.rows[r].version;
    && IsVersion(f.pending, v)
    && (|| r !in db.rows || db.rows[r].version != v
        || (r, s) !in db.sources
        || (v !in f.deleted && (v !in db.rows || db.rows[v].rubric != f.pending.rows[v].rubric
                                              || db.rows[v].compilation != f.pending.rows[v].compilation)))
  }

  // A live row of the result is checked against the rows of the result.
  lemma LivePairOk(f: Flush, r: Id, s: Id)
    requires Constraints(After(f)) && Lineage(After(f))
    requires (r, s) in f.pending.sources && r !in f.deleted && s !in f.deleted
    ensures SourcePairOk(f, (r, s))
  {
    if IsRule(f.pending, r) && IsSourceRule(f.pending, s) {
      assert (r, s) in After(f).sources;
      assert References(After(f), After(f).rows[r]) && References(After(f), After(f).rows[s]);
      assert SourceOk(After(f), r, s);
    }
  }

  lemma LiveLinkOk(f: Flush, l: Id)
    requires Constraints(After(f)) && Lineage(After(f))
    requires IsLink(f.pending, l) && l !in f.deleted
    ensures LinkOk(f.pending, l)
  {
    var g := After(f);
    assert References(g, g.rows[l]);
    assert References(g, g.rows[g.rows[l].rule]) && References(g, g.rows[g.rows[l].item]);
    assert LinkOk(g, l);
  }

  lemma LiveRuleOk(f: Flush, r: Id)
    requires Constraints(After(f)) && Lineage(After(f))
    requires IsRule(f.pending, r) && r !in f.deleted
    ensures RuleCriterionOk(f.pending, r)
  {
    assert References(After(f), After(f).rows[r]);
    assert RuleCriterionOk(After(f), r);
  }

  lemma SourcesOfLiveRuleOk(db: Graph, f: Flush, r: Id, skip: set<(Id, Id)>)
    requires Session(db, f) && Constraints(After(f)) && Lineage(After(f)) && StrayAttachmentsOk(db, f)
    requires IsRule(f.pending, r) && r !in f.deleted
    requires forall s :: (r, s) in f.pending.sources && (r, s) !in skip && s in f.deleted ==> StrayChecked(db, f, r, s)
    ensures SourcesOfRuleOk(f, r, skip)
  {
    forall p | p in f.pending.sources && p.0 == r && p !in skip ensures SourcePairOk(f, p) {
      assert p == (r, p.1);
      if p.1 !in f.deleted { LivePairOk(f, r, p.1); }
    }
  }

  lemma CompleteFor(db: Graph, f: Flush, x: Id)
    requires Session(db, f) && Constraints(After(f)) && Lineage(After(f)) && StrayAttachmentsOk(db, f)
    requires (x in New(db, f) || x in Dirty(db, f)) && x !in f.deleted
    ensures CandidateOk(db, f, x)
  {
    forall l | IsLink(f.pending, l) && l !in f.deleted ensures LinkOk(f.pending, l) { LiveLinkOk(f, l); }
    forall r | IsRule(f.pending, r) && r !in f.deleted ensures RuleCriterionOk(f.pending, r) { LiveRuleOk(f, r); }
    match f.pending.rows[x]
    case Version(rubric, compilation, _, _, _, _, _, _) =>
      if x !in db.rows || db.rows[x].rubric != rubric || db.rows[x].compilation != compilation {
        forall r | IsRule(f.pending, r) && f.pending.rows[r].version == x && r !in f.deleted
          ensures SourcesOfRuleOk(f, r, {}) {
          SourcesOfLiveRuleOk(db, f, r, {});
        }
      }
    case Artifact(_, _) =>
      forall s | IsSourceRule(f.pending, s) && s !in f.deleted
        ensures RulesOfSourceOk(f, s) { RulesOfLiveSourceOk(f, s); }
    case SourceRule(_, _) => RulesOfLiveSourceOk(f, x);
    case Rule(v, _, _) =>
      if IsVersion(f.pending, v) {
        if x !in db.rows || db.rows[x].version != v {
          SourcesOfLiveRuleOk(db, f, x, {});
        } else {
          SourcesOfLiveRuleOk(db, f, x, db.sources);
        }
      }
    case _ =>
  }

  lemma RulesOfLiveSourceOk(f: Flush, s: Id)
    requires Constraints(After(f)) && Lineage(After(f)) && s !in f.deleted
    ensures RulesOfSourceOk(f, s)
  {
    forall p | p in f.pending.sources && p.1 == s && p.0 !in f.deleted ensures SourcePairOk(f, p) {
      assert p == (p.0, s);
      LivePairOk(f, p.0, s);
    }
  }

  // The other direction: what the checks say about deleted source rules.
  lemma StrayWasChecked(db: Graph, f: Flush, r: Id, s: Id)
    requires Session(db, f) && LineageAccepts(db, f) && Constraints(After(f))
    requires (r, s) in f.pending.sources && r !in f.deleted && s in f.deleted && StrayChecked(db, f, r, s)
    ensures SourcePairOk(f, (r, s))
  {
    var v := f.pending.rows[r].version;
    assert (r, s).0 == r;
    assert References(After(f), After(f).rows[r]);
    RuleKeptOrChecked(db, f, r);
    VersionKeptOrChecked(db, f, v, r);
  }

  /** From a graph that satisfies the rules, a flush the database would take is accepted exactly
      when its result satisfies them and no checked deleted attachment breaks them. */
  lemma IncrementalIsExact(db: Graph, f: Flush)
    requires Session(db, f) && Lineage(db) && Constraints(After(f))
    ensures LineageAccepts(db, f) <==> Lineage(After(f)) && StrayAttachmentsOk(db, f)
  {
    if LineageAccepts(db, f) {
      IncrementalIsSound(db, f);
      forall r, s | (r, s) in f.pending.sources && r !in f.deleted && s in f.deleted && StrayChecked(db, f, r, s)
        ensures SourcePairOk(f, (r, s)) {
        StrayWasChecked(db, f, r, s);
      }
    }
    if Lineage(After(f)) && StrayAttachmentsOk(db, f) {
      forall x | (x in New(db, f) || x in Dirty(db, f)) && x !in f.deleted ensures CandidateOk(db, f, x) {
        CompleteFor(db, f, x);
      }
    }
  }

  /** Without a deleted source rule still attached to a live rule, the check is the whole-graph check. */
  lemma IncrementalIsWholeGraph(db: Graph, f: Flush)
    requires Session(db, f) && Lineage(db) && Constraints(After(f))
    requires forall r, s :: (r, s) in f.pending.sources && s in f.deleted ==> r in f.deleted
    ensures LineageAccepts(db, f) <==> Lineage(After(f))
  {
    IncrementalIsExact(db, f);
  }

  // A rule moves to another compilation's version while its only source rule is deleted but
  // still listed: the graph that would be stored is fine, and the check refuses it.
  function StrayBefore(): Graph {
    Graph(map[
      Id(0) := Rubric("draft", None, None, None, ""),
      Id(1) := Criterion(Id(0), ""),
      Id(2) := Compilation(Id(0), "created", None, None, None, Some("a"), Some(Id(9)), 0, ""),
      Id(3) := Compilation(Id(0), "created", None, None, None, Some("b"), Some(Id(9)), 0, ""),
      Id(4) := Version(Id(0), Id(2), "a", "w", "thesis", "rubric-content-v1", Some(Id(9)), "1"),
      Id(5) := Version(Id(0), Id(3), "b", "w", "thesis", "rubric-content-v1", Some(Id(9)), "2"),
      Id(6) := Artifact(Id(2), ""),
      Id(7) := SourceRule(Id(6), ""),
      Id(8) := Rule(Id(4), Id(1), ""),
      Id(9) := User("")],
      {(Id(8), Id(7))})
  }

  function StrayFlush(): Flush {
    var db := StrayBefore();
    Flush(Graph(db.rows[Id(8) := Rule(Id(5), Id(1), "")], db.sources), {Id(7)}, {}, {}, None)
  }

  lemma StraySession()
    ensures Session(StrayBefore(), StrayFlush())
  {
    hide CandidateOk, Lineage, Constraints;
    var db, f := StrayBefore(), StrayFlush();
    assert f.pending.sources == db.sources == {(Id(8), Id(7))};
    assert f.pending.rows == db.rows[Id(8) := Rule(Id(5), Id(1), "")];
  }

  lemma StrayStored(db: Graph)
    requires db == StrayBefore()
    ensures Constraints(db)
  {
    hide References;
    assert db.sources == {(Id(8), Id(7))};
    forall x | x in db.rows ensures References(db, db.rows[x]) { StrayReferences(db, x); }
    StrayVersions(db);
  }

  // The stored graph, or the one that the flush would leave.
  ghost predicate StrayRows(g: Graph) {
    || g.rows == StrayBefore().rows
    || g.rows == (StrayBefore().rows - {Id(7)})[Id(8) := Rule(Id(5), Id(1), "")]
  }

  lemma StrayReferences(g: Graph, x: Id)
    requires StrayRows(g) && x in g.rows
    ensures References(g, g.rows[x])
  {
  }

  lemma StrayVersions(g: Graph)
    requires StrayRows(g)
    ensures forall v, w :: IsVersion(g, v) && IsVersion(g, w) && g.rows[v].compilation == g.rows[w].compilation ==>
      v == w
  {
    forall v | IsVersion(g, v) ensures v == Id(4) || v == Id(5) { }
  }

  lemma StrayStoredLineage(db: Graph)
    requires db == StrayBefore()
    ensures Lineage(db)
  {
    hide RuleCriterionOk, SourceOk, LinkOk;
    StrayPair(db);
    forall r | IsRule(db, r) ensures r == Id(8) { }
    forall l ensures !IsLink(db, l) { }
  }

  lemma StrayPair(db: Graph)
    requires db == StrayBefore()
    ensures RuleCriterionOk(db, Id(8)) && SourceOk(db, Id(8), Id(7))
    ensures forall r, s :: (r, s) in db.sources ==> r == Id(8) && s == Id(7)
  {
    assert db.sources == {(Id(8), Id(7))};
  }

  lemma StrayResultIsValid()
    ensures Constraints(After(StrayFlush())) && Lineage(After(StrayFlush()))
  {
    hide CandidateOk, Session, Lineage, Constraints;
    var g := After(StrayFlush());
    assert g.rows == (StrayBefore().rows - {Id(7)})[Id(8) := Rule(Id(5), Id(1), "")];
    StrayConstraints(g);
    StrayLineage(g);
  }

  lemma StrayConstraints(g: Graph)
    requires g.rows == (StrayBefore().rows - {Id(7)})[Id(8) := Rule(Id(5), Id(1), "")]
    requires g.sources == {}
    ensures Constraints(g)
  {
    hide References;
    forall x | x in g.rows ensures References(g, g.rows[x]) { StrayReferences(g, x); }
    StrayVersions(g);
  }

  lemma StrayLineage(g: Graph)
    requires g.rows == (StrayBefore().rows - {Id(7)})[Id(8) := Rule(Id(5), Id(1), "")]
    requires g.sources == {}
    ensures Lineage(g)
  {
  }

  /** The check can refuse a flush whose result satisfies every rule. */
  lemma DeletedAttachmentIsRefused()
    ensures var db, f := StrayBefore(), StrayFlush();
      && Session(db, f) && Constraints(db) && Lineage(db)
      && Constraints(After(f)) && Lineage(After(f)) && !LineageAccepts(db, f)
  {
    hide Session, Constraints, Lineage;
    var db, f := StrayBefore(), StrayFlush();
    StraySession();
    StrayStored(db);
    StrayStoredLineage(db);
    StrayResultIsValid();
    assert (Id(8), Id(7)) in f.pending.sources && !SourcePairOk(f, (Id(8), Id(7)));
    assert Changed(db, f, Id(8)) && Id(8) in Dirty(db, f);
    assert !SourcesOfRuleOk(f, Id(8), {});
    assert !CandidateOk(db, f, Id(8));
  }
}
