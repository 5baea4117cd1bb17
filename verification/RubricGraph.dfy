/** The rubric graph of backend/app/db/models.py as stored rows, and a pending flush over it. */
module RubricGraph {
  import opened Wrappers

  // A row identifier, unique across tables.
  datatype Id = Id(n: nat)

  // One row per entity.  `content` stands for the columns that no guard reads.
  datatype Row =
    | Rubric(status: string, rubricPublishedAt: Option<int>, publishedBy: Option<Id>, createdBy: Option<Id>,
             content: string)
    | Criterion(rubric: Id, content: string)
    | Compilation(rubric: Id, compileStatus: string, reviewedBy: Option<Id>, reviewedAt: Option<int>,
                  publishedAt: Option<int>,
                  finalHash: Option<string>, createdBy: Option<Id>, createdAt: int, content: string)
    | Artifact(compilation: Id, content: string)
    | SourceRule(artifact: Id, content: string)
    | Version(rubric: Id, compilation: Id, hash: string, workflow: string, profile: string, scheme: string,
              createdBy: Option<Id>, content: string)
    | TemplateItem(artifact: Id, content: string)
    | Rule(version: Id, criterion: Id, content: string)
    | Level(rule: Id, content: string)
    | Link(rule: Id, item: Id, content: string)
    | Batch(batchRubric: Option<Id>, batchVersion: Option<Id>, content: string)
    | User(content: string)

  // `sources` is the association of atomic rules with source rules.
  datatype Graph = Graph(rows: map<Id, Row>, sources: set<(Id, Id)>)

  predicate IsRubric(g: Graph, x: Id) { x in g.rows && g.rows[x].Rubric? }
  predicate IsCriterion(g: Graph, x: Id) { x in g.rows && g.rows[x].Criterion? }
  predicate IsCompilation(g: Graph, x: Id) { x in g.rows && g.rows[x].Compilation? }
  predicate IsArtifact(g: Graph, x: Id) { x in g.rows && g.rows[x].Artifact? }
  predicate IsSourceRule(g: Graph, x: Id) { x in g.rows && g.rows[x].SourceRule? }
  predicate IsVersion(g: Graph, x: Id) { x in g.rows && g.rows[x].Version? }
  predicate IsTemplateItem(g: Graph, x: Id) { x in g.rows && g.rows[x].TemplateItem? }
  predicate IsRule(g: Graph, x: Id) { x in g.rows && g.rows[x].Rule? }
  predicate IsLink(g: Graph, x: Id) { x in g.rows && g.rows[x].Link? }
  predicate IsUser(g: Graph, x: Id) { x in g.rows && g.rows[x].User? }

  // ----- what the database enforces by itself

  // Foreign keys of one row, the composite ones of a version included.
  ghost predicate References(g: Graph, row: Row) {
    match row
    case Rubric(_, _, _, _, _) => true
    case Criterion(r, _) => IsRubric(g, r)
    case Compilation(r, _, _, _, _, _, _, _, _) => IsRubric(g, r)
    case Artifact(c, _) => IsCompilation(g, c)
    case SourceRule(a, _) => IsArtifact(g, a)
    case TemplateItem(a, _) => IsArtifact(g, a)
    case Version(r, c, h, _, _, _, _, _) =>
      IsRubric(g, r) && IsCompilation(g, c) && g.rows[c].rubric == r && g.rows[c].finalHash == Some(h)
    case Rule(v, c, _) => IsVersion(g, v) && IsCriterion(g, c)
    case Level(r, _) => IsRule(g, r)
    case Link(r, t, _) => IsRule(g, r) && IsTemplateItem(g, t)
    case Batch(r, v, _) => (r.Some? ==> IsRubric(g, r.value)) && (v.Some? ==> IsVersion(g, v.value))
    case User(_) => true
  }

  ghost predicate Constraints(g: Graph) {
    && (forall x :: x in g.rows ==> References(g, g.rows[x]))
    && (forall r, s :: (r, s) in g.sources ==> IsRule(g, r) && IsSourceRule(g, s))
    && (forall v, w :: IsVersion(g, v) && IsVersion(g, w) && g.rows[v].compilation == g.rows[w].compilation ==> v == w)
  }

  // ----- a flush

  datatype Operation = SubmitForReview | ReturnToDraft | Publish | OtherOperation

  /** What a session is about to write: every row as the session sees it (rows marked deleted
      included, with the attributes they have in memory), the rows it will delete, rows that are
      dirty without a column change, rows whose content relationships changed, and the
      lifecycle operation recorded on the session. */
  datatype Flush = Flush(pending: Graph, deleted: set<Id>, touched: set<Id>, related: set<Id>,
                         operation: Option<Operation>)

  predicate SameKind(a: Row, b: Row) {
    || (a.Rubric? && b.Rubric?) || (a.Criterion? && b.Criterion?) || (a.Compilation? && b.Compilation?)
    || (a.Artifact? && b.Artifact?) || (a.SourceRule? && b.SourceRule?) || (a.Version? && b.Version?)
    || (a.TemplateItem? && b.TemplateItem?) || (a.Rule? && b.Rule?) || (a.Level? && b.Level?)
    || (a.Link? && b.Link?) || (a.Batch? && b.Batch?) || (a.User? && b.User?)
  }

  // What any session guarantees about its own bookkeeping.
  ghost predicate Session(db: Graph, f: Flush) {
    && db.rows.Keys <= f.pending.rows.Keys
    && f.deleted <= db.rows.Keys
    && f.related <= f.pending.rows.Keys
    && (forall x :: x in db.rows ==> SameKind(db.rows[x], f.pending.rows[x]))
    && (forall r, s :: (r, s) in f.pending.sources ==> IsRule(f.pending, r) && IsSourceRule(f.pending, s))
    // both sides of the association record a change of it
    && (forall r, s :: ((r, s) in f.pending.sources) != ((r, s) in db.sources) ==> r in f.related && s in f.related)
  }

  function New(db: Graph, f: Flush): set<Id> {
    f.pending.rows.Keys - db.rows.Keys
  }

  predicate Changed(db: Graph, f: Flush, x: Id) {
    x in db.rows && x in f.pending.rows && f.pending.rows[x] != db.rows[x]
  }

  function Dirty(db: Graph, f: Flush): set<Id> {
    set x | x in db.rows && x in f.pending.rows && (Changed(db, f, x) || x in f.touched || x in f.related)
  }

  // What the tables hold once the flush is written.
  function After(f: Flush): Graph {
    Graph(map x | x in f.pending.rows && x !in f.deleted :: f.pending.rows[x],
      set pair | pair in f.pending.sources && pair.0 !in f.deleted && pair.1 !in f.deleted)
  }
}
