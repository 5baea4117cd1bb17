/** `build_holdout_manifest_from_rows` of backend/app/eval/gating.py: the frozen list of papers and
    teacher scores that a release is measured on. */
module HoldoutManifest {
  import opened Wrappers
  import opened Ordering

  // A paper file: the hash of its content, the sample id, a second hash taken of the first, its length.
  datatype File = File(sha: string, id: string, length: nat)

  // Where a filename leads: out of the papers directory, or to a path inside it with a lower-case
  // suffix and, if there is one, a file.
  datatype Location = Outside | Inside(suffix: string, file: Option<File>)

  datatype Truth = Truth(total: real, items: map<string, real>)

  // A score row: its filename, None where it is not a non-blank text, the same as a normalised path,
  // where it leads, and its truth, None where it does not parse.
  datatype Row = Row(filename: Option<string>, path: string, location: Location, truth: Option<Truth>)

  datatype PaperRecord = PaperRecord(id: string, sha: string, length: nat, suffix: string)

  datatype TruthRecord = TruthRecord(id: string, truth: Truth)

  datatype Manifest = Manifest(papers: seq<PaperRecord>, truths: seq<TruthRecord>)

  // Every hash is taken of these fields and of fixed texts.
  datatype Holdout = Holdout(datasetId: string, datasetVersion: string, manifest: Manifest)

  datatype ManifestError =
    | NoDatasetName | NoDirectory | NoFilename | DuplicateFilename | EscapesDirectory | UnsupportedFormat
    | PaperMissing | DuplicateContent
    | BadTruth | NoSamples | UnlistedPapers

  const SUFFIXES := {".docx", ".pdf"}

  predicate PaperLeq(a: PaperRecord, b: PaperRecord) { TextLeq(a.id, b.id) }

  predicate TruthLeq(a: TruthRecord, b: TruthRecord) { TextLeq(a.id, b.id) }

  predicate Complete(row: Row) {
    && row.filename.Some?
    && row.location.Inside? && row.location.suffix in SUFFIXES && row.location.file.Some?
    && row.truth.Some?
  }

  function Filename(row: Row): string { if row.filename.Some? then row.filename.value else "" }

  function PathOf(row: Row): string { row.path }

  function FileOf(row: Row): File {
    if row.location.Inside? && row.location.file.Some? then row.location.file.value else File("", "", 0)
  }

  function SampleId(row: Row): string { FileOf(row).id }

  function Paper(row: Row): PaperRecord {
    var suffix := if row.location.Inside? then row.location.suffix else "";
    PaperRecord(FileOf(row).id, FileOf(row).sha, FileOf(row).length, suffix)
  }

  function TruthOf(row: Row): TruthRecord {
    TruthRecord(SampleId(row), if row.truth.Some? then row.truth.value else Truth(0.0, map[]))
  }

  // What the rows must satisfy; `papers` are the paths of the supported files under the directory.
  ghost predicate Acceptable(rows: seq<Row>, papers: set<string>) {
    && rows != []
    && (forall k :: 0 <= k < |rows| ==> Complete(rows[k]))
    && Distinct(Column(rows, Filename)) && Distinct(Column(rows, SampleId))
    && forall p :: p in papers ==> p in Column(rows, PathOf)
  }

  function ManifestFor(rows: seq<Row>): Manifest {
    Manifest(Sort(Column(rows, Paper), PaperLeq), Sort(Column(rows, TruthOf), TruthLeq))
  }

  // A dataset name that is missing or blank is None; so is a papers directory that does not exist,
  // which otherwise is the set of paths of its supported files.
  method BuildHoldoutManifest(datasetId: Option<string>, datasetVersion: Option<string>,
                              directory: Option<set<string>>, rows: seq<Row>)
    returns (r: Result<Holdout, ManifestError>)
    ensures r.Ok? <==>
      datasetId.Some? && datasetVersion.Some? && directory.Some? && Acceptable(rows, directory.value)
    ensures r.Ok? ==> r.value == Holdout(datasetId.value, datasetVersion.value, ManifestFor(rows))
  {
    hide SUFFIXES;
    if datasetId.None? || datasetVersion.None? { return Err(NoDatasetName); }
    if directory.None? { return Err(NoDirectory); }
    var papers := directory.value;
    var paperRecords: seq<PaperRecord>, truthRecords: seq<TruthRecord> := [], [];
    var seenFilenames: set<string>, seenIds: set<string> := {}, {};
    for index := 0 to |rows|
      invariant forall k :: 0 <= k < index ==> Complete(rows[k])
      invariant Distinct(Column(rows[..index], Filename)) && Distinct(Column(rows[..index], SampleId))
      invariant seenFilenames == set k | 0 <= k < index :: Filename(rows[k])
      invariant seenIds == set k | 0 <= k < index :: SampleId(rows[k])
      invariant paperRecords == Column(rows[..index], Paper) && truthRecords == Column(rows[..index], TruthOf)
    {
      var row := rows[index];
      if row.filename.None? { return Err(NoFilename); }
      var filename := row.filename.value;
      if filename in seenFilenames {
        RepeatedValue(rows, Filename, index);
        return Err(DuplicateFilename);
      }
      seenFilenames := seenFilenames + {filename};
      if row.location.Outside? { return Err(EscapesDirectory); }
      if row.location.suffix !in SUFFIXES { return Err(UnsupportedFormat); }
      if row.location.file.None? { return Err(PaperMissing); }
      var file := row.location.file.value;
      if file.id in seenIds {
        RepeatedValue(rows, SampleId, index);
        return Err(DuplicateContent);
      }
      seenIds := seenIds + {file.id};
      paperRecords := paperRecords + [PaperRecord(file.id, file.sha, file.length, row.location.suffix)];
      if row.truth.None? { return Err(BadTruth); }
      truthRecords := truthRecords + [TruthRecord(file.id, row.truth.value)];
      NextRow(rows, index);
    }
    assert rows[..|rows|] == rows;
    if rows == [] { return Err(NoSamples); }
    var scoredPaths := set k | 0 <= k < |rows| :: rows[k].path;
    Listed(rows, scoredPaths);
    if !(papers <= scoredPaths) {
      var p :| p in papers && p !in scoredPaths;
      return Err(UnlistedPapers);
    }
    return Ok(Holdout(datasetId.value, datasetVersion.value,
      Manifest(Sort(paperRecords, PaperLeq), Sort(truthRecords, TruthLeq))));
  }

  lemma RepeatedValue(rows: seq<Row>, f: Row -> string, index: nat)
    requires index < |rows| && exists k :: 0 <= k < index && f(rows[k]) == f(rows[index])
    ensures !Distinct(Column(rows, f))
  {
    var k :| 0 <= k < index && f(rows[k]) == f(rows[index]);
    assert Column(rows, f)[k] == Column(rows, f)[index];
  }

  lemma NextRow(rows: seq<Row>, index: nat)
    requires index < |rows|
    ensures Column(rows[..index + 1], Paper) == Column(rows[..index], Paper) + [Paper(rows[index])]
    ensures Column(rows[..index + 1], TruthOf) == Column(rows[..index], TruthOf) + [TruthOf(rows[index])]
    ensures Distinct(Column(rows[..index], Filename))
      && (forall k :: 0 <= k < index ==> Filename(rows[k]) != Filename(rows[index]))
      ==> Distinct(Column(rows[..index + 1], Filename))
    ensures Distinct(Column(rows[..index], SampleId))
      && (forall k :: 0 <= k < index ==> SampleId(rows[k]) != SampleId(rows[index]))
      ==> Distinct(Column(rows[..index + 1], SampleId))
  {
    assert rows[..index + 1] == rows[..index] + [rows[index]];
    assert Column(rows[..index + 1], Filename) == Column(rows[..index], Filename) + [Filename(rows[index])];
    assert Column(rows[..index + 1], SampleId) == Column(rows[..index], SampleId) + [SampleId(rows[index])];
  }

  lemma Listed(rows: seq<Row>, names: set<string>)
    requires names == set k | 0 <= k < |rows| :: rows[k].path
    ensures forall p :: p in names <==> p in Column(rows, PathOf)
  {
    forall p ensures p in names <==> p in Column(rows, PathOf) {
      if p in names {
        var k :| 0 <= k < |rows| && rows[k].path == p;
        assert Column(rows, PathOf)[k] == p;
      }
    }
  }

  // ----- order independence

  lemma IdOrders()
    ensures TotalPreorder(PaperLeq) && TotalPreorder(TruthLeq)
  {
    TextOrder();
  }

  // With distinct ids, equal ids mean equal records.
  lemma PapersById(rows: seq<Row>)
    requires Distinct(Column(rows, SampleId))
    ensures AntisymmetricOn(multiset(Column(rows, Paper)), PaperLeq)
  {
    hide TextLeq, Distinct;
    TextOrder();
    var records := Column(rows, Paper);
    forall x, y | x in multiset(records) && y in multiset(records) && PaperLeq(x, y) && PaperLeq(y, x) ensures x == y {
      var i :| 0 <= i < |rows| && records[i] == x;
      var j :| 0 <= j < |rows| && records[j] == y;
      SamePlace(Column(rows, SampleId), i, j);
    }
  }

  lemma TruthsById(rows: seq<Row>)
    requires Distinct(Column(rows, SampleId))
    ensures AntisymmetricOn(multiset(Column(rows, TruthOf)), TruthLeq)
  {
    hide TextLeq, Distinct;
    TextOrder();
    var records := Column(rows, TruthOf);
    forall x, y | x in multiset(records) && y in multiset(records) && TruthLeq(x, y) && TruthLeq(y, x) ensures x == y {
      var i :| 0 <= i < |rows| && records[i] == x;
      var j :| 0 <= j < |rows| && records[j] == y;
      SamePlace(Column(rows, SampleId), i, j);
    }
  }

  lemma SamePlace(s: seq<string>, i: nat, j: nat)
    requires Distinct(s) && i < |s| && j < |s| && s[i] == s[j]
    ensures i == j
  {
  }

  /** Any order of the same rows is accepted or refused alike, and yields the same manifest, hence
      the same hashes. */
  lemma ManifestForgetsOrder(a: seq<Row>, b: seq<Row>, papers: set<string>)
    requires multiset(a) == multiset(b) && Acceptable(a, papers)
    ensures Acceptable(b, papers) && ManifestFor(a) == ManifestFor(b)
  {
    assert |multiset(a)| == |a| && |multiset(b)| == |b|;
    ColumnPermutes(a, b, Filename);
    ColumnPermutes(a, b, PathOf);
    ColumnPermutes(a, b, SampleId);
    ColumnPermutes(a, b, Paper);
    ColumnPermutes(a, b, TruthOf);
    forall k | 0 <= k < |b| ensures Complete(b[k]) { assert b[k] in multiset(a); }
    IdOrders();
    PapersById(a);
    TruthsById(a);
    SortForgetsOrderOn(Column(a, Paper), Column(b, Paper), PaperLeq);
    SortForgetsOrderOn(Column(a, TruthOf), Column(b, TruthOf), TruthLeq);
  }

  /** Papers and truths are listed in the same order, one pair per row, each id once. */
  lemma ManifestPairsUp(rows: seq<Row>, papers: set<string>, k: nat)
    requires Acceptable(rows, papers) && k < |rows|
    ensures var m := ManifestFor(rows);
      && |m.papers| == |m.truths| == |rows|
      && m.papers[k].id == m.truths[k].id
      && (forall j :: 0 <= j < k ==> m.papers[j].id != m.papers[k].id)
  {
    hide Sort, Distinct, Complete;
    IdsAgree(rows);
    var ids := Column(ManifestFor(rows).papers, IdOfPaper);
    assert ids[k] == Column(ManifestFor(rows).truths, IdOfTruth)[k];
    PermutationDistinct(Column(rows, SampleId), ids);
    forall j | 0 <= j < k ensures ids[j] != ids[k] { DifferentPlaces(ids, j, k); }
  }

  /** The lists of the manifest, row by row: every row's paper, with its hash, length and suffix, and the row's
      truth stand at one place under the row's sample id, and the ids are in ascending order. */
  lemma ManifestMeaning(rows: seq<Row>, papers: set<string>)
    requires Acceptable(rows, papers)
    ensures var m := ManifestFor(rows);
      && |m.papers| == |m.truths| == |rows|
      && (forall j, k :: 0 <= j < k < |rows| ==>
           TextLeq(m.papers[j].id, m.papers[k].id) && m.papers[j].id != m.papers[k].id)
      && forall i :: 0 <= i < |rows| ==> Complete(rows[i]) && HoldsRow(m, rows[i])
  {
    hide Distinct, Sort, TextLeq;
    var m := ManifestFor(rows);
    IdsAgree(rows);
    IdOrders();
    SortSorts(Column(rows, Paper), PaperLeq);
    forall j, k | 0 <= j < k < |rows|
      ensures TextLeq(m.papers[j].id, m.papers[k].id) && m.papers[j].id != m.papers[k].id {
      assert PaperLeq(m.papers[j], m.papers[k]);
      ManifestPairsUp(rows, papers, k);
    }
    forall i | 0 <= i < |rows|
      ensures Complete(rows[i]) && HoldsRow(m, rows[i]) {
      var k := PlaceOfRow(rows, papers, i);
    }
  }

  // The row's paper and truth stand at one place.
  ghost predicate HoldsRow(m: Manifest, row: Row)
    requires Complete(row)
  {
    var file := row.location.file.value;
    exists k :: 0 <= k < |m.papers| && k < |m.truths|
      && m.papers[k] == PaperRecord(file.id, file.sha, file.length, row.location.suffix)
      && m.truths[k] == TruthRecord(file.id, row.truth.value)
  }

  lemma PlaceOfRow(rows: seq<Row>, papers: set<string>, i: nat) returns (k: nat)
    requires Acceptable(rows, papers) && i < |rows|
    ensures var m := ManifestFor(rows);
      |m.papers| == |m.truths| == |rows| && k < |rows| && m.papers[k] == Paper(rows[i])
        && m.truths[k] == TruthOf(rows[i])
  {
    hide Distinct, Sort, TextLeq, Complete;
    var m := ManifestFor(rows);
    IdsAgree(rows);
    assert Column(rows, Paper)[i] in multiset(m.papers) && Column(rows, TruthOf)[i] in multiset(m.truths);
    k :| 0 <= k < |rows| && m.papers[k] == Paper(rows[i]);
    var l :| 0 <= l < |rows| && m.truths[l] == TruthOf(rows[i]);
    var ids := Column(m.papers, IdOfPaper);
    assert Column(m.truths, IdOfTruth)[l] == ids[l] == SampleId(rows[i]) == ids[k];
    PermutationDistinct(Column(rows, SampleId), ids);
    SamePlace(ids, k, l);
  }

  /** Which rows are accepted, spelled out. */
  lemma AcceptableMeaning(rows: seq<Row>, papers: set<string>)
    ensures Acceptable(rows, papers) <==>
      && rows != []
      && (forall i :: 0 <= i < |rows| ==> var row := rows[i];
            && row.filename.Some? && row.truth.Some? && row.location.Inside? && row.location.file.Some?
            && (row.location.suffix == ".docx" || row.location.suffix == ".pdf"))
      && (forall i, j :: 0 <= i < j < |rows| ==>
            rows[i].filename.value != rows[j].filename.value
            && rows[i].location.file.value.id != rows[j].location.file.value.id)
      && (forall p :: p in papers ==> exists i :: 0 <= i < |rows| && rows[i].path == p)
  {
    forall i, j | 0 <= i < j < |rows|
      ensures Column(rows, Filename)[i] != Column(rows, Filename)[j] <==> Filename(rows[i]) != Filename(rows[j])
      ensures Column(rows, SampleId)[i] != Column(rows, SampleId)[j] <==> SampleId(rows[i]) != SampleId(rows[j]) {
    }
    forall p ensures p in Column(rows, PathOf) <==> exists i :: 0 <= i < |rows| && rows[i].path == p {
      if i :| 0 <= i < |rows| && rows[i].path == p { assert Column(rows, PathOf)[i] == p; }
    }
  }

  lemma DifferentPlaces(s: seq<string>, i: nat, j: nat)
    requires Distinct(s) && i < j < |s|
    ensures s[i] != s[j]
  {
  }

  // Both lists are sorted by the same ids.
  lemma IdsAgree(rows: seq<Row>)
    ensures var m := ManifestFor(rows); var ids := Column(m.papers, IdOfPaper);
      && |m.papers| == |m.truths| == |rows|
      && ids == Column(m.truths, IdOfTruth) && multiset(ids) == multiset(Column(rows, SampleId))
  {
    hide Sort, TextLeq;
    var m := ManifestFor(rows);
    IdOrders();
    SortSorts(Column(rows, Paper), PaperLeq);
    SortSorts(Column(rows, TruthOf), TruthLeq);
    var p, t := Column(m.papers, IdOfPaper), Column(m.truths, IdOfTruth);
    ColumnPermutes(m.papers, Column(rows, Paper), IdOfPaper);
    ColumnPermutes(m.truths, Column(rows, TruthOf), IdOfTruth);
    assert Column(Column(rows, Paper), IdOfPaper) == Column(rows, SampleId) == Column(Column(rows, TruthOf), IdOfTruth);
    TextOrder();
    forall i, j | 0 <= i < j < |p| ensures TextLeq(p[i], p[j]) { assert PaperLeq(m.papers[i], m.papers[j]); }
    forall i, j | 0 <= i < j < |t| ensures TextLeq(t[i], t[j]) { assert TruthLeq(m.truths[i], m.truths[j]); }
    SortedUnique(p, t, TextLeq);
  }

  function IdOfPaper(p: PaperRecord): string { p.id }

  function IdOfTruth(t: TruthRecord): string { t.id }
}
