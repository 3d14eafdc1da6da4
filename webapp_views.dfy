/**
 * The web app's file download: which cached file `download_file` serves for
 * an accession and a file type, the path it opens and the attachment name.
 */
module WebappViews {
  import opened Wrappers
  import opened PyStr
  import opened Config
  import opened Http
  import ApiViews

  const MtblsInvestigationFile := "i_Investigation.txt"

  /**
   * The `if`/`elif` table of `download_file`: the repository and file name it
   * binds, or the local it leaves unbound. `prefix` is read first, so an
   * unrecognised accession fails on it even though `filename` is unbound too.
   */
  function DownloadChoice(accession: string, filetype: string): (r: Result<(Repo, string)>)
    ensures r.Ok? ==> ApiViews.Classify(accession) == Some(r.value.0)
    ensures ApiViews.Classify(accession).None? ==> r == Raise(UnboundLocal("prefix"))
  {
    match ApiViews.Classify(accession)
    case None => Raise(UnboundLocal("prefix"))
    case Some(MTBLS) =>
      if filetype == "metadata" then Ok((MTBLS, MtblsInvestigationFile))
      else if filetype == "metabolites" then Ok((MTBLS, "m_" + accession + "_*_maf.tsv"))
      else if filetype == "rawdata" then Ok((MTBLS, MtblsInvestigationFile))
      else Raise(UnboundLocal("filename"))
    case Some(MTWB) => Ok((MTWB, accession + ".mwtab.txt"))
    case Some(MTBK) => Ok((MTBK, accession + ".idf.txt"))
  }

  /**
   * `download_file`: the selected file's contents under the name
   * `<accession>_<filename>` when it exists among `files`, a 404 when it does
   * not, and an uncaught error when the table left a local unbound.
   */
  function DownloadFile(s: Settings, files: set<string>, accession: string, filetype: string := "metadata"): (r: Response)
    ensures r == ServerError <==> DownloadChoice(accession, filetype).Raise?
    ensures r.FileBody? ==> r.path in files && r.attachment == accession + "_" + DownloadChoice(accession, filetype).value.1
    ensures !r.JsonBody?
  {
    match DownloadChoice(accession, filetype)
    case Raise(_) => ServerError
    case Ok((repo, filename)) =>
      var path := PathJoinAll(s.datasetsDir, [PrefixOf(s, repo), accession, filename]);
      if path in files then FileBody(path, accession + "_" + filename) else NotFound("")
  }

  /**
   * The download decision table: an unrecognised accession, or a
   * MetaboLights accession with a file type outside the three, is an error
   * rather than a 404; "metadata" and "rawdata" select the investigation
   * file, "metabolites" the literal `m_<accession>_*_maf.tsv`; Workbench and
   * MetaboBank accessions select their one file whatever the file type.
   */
  lemma DownloadChoiceTable(accession: string, filetype: string)
    ensures DownloadChoice(accession, filetype).Raise? <==>
      ApiViews.Classify(accession).None?
      || (ApiViews.Classify(accession) == Some(MTBLS) && filetype !in {"metadata", "rawdata", "metabolites"})
    ensures ApiViews.Classify(accession) == Some(MTBLS) && filetype in {"metadata", "rawdata"} ==>
      DownloadChoice(accession, filetype) == Ok((MTBLS, "i_Investigation.txt"))
    ensures ApiViews.Classify(accession) == Some(MTBLS) && filetype == "metabolites" ==>
      DownloadChoice(accession, filetype) == Ok((MTBLS, "m_" + accession + "_*_maf.tsv"))
    ensures ApiViews.Classify(accession) == Some(MTWB) ==> DownloadChoice(accession, filetype) == Ok((MTWB, accession + ".mwtab.txt"))
    ensures ApiViews.Classify(accession) == Some(MTBK) ==> DownloadChoice(accession, filetype) == Ok((MTBK, accession + ".idf.txt"))
  {
  }

  /** The file type matters only for MetaboLights accessions, and "rawdata" serves what "metadata" serves. */
  lemma FiletypeIrrelevance(s: Settings, files: set<string>, accession: string, t1: string, t2: string)
    ensures ApiViews.Classify(accession) != Some(MTBLS) ==> DownloadFile(s, files, accession, t1) == DownloadFile(s, files, accession, t2)
    ensures DownloadFile(s, files, accession, "rawdata") == DownloadFile(s, files, accession)
  {
  }

  /**
   * A served file lies in the cache directory the API endpoint parses for the
   * same accession, and carries the accession in its attachment name; a
   * missing file is a 404.
   */
  lemma DownloadPath(s: Settings, files: set<string>, accession: string, filetype: string)
    requires DownloadChoice(accession, filetype).Ok?
    ensures
      var (repo, filename) := DownloadChoice(accession, filetype).value;
      var path := PathJoin(ApiViews.LocalPath(s, repo, accession), filename);
      && repo == ApiViews.Classify(accession).value
      && (path in files ==> DownloadFile(s, files, accession, filetype) == FileBody(path, accession + "_" + filename))
      && (path !in files ==> DownloadFile(s, files, accession, filetype) == NotFound(""))
  {
    var (repo, filename) := DownloadChoice(accession, filetype).value;
    var p := PrefixOf(s, repo);
    var x := PathJoin(s.datasetsDir, p);
    assert [p, accession, filename][1..] == [accession, filename];
    assert [accession, filename][1..] == [filename];
    assert [p, accession][1..] == [accession];
    assert [filename][1..] == [] && [accession][1..] == [];
    assert ApiViews.LocalPath(s, repo, accession) == PathJoinAll(x, [accession]) == PathJoin(x, accession);
    assert PathJoinAll(s.datasetsDir, [p, accession, filename]) == PathJoinAll(x, [accession, filename])
      == PathJoinAll(PathJoin(x, accession), [filename]) == PathJoin(PathJoin(x, accession), filename);
  }
}
