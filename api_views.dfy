/**
 * The dataset-details endpoint: the accession classification chain, the
 * cache directory it keys on, and the check-cache / fetch / parse / answer
 * flow over a cache that persists between requests.
 */
module ApiViews {
  import opened Wrappers
  import opened PyStr
  import opened Json
  import opened Disk
  import opened Config
  import opened Http
  import Utils

  // ================================================================ classification

  /**
   * `\w` on the characters a `<slug:accession>` URL segment can carry
   * (ASCII letters, digits, '_' and '-'); of these, all but '-' are word
   * characters.
   */
  predicate IsWordChar(c: char) {
    ('a' <= c <= 'z') || ('A' <= c <= 'Z') || ('0' <= c <= '9') || c == '_'
  }

  /** `re.match(r"^(TAG\w+)", s)`: the tag, then at least one word character. */
  predicate TagThenWord(tag: string, s: string) {
    |s| > |tag| && s[..|tag|] == tag && IsWordChar(s[|tag|])
  }

  /** The literal tag each repository's accessions start with. */
  function Tag(r: Repo): string {
    match r
    case MTBLS => "MTBLS"
    case MTWB => "ST"
    case MTBK => "MTBK"
  }

  /**
   * The `if`/`elif` chain of `view_DatasetDetails`: MetaboLights, then
   * Metabolomics Workbench, then MetaboBank; `None` is the invalid-accession 404.
   */
  function Classify(accession: string): (r: Option<Repo>)
    ensures r.Some? ==> TagThenWord(Tag(r.value), accession)
  {
    if TagThenWord("MTBLS", accession) then Some(MTBLS)
    else if TagThenWord("ST", accession) then Some(MTWB)
    else if TagThenWord("MTBK", accession) then Some(MTBK)
    else None
  }

  /** No accession matches two of the tags, so the order of the chain decides nothing. */
  lemma TagsExclusive(s: string, r1: Repo, r2: Repo)
    requires TagThenWord(Tag(r1), s) && TagThenWord(Tag(r2), s)
    ensures r1 == r2
  {
    TagChars(r1, s);
    TagChars(r2, s);
    assert s[0] == Tag(r1)[0] && s[0] == Tag(r2)[0];
    assert |Tag(r1)| > 3 ==> s[3] == Tag(r1)[3];
    assert |Tag(r2)| > 3 ==> s[3] == Tag(r2)[3];
  }

  lemma TagChars(r: Repo, s: string)
    requires TagThenWord(Tag(r), s)
    ensures forall i | 0 <= i < |Tag(r)| :: s[i] == Tag(r)[i]
  {
    forall i | 0 <= i < |Tag(r)| ensures s[i] == Tag(r)[i] {
      assert s[..|Tag(r)|][i] == s[i];
    }
  }

  /**
   * Every accession gets exactly one repository or the 404: the chain picks
   * `r` exactly when the accession is `r`'s tag followed by a word character.
   */
  lemma ClassifyExact(accession: string)
    ensures forall r: Repo :: Classify(accession) == Some(r) <==> TagThenWord(Tag(r), accession)
    ensures Classify(accession).None? <==> forall r: Repo :: !TagThenWord(Tag(r), accession)
  {
    forall r: Repo | TagThenWord(Tag(r), accession)
      ensures Classify(accession) == Some(r)
    {
      var c := Classify(accession);
      assert Tag(MTBLS) == "MTBLS" && Tag(MTWB) == "ST" && Tag(MTBK) == "MTBK";
      assert c.Some?;
      TagsExclusive(accession, c.value, r);
    }
  }

  /** A bare tag is invalid, a digit or letter after it is enough, and matching is case-sensitive. */
  lemma ClassifyExamples()
    ensures Classify("MTBLS") == None && Classify("ST") == None && Classify("MTBK") == None
    ensures Classify("MTBLS1") == Some(MTBLS)
    ensures Classify("ST000001") == Some(MTWB)
    ensures Classify("MTBKS93") == Some(MTBK)
    ensures Classify("mtbls1") == None && Classify("ST-1") == None
  {
    assert "MTBLS1"[..5] == "MTBLS";
    assert "ST000001"[..2] == "ST";
    assert "MTBKS93"[..5] != "MTBLS" by { assert "MTBKS93"[..5][3] == 'K'; }
    assert "MTBKS93"[..2] != "ST" by { assert "MTBKS93"[..2][0] == 'M'; }
    assert "MTBKS93"[..4] == "MTBK";
    assert "mtbls1"[..5] != "MTBLS" by { assert "mtbls1"[..5][0] == 'm'; }
    assert "mtbls1"[..2] != "ST" by { assert "mtbls1"[..2][0] == 'm'; }
    assert "mtbls1"[..4] != "MTBK" by { assert "mtbls1"[..4][0] == 'm'; }
    assert "ST-1"[..2] == "ST";
    assert "ST-1"[..4] != "MTBK" by { assert "ST-1"[..4][0] == 'S'; }
  }

  // ================================================================ the cache directory

  /** `os.path.join(settings.DATASETS_DIR, prefix, accession)`. */
  function LocalPath(s: Settings, r: Repo, accession: string): string {
    PathJoinAll(s.datasetsDir, [PrefixOf(s, r), accession])
  }

  /**
   * With a cache root that does not end in '/' and slash-free, non-empty
   * segments, the cache directory is `<root>/<prefix>/<accession>`.
   */
  lemma LocalPathForm(s: Settings, r: Repo, accession: string)
    requires s.datasetsDir != "" && s.datasetsDir[|s.datasetsDir| - 1] != '/'
    requires PrefixOf(s, r) != "" && SlashFree(PrefixOf(s, r))
    requires accession != "" && SlashFree(accession)
    ensures LocalPath(s, r, accession) == s.datasetsDir + "/" + PrefixOf(s, r) + "/" + accession
  {
    var p := PrefixOf(s, r);
    var x := PathJoin(s.datasetsDir, p);
    assert [p, accession][1..] == [accession] && [accession][1..] == [];
    assert LocalPath(s, r, accession) == PathJoinAll(x, [accession]) == PathJoinAll(PathJoin(x, accession), []);
    JoinedTail(s.datasetsDir, p);
    JoinedTail(x, accession);
  }

  /** Joining a non-empty slash-free segment leaves a path that does not end in '/'. */
  lemma JoinedTail(base: string, p: string)
    requires p != "" && SlashFree(p)
    ensures PathJoin(base, p) != "" && PathJoin(base, p)[|PathJoin(base, p)| - 1] != '/'
    ensures PathJoin(base, p) == if base == "" || base[|base| - 1] == '/' then base + p else base + "/" + p
  {
    assert p[0] in p && p[|p| - 1] in p;
  }

  /**
   * Cache directories never collide: with well-formed settings, different
   * repositories or different (non-empty, slash-free) accessions get
   * different directories.
   */
  lemma LocalPathInjective(s: Settings, r1: Repo, a1: string, r2: Repo, a2: string)
    requires WellFormed(s)
    requires a1 != "" && a2 != "" && SlashFree(a1) && SlashFree(a2)
    requires LocalPath(s, r1, a1) == LocalPath(s, r2, a2)
    ensures r1 == r2 && a1 == a2
  {
    var x1 := PathJoin(s.datasetsDir, PrefixOf(s, r1));
    var x2 := PathJoin(s.datasetsDir, PrefixOf(s, r2));
    assert [PrefixOf(s, r1), a1][1..] == [a1] && [PrefixOf(s, r2), a2][1..] == [a2];
    assert [a1][1..] == [] && [a2][1..] == [];
    assert LocalPath(s, r1, a1) == PathJoinAll(x1, [a1]) == PathJoinAll(PathJoin(x1, a1), []);
    assert LocalPath(s, r2, a2) == PathJoinAll(x2, [a2]) == PathJoinAll(PathJoin(x2, a2), []);
    JoinedTail(s.datasetsDir, PrefixOf(s, r1));
    JoinedTail(s.datasetsDir, PrefixOf(s, r2));
    JoinedTail(x1, a1);
    JoinedTail(x2, a2);
    LastSegment(x1, a1, x2, a2);
    PathJoinInjective(s.datasetsDir, PrefixOf(s, r1), PrefixOf(s, r2));
  }

  // ================================================================ the view

  /** What one `get_dataset_data` call did: the files it wrote before it returned or raised. */
  datatype FetchOutcome = FetchOutcome(written: Dir, raised: bool)

  /** The directory the parser reads: the cached one, or nothing at all when it does not exist. */
  function CachedDir(disk: map<string, Dir>, path: string): Dir {
    if path in disk then disk[path] else []
  }

  /** The cache after a fetch: the directory exists once the fetcher has written a file into it. */
  function AfterFetch(disk: map<string, Dir>, path: string, fetch: FetchOutcome): map<string, Dir> {
    if fetch.written == [] then disk else disk[path := fetch.written]
  }

  /** The answer to a parse: the dict as JSON, a 404 for any exception, an uncaught error for `None`. */
  function Answer(accession: string, parsed: Result<Option<Dict>>): Response {
    match parsed
    case Raise(_) => NotFound("Dataset not found: " + accession)
    case Ok(None) => ServerError
    case Ok(Some(d)) => JsonBody(d)
  }

  /** The response `view_DatasetDetails` gives for `accession`, given the cache and what a fetch would do. */
  function DetailsResponse(s: Settings, disk: map<string, Dir>, accession: string, fetch: FetchOutcome): Response {
    match Classify(accession)
    case None => NotFound("Invalid accession code: " + accession)
    case Some(r) =>
      var path := LocalPath(s, r, accession);
      if path !in disk && fetch.raised then NotFound("Dataset not found: " + accession)
      else
        var after := if path in disk then disk else AfterFetch(disk, path, fetch);
        Answer(accession, Utils.DatasetRecord(s, PrefixOf(s, r), accession, CachedDir(after, path)))
  }

  /** The server side of the endpoint: the settings and the cache directories that exist, by path. */
  class DatasetService {
    const settings: Settings
    var disk: map<string, Dir>
    /** The cache paths the endpoint has fetched for, in request order. */
    var fetchLog: seq<string>

    constructor (settings: Settings, disk: map<string, Dir>)
      ensures this.settings == settings && this.disk == disk && fetchLog == []
    {
      this.settings := settings;
      this.disk := disk;
      fetchLog := [];
    }

    /**
     * `view_DatasetDetails`: an invalid accession is a 404 and touches
     * nothing; a cached accession is parsed without a fetch; otherwise the
     * fetch runs once, a raise is a 404, and the parse runs on what it wrote.
     */
    method ViewDatasetDetails(accession: string, fetch: FetchOutcome) returns (resp: Response)
      modifies this
      ensures resp == DetailsResponse(settings, old(disk), accession, fetch)
      ensures Classify(accession).None? ==> disk == old(disk) && fetchLog == old(fetchLog)
      ensures Classify(accession).Some? && LocalPath(settings, Classify(accession).value, accession) in old(disk) ==>
        disk == old(disk) && fetchLog == old(fetchLog)
      ensures Classify(accession).Some? && LocalPath(settings, Classify(accession).value, accession) !in old(disk) ==>
        var path := LocalPath(settings, Classify(accession).value, accession);
        disk == AfterFetch(old(disk), path, fetch) && fetchLog == old(fetchLog) + [path]
    {
      var repo := Classify(accession);
      if repo.None? {
        return NotFound("Invalid accession code: " + accession);
      }
      var prefix := PrefixOf(settings, repo.value);
      var path := PathJoinAll(settings.datasetsDir, [prefix, accession]);
      if path !in disk {
        fetchLog := fetchLog + [path];
        disk := AfterFetch(disk, path, fetch);
        if fetch.raised {
          return NotFound("Dataset not found: " + accession);
        }
      }
      var parsed := Utils.ParseDatasetData(settings, prefix, accession, CachedDir(disk, path));
      resp := Answer(accession, parsed);
    }
  }

  // ================================================================ properties of the flow

  /** A cached accession is answered from the cache alone: what a fetch would do no longer matters. */
  lemma CacheHitIgnoresFetch(s: Settings, disk: map<string, Dir>, accession: string, f1: FetchOutcome, f2: FetchOutcome)
    requires Classify(accession).Some? && LocalPath(s, Classify(accession).value, accession) in disk
    ensures DetailsResponse(s, disk, accession, f1) == DetailsResponse(s, disk, accession, f2)
  {
  }

  /**
   * The parser runs whether or not a fetch happened: a fetch that writes a
   * directory and returns gives the answer a later request gets from that
   * directory, whatever a second fetch would do.
   */
  lemma FetchThenParse(s: Settings, disk: map<string, Dir>, accession: string, fetch: FetchOutcome, later: FetchOutcome)
    requires Classify(accession).Some? && !fetch.raised && fetch.written != []
    requires LocalPath(s, Classify(accession).value, accession) !in disk
    ensures DetailsResponse(s, disk, accession, fetch)
         == DetailsResponse(s, AfterFetch(disk, LocalPath(s, Classify(accession).value, accession), fetch), accession, later)
  {
  }

  /**
   * With distinct prefixes the endpoint never reaches the unhandled `None`:
   * every valid accession ends in its record as JSON or in a 404, and a JSON
   * answer carries the accession it was asked for.
   */
  lemma DetailsOutcomes(s: Settings, disk: map<string, Dir>, accession: string, fetch: FetchOutcome)
    requires WellFormed(s)
    ensures DetailsResponse(s, disk, accession, fetch) != ServerError
    ensures DetailsResponse(s, disk, accession, fetch).JsonBody? ==>
      var d := DetailsResponse(s, disk, accession, fetch).data;
      Utils.AccessionKey in d && d[Utils.AccessionKey] == JStr(accession)
    ensures DetailsResponse(s, disk, accession, fetch).NotFound? && Classify(accession).Some? ==>
      DetailsResponse(s, disk, accession, fetch) == NotFound("Dataset not found: " + accession)
  {
    match Classify(accession)
    case None =>
    case Some(r) =>
      Utils.RepositoryOfPrefix(s, r);
      var path := LocalPath(s, r, accession);
      var after := if path in disk then disk else AfterFetch(disk, path, fetch);
      var dir := CachedDir(after, path);
      match r {
        case MTBLS => Utils.MtblsDatasetFields(s, accession, dir);
        case MTWB => Utils.MtwbDatasetFields(s, accession, dir);
        case MTBK => Utils.MtbkDatasetFields(s, accession, dir);
      }
  }

  /** An accession with no cache directory and a fetch that writes nothing and returns cannot be parsed. */
  lemma NothingFetchedIsNotFound(s: Settings, disk: map<string, Dir>, accession: string)
    requires WellFormed(s) && Classify(accession).Some?
    requires LocalPath(s, Classify(accession).value, accession) !in disk
    ensures DetailsResponse(s, disk, accession, FetchOutcome([], false)) == NotFound("Dataset not found: " + accession)
  {
    Utils.RepositoryOfPrefix(s, Classify(accession).value);
  }
}
