/**
 * The API's utility module: the per-repository parsers that turn a cached
 * dataset directory into the dataset dict, the filename filters the fetchers
 * and parsers use, the HTML-to-text filter, and the two prefix dispatchers.
 * The network transfers and file writes around them are not modelled.
 */
module Utils {
  import opened Wrappers
  import opened PyStr
  import opened Json
  import opened Tables
  import opened Disk
  import opened Config

  // Keys of the dataset dict.
  const AccessionKey := "accession"
  const TitleKey := "Title"
  const DescriptionKey := "Description"
  const RawdataKey := "Rawdata"
  const MetabolitesKey := "Metabolites"
  const AnalysisIdKey := "analysis_id"

  // Labels and column names the parsers look for.
  const TitleLabel := "Study Title"
  const DescriptionLabel := "Study Description"
  const MetaboliteColumn := "metabolite_identification"
  const TypeColumn := "Type"
  const NameColumn := "Name"

  // ================================================================ dispatch

  /**
   * The `if`/`elif` chain on the settings prefixes that both `get_dataset_data`
   * and `parse_dataset_data` use: the first prefix equal to `prefix` picks the
   * repository; none equal falls through (the function returns None).
   */
  function RepositoryOf(s: Settings, prefix: string): (r: Option<Repo>)
    ensures r.Some? ==> PrefixOf(s, r.value) == prefix
    ensures r.None? <==> forall k: Repo :: PrefixOf(s, k) != prefix
  {
    if prefix == s.mtblsPrefix then Some(MTBLS)
    else if prefix == s.mtwbPrefix then Some(MTWB)
    else if prefix == s.mtbkPrefix then Some(MTBK)
    else None
  }

  /** With distinct prefixes the dispatch returns the repository whose prefix it was given. */
  lemma RepositoryOfPrefix(s: Settings, r: Repo)
    requires WellFormed(s)
    ensures RepositoryOf(s, PrefixOf(s, r)) == Some(r)
  {
  }

  // ================================================================ filename patterns

  /** One of the four-character extensions `exts` starts at index `j`. */
  predicate ExtAt(s: string, j: int, exts: set<string>) {
    0 <= j && j + 4 <= |s| && s[j..j + 4] in exts
  }

  /** No newline in `s[from..to]` (a regex `.` matches anything but a newline). */
  predicate NoNewline(s: string, from: nat, to: int) {
    forall k | from <= k < to :: k < |s| && s[k] != '\n'
  }

  /**
   * What `.+\.(ext)` asks of `s` from index `from` on: some `j > from` where an
   * extension starts, with no newline in the stretch `s[from..j]` that `.+` covers.
   */
  ghost predicate DotPlusThenExt(s: string, from: nat, exts: set<string>) {
    exists j :: from < j && ExtAt(s, j, exts) && NoNewline(s, from, j)
  }

  /**
   * The backtracking search a regex engine makes for `.+\.(ext)`: `.+` has
   * consumed up to `j`; try an extension at `j`, else let `.+` take one more.
   */
  function ScanExt(s: string, j: nat, exts: set<string>): bool
    requires j >= 1
    decreases |s| - j
  {
    j + 4 <= |s| && s[j - 1] != '\n' && (s[j..j + 4] in exts || ScanExt(s, j + 1, exts))
  }

  lemma {:induction false} ScanExtMeans(s: string, from: nat, j: nat, exts: set<string>)
    requires from < j && NoNewline(s, from, j - 1)
    ensures ScanExt(s, j, exts) <==> exists j' :: j <= j' && ExtAt(s, j', exts) && NoNewline(s, from, j')
    decreases |s| - j
  {
    if j + 4 > |s| {
    } else if s[j - 1] == '\n' {
      forall j' | j <= j' && ExtAt(s, j', exts) ensures !NoNewline(s, from, j') {
        assert from <= j - 1 < j';
      }
    } else {
      assert NoNewline(s, from, j);
      ScanExtMeans(s, from, j + 1, exts);
      if ExtAt(s, j, exts) {
        assert s[j..j + 4] in exts;
      }
    }
  }

  /**
   * `re.match(r"([siam]).+\.((txt)|(tsv))", name)`: the FTP entries the
   * MetaboLights fetcher downloads. `re.match` anchors at the start only, so
   * anything may follow the extension.
   */
  predicate IsMtblsMetadataFile(name: string) {
    |name| >= 1 && name[0] in "siam" && ScanExt(name, 2, {".txt", ".tsv"})
  }

  lemma IsMtblsMetadataFileMeans(name: string)
    ensures IsMtblsMetadataFile(name)
        <==> |name| >= 1 && name[0] in "siam" && DotPlusThenExt(name, 1, {".txt", ".tsv"})
  {
    if |name| >= 1 {
      ScanExtMeans(name, 1, 2, {".txt", ".tsv"});
    }
  }

  /** `re.match("(m_).+\.(tsv)", name)`: the MetaboLights metabolite table. */
  predicate IsMetaboliteTable(name: string) {
    |name| >= 2 && name[..2] == "m_" && ScanExt(name, 3, {".tsv"})
  }

  lemma IsMetaboliteTableMeans(name: string)
    ensures IsMetaboliteTable(name)
        <==> |name| >= 2 && name[..2] == "m_" && DotPlusThenExt(name, 2, {".tsv"})
  {
    if |name| >= 2 {
      ScanExtMeans(name, 2, 3, {".tsv"});
    }
  }

  /** `"maf" in name`: the MetaboBank metabolite table. */
  predicate MentionsMaf(name: string) {
    Contains(name, "maf")
  }

  /**
   * The investigation file is fetched and the FILES directory is not; a name
   * with text after its extension still matches; `.+` needs one character.
   */
  lemma FilenamePatternExamples()
    ensures IsMtblsMetadataFile("i_Investigation.txt")
    ensures !IsMtblsMetadataFile("FILES")
    ensures IsMtblsMetadataFile("s_x.txt.gz")
    ensures IsMetaboliteTable("m_x.tsv")
    ensures !IsMetaboliteTable("m_.tsv")
  {
    var inv := "i_Investigation.txt";
    IsMtblsMetadataFileMeans(inv);
    assert inv[15..19] == ".txt";
    assert ExtAt(inv, 15, {".txt", ".tsv"});
    var gz := "s_x.txt.gz";
    IsMtblsMetadataFileMeans(gz);
    assert gz[3..7] == ".txt";
    assert ExtAt(gz, 3, {".txt", ".tsv"});
    var maf := "m_x.tsv";
    IsMetaboliteTableMeans(maf);
    assert maf[3..7] == ".tsv";
    assert ExtAt(maf, 3, {".tsv"});
  }

  // ================================================================ scans that keep the last hit

  /** Index of the last element of `xs` satisfying `p`. */
  function LastHit(xs: seq<string>, p: string -> bool): (r: Option<nat>)
    ensures r.Some? ==> r.value < |xs| && p(xs[r.value]) && forall j | r.value < j < |xs| :: !p(xs[j])
    ensures r.None? ==> forall j | 0 <= j < |xs| :: !p(xs[j])
  {
    if xs == [] then None
    else if p(xs[|xs| - 1]) then Some(|xs| - 1)
    else LastHit(xs[..|xs| - 1], p)
  }

  /** What a scan that assigns on every hit is left holding: the last element satisfying `p`. */
  function LastWhere(xs: seq<string>, p: string -> bool): Option<string> {
    match LastHit(xs, p)
    case Some(i) => Some(xs[i])
    case None => None
  }

  /** The last hit is the one hit after which nothing qualifies. */
  lemma LastWhereAt(xs: seq<string>, p: string -> bool, i: nat)
    requires i < |xs| && p(xs[i]) && forall j | i < j < |xs| :: !p(xs[j])
    ensures LastWhere(xs, p) == Some(xs[i])
  {
  }

  /** Appending an element either makes it the last hit or leaves the last hit alone. */
  lemma LastWhereSnoc(xs: seq<string>, x: string, p: string -> bool)
    ensures LastWhere(xs + [x], p) == if p(x) then Some(x) else LastWhere(xs, p)
  {
    assert (xs + [x])[..|xs|] == xs;
  }

  /** `for name in names: if p(name): found = name`. */
  method FindLast(names: seq<string>, p: string -> bool) returns (found: Option<string>)
    ensures found == LastWhere(names, p)
  {
    found := None;
    for i := 0 to |names|
      invariant found == LastWhere(names[..i], p)
    {
      assert names[..i + 1][..i] == names[..i];
      if p(names[i]) {
        found := Some(names[i]);
      }
    }
    assert names[..|names|] == names;
  }

  // ================================================================ labelled metadata lines

  predicate IsTitleLine(line: string) {
    Contains(line, TitleLabel)
  }

  predicate IsDescriptionLine(line: string) {
    Contains(line, DescriptionLabel)
  }

  /** `line.replace(label, "").strip()`. */
  function LabelledValue(line: string, marker: string): string {
    Strip(RemoveAll(line, marker))
  }

  /** One pass of the loop body: each label present in the line overwrites its key. */
  function MetadataStep(d: Dict, line: string): Dict {
    var d1 := if IsTitleLine(line) then d[TitleKey := JStr(LabelledValue(line, TitleLabel))] else d;
    if IsDescriptionLine(line) then d1[DescriptionKey := JStr(LabelledValue(line, DescriptionLabel))] else d1
  }

  /** The dict after the label scan over `lines`, one step per line in file order. */
  function WithMetadata(lines: seq<string>, d: Dict): Dict {
    if lines == [] then d else MetadataStep(WithMetadata(lines[..|lines| - 1], d), lines[|lines| - 1])
  }

  /** `get_metadata_mtbls` and `get_metadata_mtbk` (identical) over the lines `readlines()` gave. */
  method GetMetadata(lines: seq<string>, dataset: Dict) returns (updated: Dict)
    ensures updated == WithMetadata(lines, dataset)
  {
    updated := dataset;
    for i := 0 to |lines|
      invariant updated == WithMetadata(lines[..i], dataset)
    {
      var line := lines[i];
      assert lines[..i + 1][..i] == lines[..i];
      if Contains(line, TitleLabel) {
        updated := updated[TitleKey := JStr(Strip(RemoveAll(line, TitleLabel)))];
      }
      if Contains(line, DescriptionLabel) {
        updated := updated[DescriptionKey := JStr(Strip(RemoveAll(line, DescriptionLabel)))];
      }
    }
    assert lines[..|lines|] == lines;
  }

  /**
   * The rule for one labelled key: the key holds the last line containing
   * the label, with the label removed and whitespace stripped; with no such
   * line it is present only if it was in `d`, unchanged.
   */
  predicate FromLastLine(w: Dict, d: Dict, lines: seq<string>, key: string, isLine: string -> bool, marker: string) {
    match LastWhere(lines, isLine)
    case Some(l) => key in w && w[key] == JStr(LabelledValue(l, marker))
    case None => (key in w <==> key in d) && (key in d ==> w[key] == d[key])
  }

  lemma {:induction false} MetadataTitle(lines: seq<string>, d: Dict)
    ensures FromLastLine(WithMetadata(lines, d), d, lines, TitleKey, IsTitleLine, TitleLabel)
    decreases |lines|
  {
    if lines != [] {
      var n := |lines|;
      MetadataTitle(lines[..n - 1], d);
      assert lines == lines[..n - 1] + [lines[n - 1]];
      LastWhereSnoc(lines[..n - 1], lines[n - 1], IsTitleLine);
    }
  }

  lemma {:induction false} MetadataDescription(lines: seq<string>, d: Dict)
    ensures FromLastLine(WithMetadata(lines, d), d, lines, DescriptionKey, IsDescriptionLine, DescriptionLabel)
    decreases |lines|
  {
    if lines != [] {
      var n := |lines|;
      MetadataDescription(lines[..n - 1], d);
      assert lines == lines[..n - 1] + [lines[n - 1]];
      LastWhereSnoc(lines[..n - 1], lines[n - 1], IsDescriptionLine);
    }
  }

  lemma {:induction false} MetadataOthers(lines: seq<string>, d: Dict, k: string)
    requires k != TitleKey && k != DescriptionKey
    ensures k in WithMetadata(lines, d) <==> k in d
    ensures k in d ==> WithMetadata(lines, d)[k] == d[k]
    decreases |lines|
  {
    if lines != [] {
      MetadataOthers(lines[..|lines| - 1], d, k);
    }
  }

  /**
   * Last line wins: Title and Description each follow the label rule on
   * their own label, independently of each other (one line may set both),
   * and no other key changes.
   */
  lemma MetadataKeys(lines: seq<string>, d: Dict)
    ensures FromLastLine(WithMetadata(lines, d), d, lines, TitleKey, IsTitleLine, TitleLabel)
    ensures FromLastLine(WithMetadata(lines, d), d, lines, DescriptionKey, IsDescriptionLine, DescriptionLabel)
    ensures forall k | k != TitleKey && k != DescriptionKey ::
      (k in WithMetadata(lines, d) <==> k in d) && (k in d ==> WithMetadata(lines, d)[k] == d[k])
  {
    MetadataTitle(lines, d);
    MetadataDescription(lines, d);
    forall k | k != TitleKey && k != DescriptionKey
      ensures (k in WithMetadata(lines, d) <==> k in d) && (k in d ==> WithMetadata(lines, d)[k] == d[k])
    {
      MetadataOthers(lines, d, k);
    }
  }

  /** A tab-separated title line yields the text after the tab, without its newline. */
  lemma TitleLineExample()
    ensures LabelledValue("Study Title\tMy Study\n", TitleLabel) == "My Study"
  {
    var line := "Study Title\tMy Study\n";
    assert line[..11] == TitleLabel;
    assert line[11..] == "\t" + "My Study" + "\n";
    StripPadded("\t", "My Study", "\n");
  }

  /**
   * A line that starts with a label and does not repeat it is a labelled line,
   * and its value is the rest of the line stripped.
   */
  lemma LabelledLine(marker: string, rest: string)
    requires marker != "" && !Contains(rest, marker)
    ensures Contains(marker + rest, marker)
    ensures LabelledValue(marker + rest, marker) == Strip(rest)
  {
    assert OccursAt(marker + rest, marker, 0);
    RemoveAllLeading(marker, rest);
    RemoveAllAbsent(rest, marker);
  }

  // ================================================================ MetaboLights manifest

  function StrippedLines(lines: seq<string>): seq<string> {
    seq(|lines|, i requires 0 <= i < |lines| => Strip(lines[i]))
  }

  /**
   * `get_rawdata_filenames_mtbls`: one entry per manifest line, each the line
   * stripped, in file order, duplicates kept.
   */
  method GetRawdataFilenamesMtbls(lines: seq<string>, dataset: Dict) returns (updated: Dict)
    ensures updated == dataset[RawdataKey := StrArray(StrippedLines(lines))]
  {
    var names: seq<string> := [];
    for i := 0 to |lines|
      invariant |names| == i
      invariant forall k | 0 <= k < i :: names[k] == Strip(lines[k])
    {
      names := names + [Strip(lines[i])];
    }
    assert names == StrippedLines(lines);
    updated := dataset[RawdataKey := StrArray(names)];
  }

  // ================================================================ metabolite tables

  /** `for cell in column: if pd.isna(cell): continue; names.append(cell)`. */
  method CollectPresent(cells: seq<Cell>) returns (names: seq<string>)
    ensures names == Present(cells)
  {
    names := [];
    for i := 0 to |cells|
      invariant names == Present(cells[..i])
    {
      assert cells[..i + 1][..i] == cells[..i];
      if cells[i].Some? {
        names := names + [cells[i].value];
      }
    }
    assert cells[..|cells|] == cells;
  }

  /** The `metabolite_identification` column of a read table, missing cells dropped. */
  function TableMetabolites(t: Result<Table>): Result<seq<string>> {
    match t
    case Raise(e) => Raise(e)
    case Ok(table) =>
      match Column(table, MetaboliteColumn)
      case None => Raise(KeyError(MetaboliteColumn))
      case Some(c) => Ok(Present(c))
  }

  /**
   * The metabolites a directory yields: the table of the last entry `isTable`
   * accepts, or none at all when no entry does.
   */
  function MetabolitesOf(d: Dir, isTable: string -> bool): Result<seq<string>> {
    match LastWhere(Names(d), isTable)
    case None => Ok([])
    case Some(name) => TableMetabolites(ReadTable(d, name))
  }

  /**
   * Metabolite-file selection: with no qualifying entry the list is empty;
   * otherwise the last qualifying entry's table is read, a read failure or a
   * missing column raises, and the list is that column's present cells.
   */
  lemma MetabolitesSelection(d: Dir, isTable: string -> bool)
    ensures (forall i | 0 <= i < |d| :: !isTable(d[i].name)) ==> MetabolitesOf(d, isTable) == Ok([])
    ensures forall i | 0 <= i < |d| && isTable(d[i].name) && (forall j | i < j < |d| :: !isTable(d[j].name)) ::
      MetabolitesOf(d, isTable) == TableMetabolites(ReadTable(d, d[i].name))
  {
    var names := Names(d);
    forall i | 0 <= i < |d| && isTable(d[i].name) && (forall j | i < j < |d| :: !isTable(d[j].name))
      ensures MetabolitesOf(d, isTable) == TableMetabolites(ReadTable(d, d[i].name))
    {
      LastWhereAt(names, isTable, i);
    }
  }

  /** A read table yields its column's present cells: no more than it has rows, and exactly the present values. */
  lemma TableMetabolitesFacts(t: Table)
    ensures TableMetabolites(Ok(t)).Ok? <==> MetaboliteColumn in t.header
    ensures TableMetabolites(Ok(t)).Ok? ==>
      var ms := TableMetabolites(Ok(t)).value;
      var c := Column(t, MetaboliteColumn).value;
      |ms| <= |t.rows| && ms == Present(c) && forall x :: x in ms <==> Some(x) in c
  {
    if MetaboliteColumn in t.header {
      PresentFacts(Column(t, MetaboliteColumn).value);
    }
  }

  /** `get_metabolites_names_mtbls` (with `IsMetaboliteTable`) and `get_metabolites_names_mtbk` (with `MentionsMaf`). */
  method GetMetabolitesNames(d: Dir, isTable: string -> bool, dataset: Dict) returns (r: Result<Dict>)
    ensures r == SetList(MetabolitesOf(d, isTable), dataset, MetabolitesKey)
  {
    var name := FindLast(Names(d), isTable);
    var metabolites: seq<string> := [];
    if name.Some? {
      var t := ReadTable(d, name.value);
      if t.Raise? {
        return Raise(t.error);
      }
      var column := Column(t.value, MetaboliteColumn);
      if column.None? {
        return Raise(KeyError(MetaboliteColumn));
      }
      metabolites := CollectPresent(column.value);
    }
    r := Ok(dataset[MetabolitesKey := StrArray(metabolites)]);
  }

  /** `dataset[key] = names` after a step that produced `names`, or that step's exception. */
  function SetList(r: Result<seq<string>>, d: Dict, key: string): Result<Dict> {
    match r
    case Ok(xs) => Ok(d[key := StrArray(xs)])
    case Raise(e) => Raise(e)
  }

  // ================================================================ MetaboBank file list

  /** `df.loc[df["Type"] == "raw"]["Name"]`: the Name cells of the rows whose Type is exactly "raw". */
  function RawRows(types: seq<Cell>, names: seq<Cell>): (r: seq<Cell>)
    requires |types| == |names|
    ensures |r| <= |names|
  {
    if names == [] then []
    else
      var n := |names|;
      RawRows(types[..n - 1], names[..n - 1]) + (if types[n - 1] == Some("raw") then [names[n - 1]] else [])
  }

  lemma {:induction false} RawRowsAppend(t1: seq<Cell>, n1: seq<Cell>, t2: seq<Cell>, n2: seq<Cell>)
    requires |t1| == |n1| && |t2| == |n2|
    ensures RawRows(t1 + t2, n1 + n2) == RawRows(t1, n1) + RawRows(t2, n2)
    decreases |n2|
  {
    if n2 == [] {
      assert t1 + t2 == t1 && n1 + n2 == n1;
    } else {
      var k := |n2|;
      assert (t1 + t2)[..|t1 + t2| - 1] == t1 + t2[..k - 1];
      assert (n1 + n2)[..|n1 + n2| - 1] == n1 + n2[..k - 1];
      RawRowsAppend(t1, n1, t2[..k - 1], n2[..k - 1]);
    }
  }

  /** The raw-data names of a file list: the present Name cells of the "raw" rows. */
  function RawNames(types: seq<Cell>, names: seq<Cell>): seq<string>
    requires |types| == |names|
  {
    Present(RawRows(types, names))
  }

  /**
   * MetaboBank raw data keeps exactly the rows whose Type is "raw" and whose
   * Name is present, in row order: the list is built row by row, a row
   * contributing its Name only when both hold.
   */
  lemma RawNamesFacts(t1: seq<Cell>, n1: seq<Cell>, t2: seq<Cell>, n2: seq<Cell>)
    requires |t1| == |n1| && |t2| == |n2|
    ensures RawNames(t1 + t2, n1 + n2) == RawNames(t1, n1) + RawNames(t2, n2)
    ensures |RawNames(t1, n1)| <= |n1|
  {
    RawRowsAppend(t1, n1, t2, n2);
    PresentAppend(RawRows(t1, n1), RawRows(t2, n2));
    PresentFacts(RawRows(t1, n1));
  }

  /** One row contributes its Name exactly when its Type is "raw" and its Name is present. */
  lemma RawNamesRow(ty: Cell, nm: Cell)
    ensures RawNames([ty], [nm]) == if ty == Some("raw") && nm.Some? then [nm.value] else []
  {
    assert [ty][..0] == [] && [nm][..0] == [];
    assert RawRows([ty], [nm]) == if ty == Some("raw") then [nm] else [];
    assert Present([nm]) == Present([]) + match nm case Some(x) => [x] case None => [];
  }

  /** What `get_rawdata_filenames_mtbk` computes from the read file list. */
  function MtbkRawdataOf(t: Result<Table>): Result<seq<string>> {
    match t
    case Raise(e) => Raise(e)
    case Ok(table) =>
      match Column(table, TypeColumn)
      case None => Raise(KeyError(TypeColumn))
      case Some(types) =>
        match Column(table, NameColumn)
        case None => Raise(KeyError(NameColumn))
        case Some(names) => Ok(RawNames(types, names))
  }

  /** `get_rawdata_filenames_mtbk`. */
  method GetRawdataFilenamesMtbk(d: Dir, filename: string, dataset: Dict) returns (r: Result<Dict>)
    ensures r == SetList(MtbkRawdataOf(ReadTable(d, filename)), dataset, RawdataKey)
  {
    var t := ReadTable(d, filename);
    if t.Raise? {
      return Raise(t.error);
    }
    var types := Column(t.value, TypeColumn);
    if types.None? {
      return Raise(KeyError(TypeColumn));
    }
    var rows := Column(t.value, NameColumn);
    if rows.None? {
      return Raise(KeyError(NameColumn));
    }
    var filtered := RawRows(types.value, rows.value);
    var names := CollectPresent(filtered);
    r := Ok(dataset[RawdataKey := StrArray(names)]);
  }

  // ================================================================ Metabolomics Workbench JSON

  /** `v[k1][k2]`. */
  function Index2(v: Value, k1: string, k2: string): Result<Value> {
    match Index(v, k1)
    case Raise(e) => Raise(e)
    case Ok(inner) => Index(inner, k2)
  }

  /**
   * `get_metadata_mtwb` on the loaded document: "analysis_id", "Title" and
   * "Description" are copied from the document only when truthy; a missing
   * key raises.
   */
  function WorkbenchMetadata(doc: Value, d: Dict): Result<Dict> {
    match Index2(doc, "METABOLOMICS WORKBENCH", "ANALYSIS_ID")
    case Raise(e) => Raise(e)
    case Ok(aid) =>
      var d1 := if Truthy(aid) then d[AnalysisIdKey := aid] else d;
      match Index2(doc, "STUDY", "STUDY_TITLE")
      case Raise(e) => Raise(e)
      case Ok(title) =>
        var d2 := if Truthy(title) then d1[TitleKey := title] else d1;
        match Index2(doc, "STUDY", "STUDY_SUMMARY")
        case Raise(e) => Raise(e)
        case Ok(summary) => Ok(if Truthy(summary) then d2[DescriptionKey := summary] else d2)
  }

  /**
   * The Workbench metadata keys: the step succeeds exactly when the three
   * paths exist; then each key holds the document's value if that value is
   * truthy and is otherwise left as it was.
   */
  lemma WorkbenchMetadataKeys(doc: Value, d: Dict)
    ensures WorkbenchMetadata(doc, d).Ok? <==>
      Index2(doc, "METABOLOMICS WORKBENCH", "ANALYSIS_ID").Ok? && Index2(doc, "STUDY", "STUDY_TITLE").Ok?
      && Index2(doc, "STUDY", "STUDY_SUMMARY").Ok?
    ensures WorkbenchMetadata(doc, d).Ok? ==>
      var r := WorkbenchMetadata(doc, d).value;
      var aid := Index2(doc, "METABOLOMICS WORKBENCH", "ANALYSIS_ID").value;
      var title := Index2(doc, "STUDY", "STUDY_TITLE").value;
      var summary := Index2(doc, "STUDY", "STUDY_SUMMARY").value;
      && (Truthy(aid) ==> AnalysisIdKey in r && r[AnalysisIdKey] == aid)
      && (!Truthy(aid) ==> (AnalysisIdKey in r <==> AnalysisIdKey in d) && (AnalysisIdKey in d ==> r[AnalysisIdKey] == d[AnalysisIdKey]))
      && (Truthy(title) ==> TitleKey in r && r[TitleKey] == title)
      && (!Truthy(title) ==> (TitleKey in r <==> TitleKey in d) && (TitleKey in d ==> r[TitleKey] == d[TitleKey]))
      && (Truthy(summary) ==> DescriptionKey in r && r[DescriptionKey] == summary)
      && (!Truthy(summary) ==> (DescriptionKey in r <==> DescriptionKey in d) && (DescriptionKey in d ==> r[DescriptionKey] == d[DescriptionKey]))
      && forall k | k != AnalysisIdKey && k != TitleKey && k != DescriptionKey :: (k in r <==> k in d) && (k in d ==> r[k] == d[k])
  {
  }

  /**
   * `for x in v`: a list yields its items; an empty dict or string yields
   * nothing; a non-empty dict or string yields strings, and indexing the first
   * of them with "Metabolite" raises TypeError; anything else is not iterable.
   */
  function Iterate(v: Value): Result<seq<Value>> {
    match v
    case JArray(xs) => Ok(xs)
    case JObject(m) => if m == map[] then Ok([]) else Raise(TypeError)
    case JStr(s) => if s == "" then Ok([]) else Raise(TypeError)
    case _ => Raise(TypeError)
  }

  /** The truthy `Metabolite` values of the entries in order; the first entry without one raises. */
  function WorkbenchNames(entries: seq<Value>): Result<seq<Value>> {
    if entries == [] then Ok([])
    else
      match WorkbenchNames(entries[..|entries| - 1])
      case Raise(e) => Raise(e)
      case Ok(ms) =>
        match Index(entries[|entries| - 1], "Metabolite")
        case Raise(e) => Raise(e)
        case Ok(m) => Ok(if Truthy(m) then ms + [m] else ms)
  }

  /** Once a prefix of the entries raises, the whole list raises the same exception. */
  lemma {:induction false} WorkbenchNamesRaiseSticks(entries: seq<Value>, k: nat)
    requires k <= |entries| && WorkbenchNames(entries[..k]).Raise?
    ensures WorkbenchNames(entries) == WorkbenchNames(entries[..k])
    decreases |entries| - k
  {
    if k < |entries| {
      assert entries[..k + 1][..k] == entries[..k];
      WorkbenchNamesRaiseSticks(entries, k + 1);
    } else {
      assert entries[..k] == entries;
    }
  }

  /** The names of consecutive entry runs are concatenated: the list keeps entry order and every hit. */
  lemma {:induction false} WorkbenchNamesAppend(a: seq<Value>, b: seq<Value>)
    requires WorkbenchNames(a).Ok? && WorkbenchNames(b).Ok?
    ensures WorkbenchNames(a + b) == Ok(WorkbenchNames(a).value + WorkbenchNames(b).value)
    decreases |b|
  {
    if b == [] {
      assert a + b == a;
      assert WorkbenchNames(a).value + [] == WorkbenchNames(a).value;
    } else {
      var init, last := b[..|b| - 1], b[|b| - 1];
      assert (a + b)[..|a + b| - 1] == a + init;
      assert (a + b)[|a + b| - 1] == last;
      WorkbenchNamesAppend(a, init);
      var xs, ys := WorkbenchNames(a).value, WorkbenchNames(init).value;
      var m := Index(last, "Metabolite").value;
      assert WorkbenchNames(b).value == if Truthy(m) then ys + [m] else ys;
      assert WorkbenchNames(a + b) == Ok(if Truthy(m) then (xs + ys) + [m] else xs + ys);
      assert (xs + ys) + [m] == xs + (ys + [m]);
    }
  }

  /** One entry gives its "Metabolite" value when truthy, nothing when falsy, and raises without one. */
  lemma WorkbenchNamesEntry(e: Value)
    ensures WorkbenchNames([e]) ==
      match Index(e, "Metabolite")
      case Ok(m) => Ok(if Truthy(m) then [m] else [])
      case Raise(x) => Raise(x)
  {
    assert [e][..0] == [] && [e][0] == e;
    assert WorkbenchNames([]) == Ok([]);
    match Index(e, "Metabolite")
    case Ok(m) => assert [] + [m] == [m];
    case Raise(x) =>
  }

  /**
   * Workbench metabolites: the list is read exactly when every entry is a
   * dict with a "Metabolite" key; it then holds, in entry order, the truthy
   * values among them and nothing else.
   */
  lemma {:induction false} WorkbenchNamesFacts(entries: seq<Value>)
    ensures WorkbenchNames(entries).Ok? <==> forall i | 0 <= i < |entries| :: Index(entries[i], "Metabolite").Ok?
    ensures WorkbenchNames(entries).Ok? ==>
      var ms := WorkbenchNames(entries).value;
      && |ms| <= |entries|
      && (forall x | x in ms :: Truthy(x))
      && forall x :: x in ms <==> exists i | 0 <= i < |entries| :: Index(entries[i], "Metabolite") == Ok(x) && Truthy(x)
    decreases |entries|
  {
    if entries != [] {
      var n := |entries|;
      var init := entries[..n - 1];
      WorkbenchNamesFacts(init);
      assert forall i | 0 <= i < n - 1 :: init[i] == entries[i];
      if WorkbenchNames(entries).Ok? {
        var ms := WorkbenchNames(entries).value;
        forall x ensures x in ms <==> exists i | 0 <= i < n :: Index(entries[i], "Metabolite") == Ok(x) && Truthy(x) {
          if exists i | 0 <= i < n :: Index(entries[i], "Metabolite") == Ok(x) && Truthy(x) {
            var i :| 0 <= i < n && Index(entries[i], "Metabolite") == Ok(x) && Truthy(x);
            if i < n - 1 {
              assert Index(init[i], "Metabolite") == Ok(x);
            }
          }
        }
      }
    }
  }

  /** `for metabolite_data in data: name = metabolite_data["Metabolite"]; if name: names.append(name)`. */
  method CollectWorkbenchMetabolites(entries: seq<Value>) returns (r: Result<seq<Value>>)
    ensures r == WorkbenchNames(entries)
  {
    var names: seq<Value> := [];
    for i := 0 to |entries|
      invariant WorkbenchNames(entries[..i]) == Ok(names)
    {
      assert entries[..i + 1][..i] == entries[..i];
      var m := Index(entries[i], "Metabolite");
      if m.Raise? {
        WorkbenchNamesRaiseSticks(entries, i + 1);
        return Raise(m.error);
      }
      if Truthy(m.value) {
        names := names + [m.value];
      }
    }
    assert entries[..|entries|] == entries;
    r := Ok(names);
  }

  /** What `get_metabolites_names_mtwb` computes from the loaded document. */
  function WorkbenchMetabolitesOf(doc: Value): Result<seq<Value>> {
    match Index2(doc, "MS_METABOLITE_DATA", "Data")
    case Raise(e) => Raise(e)
    case Ok(data) =>
      match Iterate(data)
      case Raise(e) => Raise(e)
      case Ok(entries) => WorkbenchNames(entries)
  }

  /** `get_metabolites_names_mtwb` on the loaded document. */
  method GetMetabolitesNamesMtwb(doc: Value, dataset: Dict) returns (r: Result<Dict>)
    ensures r == match WorkbenchMetabolitesOf(doc)
                 case Ok(ms) => Ok(dataset[MetabolitesKey := JArray(ms)])
                 case Raise(e) => Raise(e)
  {
    var data := Index2(doc, "MS_METABOLITE_DATA", "Data");
    if data.Raise? {
      return Raise(data.error);
    }
    var entries := Iterate(data.value);
    if entries.Raise? {
      return Raise(entries.error);
    }
    var ms := CollectWorkbenchMetabolites(entries.value);
    if ms.Raise? {
      return Raise(ms.error);
    }
    r := Ok(dataset[MetabolitesKey := JArray(ms.value)]);
  }

  // ================================================================ whole parsers

  function Fresh(accession: string): Dict {
    map[AccessionKey := JStr(accession)]
  }

  /** The dict `parse_dataset_data_mtbls` builds from a MetaboLights cache directory. */
  function MtblsDataset(s: Settings, accession: string, d: Dir): Result<Dict> {
    match Open(d, s.mtblsInvestigation)
    case Raise(e) => Raise(e)
    case Ok(inv) =>
      var d1 := WithMetadata(inv.lines, Fresh(accession));
      match Open(d, s.mtblsResultFiles)
      case Raise(e) => Raise(e)
      case Ok(manifest) =>
        SetList(MetabolitesOf(d, IsMetaboliteTable), d1[RawdataKey := StrArray(StrippedLines(manifest.lines))], MetabolitesKey)
  }

  /** The JSON file the Workbench parser reads, named after the accession. */
  function MtwbJsonName(s: Settings, accession: string): string {
    accession + s.mtwbJsonSuffix
  }

  /** The dict `parse_dataset_data_mtwb` builds; the document is loaded twice, to the same value. */
  function MtwbDataset(s: Settings, accession: string, d: Dir): Result<Dict> {
    match ReadJson(d, MtwbJsonName(s, accession))
    case Raise(e) => Raise(e)
    case Ok(doc) =>
      match WorkbenchMetadata(doc, Fresh(accession))
      case Raise(e) => Raise(e)
      case Ok(d1) =>
        match WorkbenchMetabolitesOf(doc)
        case Raise(e) => Raise(e)
        case Ok(ms) => Ok(d1[MetabolitesKey := JArray(ms)])
  }

  function MtbkIdfName(s: Settings, accession: string): string {
    accession + s.mtbkIdfPrefix + s.mtbkFilesSuffix
  }

  function MtbkFilelistName(s: Settings, accession: string): string {
    accession + s.mtbkFilelistPrefix + s.mtbkFilesSuffix
  }

  /** The dict `parse_dataset_data_mtbk` builds from a MetaboBank cache directory. */
  function MtbkDataset(s: Settings, accession: string, d: Dir): Result<Dict> {
    match Open(d, MtbkIdfName(s, accession))
    case Raise(e) => Raise(e)
    case Ok(idf) =>
      var d1 := WithMetadata(idf.lines, Fresh(accession));
      match SetList(MetabolitesOf(d, MentionsMaf), d1, MetabolitesKey)
      case Raise(e) => Raise(e)
      case Ok(d2) => SetList(MtbkRawdataOf(ReadTable(d, MtbkFilelistName(s, accession))), d2, RawdataKey)
  }

  /** A parser's outcome as `parse_dataset_data` passes it on: the dict, or its exception. */
  function AsRecord(r: Result<Dict>): Result<Option<Dict>> {
    match r
    case Raise(e) => Raise(e)
    case Ok(dict) => Ok(Some(dict))
  }

  /** `parse_dataset_data`: the parser the prefix selects; an unknown prefix returns None. */
  function DatasetRecord(s: Settings, prefix: string, accession: string, d: Dir): Result<Option<Dict>> {
    match RepositoryOf(s, prefix)
    case None => Ok(None)
    case Some(MTBLS) => AsRecord(MtblsDataset(s, accession, d))
    case Some(MTWB) => AsRecord(MtwbDataset(s, accession, d))
    case Some(MTBK) => AsRecord(MtbkDataset(s, accession, d))
  }

  /**
   * A MetaboLights record: it exists exactly when the investigation file and
   * the manifest are cached and the metabolite step succeeds; it carries the
   * accession, one stripped Rawdata entry per manifest line and the metabolite
   * list; Title and Description follow the label rule.
   */
  lemma MtblsDatasetFields(s: Settings, accession: string, d: Dir)
    ensures MtblsDataset(s, accession, d).Ok? <==>
      s.mtblsInvestigation in Names(d) && s.mtblsResultFiles in Names(d) && MetabolitesOf(d, IsMetaboliteTable).Ok?
    ensures MtblsDataset(s, accession, d).Ok? ==>
      var r := MtblsDataset(s, accession, d).value;
      var lines := Open(d, s.mtblsInvestigation).value.lines;
      && AccessionKey in r && r[AccessionKey] == JStr(accession)
      && RawdataKey in r && r[RawdataKey] == StrArray(StrippedLines(Open(d, s.mtblsResultFiles).value.lines))
      && MetabolitesKey in r && r[MetabolitesKey] == StrArray(MetabolitesOf(d, IsMetaboliteTable).value)
      && (TitleKey in r <==> LastWhere(lines, IsTitleLine).Some?)
      && (DescriptionKey in r <==> LastWhere(lines, IsDescriptionLine).Some?)
  {
    var inv := Open(d, s.mtblsInvestigation);
    var manifest := Open(d, s.mtblsResultFiles);
    if inv.Ok? && manifest.Ok? {
      var d1 := WithMetadata(inv.value.lines, Fresh(accession));
      MetadataKeys(inv.value.lines, Fresh(accession));
      assert AccessionKey in d1 && d1[AccessionKey] == JStr(accession);
      var d2 := d1[RawdataKey := StrArray(StrippedLines(manifest.value.lines))];
      assert MtblsDataset(s, accession, d) == SetList(MetabolitesOf(d, IsMetaboliteTable), d2, MetabolitesKey);
    }
  }

  /**
   * Title and Description of a record built from a fresh dict by the label
   * scan: each holds the labelled value of the last line carrying its label,
   * and is absent when no line carries it.
   */
  predicate LabelledMetadata(r: Dict, lines: seq<string>) {
    && (match LastWhere(lines, IsTitleLine)
        case Some(l) => TitleKey in r && r[TitleKey] == JStr(LabelledValue(l, TitleLabel))
        case None => TitleKey !in r)
    && (match LastWhere(lines, IsDescriptionLine)
        case Some(l) => DescriptionKey in r && r[DescriptionKey] == JStr(LabelledValue(l, DescriptionLabel))
        case None => DescriptionKey !in r)
  }

  /** The label scan over a fresh dict yields exactly the labelled Title and Description. */
  lemma FreshMetadata(lines: seq<string>, accession: string)
    ensures LabelledMetadata(WithMetadata(lines, Fresh(accession)), lines)
  {
    MetadataTitle(lines, Fresh(accession));
    MetadataDescription(lines, Fresh(accession));
  }

  /** A MetaboLights record's Title and Description come from the last labelled lines of the investigation file. */
  lemma MtblsDatasetMetadata(s: Settings, accession: string, d: Dir)
    ensures MtblsDataset(s, accession, d).Ok? ==>
      LabelledMetadata(MtblsDataset(s, accession, d).value, Open(d, s.mtblsInvestigation).value.lines)
  {
    if MtblsDataset(s, accession, d).Raise? {
      return;
    }
    var lines := Open(d, s.mtblsInvestigation).value.lines;
    var d1 := WithMetadata(lines, Fresh(accession));
    FreshMetadata(lines, accession);
    var d2 := d1[RawdataKey := StrArray(StrippedLines(Open(d, s.mtblsResultFiles).value.lines))];
    assert LabelledMetadata(d2, lines);
    assert MtblsDataset(s, accession, d).value == d2[MetabolitesKey := StrArray(MetabolitesOf(d, IsMetaboliteTable).value)];
  }

  /**
   * A Workbench record exists exactly when the JSON file is cached and
   * decodes, the three metadata paths exist and the metabolite list is read;
   * it carries the accession and that list.
   */
  lemma MtwbDatasetFields(s: Settings, accession: string, d: Dir)
    ensures MtwbJsonName(s, accession) !in Names(d) ==>
      MtwbDataset(s, accession, d) == Raise(FileNotFound(MtwbJsonName(s, accession)))
    ensures MtwbDataset(s, accession, d).Ok? <==>
      var doc := ReadJson(d, MtwbJsonName(s, accession));
      && doc.Ok?
      && Index2(doc.value, "METABOLOMICS WORKBENCH", "ANALYSIS_ID").Ok?
      && Index2(doc.value, "STUDY", "STUDY_TITLE").Ok? && Index2(doc.value, "STUDY", "STUDY_SUMMARY").Ok?
      && WorkbenchMetabolitesOf(doc.value).Ok?
    ensures MtwbDataset(s, accession, d).Ok? ==>
      var r := MtwbDataset(s, accession, d).value;
      var doc := ReadJson(d, MtwbJsonName(s, accession)).value;
      && AccessionKey in r && r[AccessionKey] == JStr(accession)
      && MetabolitesKey in r && r[MetabolitesKey] == JArray(WorkbenchMetabolitesOf(doc).value)
  {
    var doc := ReadJson(d, MtwbJsonName(s, accession));
    if doc.Ok? {
      WorkbenchMetadataKeys(doc.value, Fresh(accession));
    }
  }

  /**
   * A Workbench record's analysis_id, Title and Description are the
   * document's values where those are truthy, and absent otherwise.
   */
  lemma MtwbDatasetMetadata(s: Settings, accession: string, d: Dir)
    requires MtwbDataset(s, accession, d).Ok?
    ensures
      var r := MtwbDataset(s, accession, d).value;
      var doc := ReadJson(d, MtwbJsonName(s, accession)).value;
      var aid := Index2(doc, "METABOLOMICS WORKBENCH", "ANALYSIS_ID").value;
      var title := Index2(doc, "STUDY", "STUDY_TITLE").value;
      var summary := Index2(doc, "STUDY", "STUDY_SUMMARY").value;
      && (if Truthy(aid) then AnalysisIdKey in r && r[AnalysisIdKey] == aid else AnalysisIdKey !in r)
      && (if Truthy(title) then TitleKey in r && r[TitleKey] == title else TitleKey !in r)
      && (if Truthy(summary) then DescriptionKey in r && r[DescriptionKey] == summary else DescriptionKey !in r)
  {
    var doc := ReadJson(d, MtwbJsonName(s, accession)).value;
    WorkbenchMetadataKeys(doc, Fresh(accession));
    var d1 := WorkbenchMetadata(doc, Fresh(accession)).value;
    assert MtwbDataset(s, accession, d).value == d1[MetabolitesKey := JArray(WorkbenchMetabolitesOf(doc).value)];
  }

  /** A MetaboBank record checks its files in source order: the idf file, the metabolite table, then the file list. */
  lemma MtbkDatasetFields(s: Settings, accession: string, d: Dir)
    ensures MtbkIdfName(s, accession) !in Names(d) ==> MtbkDataset(s, accession, d) == Raise(FileNotFound(MtbkIdfName(s, accession)))
    ensures MtbkDataset(s, accession, d).Ok? <==>
      MtbkIdfName(s, accession) in Names(d) && MetabolitesOf(d, MentionsMaf).Ok?
      && MtbkRawdataOf(ReadTable(d, MtbkFilelistName(s, accession))).Ok?
    ensures MtbkDataset(s, accession, d).Ok? ==>
      var r := MtbkDataset(s, accession, d).value;
      && AccessionKey in r && r[AccessionKey] == JStr(accession)
      && MetabolitesKey in r && r[MetabolitesKey] == StrArray(MetabolitesOf(d, MentionsMaf).value)
      && RawdataKey in r && r[RawdataKey] == StrArray(MtbkRawdataOf(ReadTable(d, MtbkFilelistName(s, accession))).value)
  {
    var idf := Open(d, MtbkIdfName(s, accession));
    if idf.Ok? {
      var d1 := WithMetadata(idf.value.lines, Fresh(accession));
      MetadataOthers(idf.value.lines, Fresh(accession), AccessionKey);
      assert AccessionKey in d1 && d1[AccessionKey] == JStr(accession);
      var ms := MetabolitesOf(d, MentionsMaf);
      if ms.Ok? {
        var d2 := d1[MetabolitesKey := StrArray(ms.value)];
        assert MtbkDataset(s, accession, d) == SetList(MtbkRawdataOf(ReadTable(d, MtbkFilelistName(s, accession))), d2, RawdataKey);
      }
    }
  }

  /** A MetaboBank record's Title and Description come from the last labelled lines of the idf file. */
  lemma MtbkDatasetMetadata(s: Settings, accession: string, d: Dir)
    ensures MtbkDataset(s, accession, d).Ok? ==>
      LabelledMetadata(MtbkDataset(s, accession, d).value, Open(d, MtbkIdfName(s, accession)).value.lines)
  {
    if MtbkDataset(s, accession, d).Raise? {
      return;
    }
    var lines := Open(d, MtbkIdfName(s, accession)).value.lines;
    var d1 := WithMetadata(lines, Fresh(accession));
    FreshMetadata(lines, accession);
    var d2 := d1[MetabolitesKey := StrArray(MetabolitesOf(d, MentionsMaf).value)];
    assert LabelledMetadata(d2, lines);
    assert MtbkDataset(s, accession, d).value == d2[RawdataKey := StrArray(MtbkRawdataOf(ReadTable(d, MtbkFilelistName(s, accession))).value)];
  }

  /** A MetaboLights record holds no keys besides the five the parser sets. */
  lemma MtblsDatasetKeys(s: Settings, accession: string, d: Dir)
    ensures MtblsDataset(s, accession, d).Ok? ==>
      forall k | k in MtblsDataset(s, accession, d).value :: k in {AccessionKey, TitleKey, DescriptionKey, RawdataKey, MetabolitesKey}
  {
    if MtblsDataset(s, accession, d).Ok? {
      var lines := Open(d, s.mtblsInvestigation).value.lines;
      forall k | k !in {AccessionKey, TitleKey, DescriptionKey, RawdataKey, MetabolitesKey}
        ensures k !in MtblsDataset(s, accession, d).value
      {
        MetadataOthers(lines, Fresh(accession), k);
      }
    }
  }

  /** A Workbench record holds no keys besides the five the parser sets. */
  lemma MtwbDatasetKeys(s: Settings, accession: string, d: Dir)
    ensures MtwbDataset(s, accession, d).Ok? ==>
      forall k | k in MtwbDataset(s, accession, d).value :: k in {AccessionKey, AnalysisIdKey, TitleKey, DescriptionKey, MetabolitesKey}
  {
    if MtwbDataset(s, accession, d).Ok? {
      WorkbenchMetadataKeys(ReadJson(d, MtwbJsonName(s, accession)).value, Fresh(accession));
    }
  }

  /** A MetaboBank record holds no keys besides the five the parser sets. */
  lemma MtbkDatasetKeys(s: Settings, accession: string, d: Dir)
    ensures MtbkDataset(s, accession, d).Ok? ==>
      forall k | k in MtbkDataset(s, accession, d).value :: k in {AccessionKey, TitleKey, DescriptionKey, MetabolitesKey, RawdataKey}
  {
    if MtbkDataset(s, accession, d).Ok? {
      var lines := Open(d, MtbkIdfName(s, accession)).value.lines;
      forall k | k !in {AccessionKey, TitleKey, DescriptionKey, MetabolitesKey, RawdataKey}
        ensures k !in MtbkDataset(s, accession, d).value
      {
        MetadataOthers(lines, Fresh(accession), k);
      }
    }
  }

  // ================================================================ parser methods

  /** `parse_dataset_data_mtbls`. */
  method ParseDatasetDataMtbls(s: Settings, accession: string, d: Dir) returns (r: Result<Dict>)
    ensures r == MtblsDataset(s, accession, d)
  {
    var dataset := Fresh(accession);
    var inv := Open(d, s.mtblsInvestigation);
    if inv.Raise? {
      return Raise(inv.error);
    }
    dataset := GetMetadata(inv.value.lines, dataset);
    var manifest := Open(d, s.mtblsResultFiles);
    if manifest.Raise? {
      return Raise(manifest.error);
    }
    dataset := GetRawdataFilenamesMtbls(manifest.value.lines, dataset);
    r := GetMetabolitesNames(d, IsMetaboliteTable, dataset);
  }

  /** `parse_dataset_data_mtwb`. */
  method ParseDatasetDataMtwb(s: Settings, accession: string, d: Dir) returns (r: Result<Dict>)
    ensures r == MtwbDataset(s, accession, d)
  {
    var doc := ReadJson(d, MtwbJsonName(s, accession));
    if doc.Raise? {
      return Raise(doc.error);
    }
    var dataset := WorkbenchMetadata(doc.value, Fresh(accession));
    if dataset.Raise? {
      return Raise(dataset.error);
    }
    r := GetMetabolitesNamesMtwb(doc.value, dataset.value);
  }

  /** `parse_dataset_data_mtbk`. */
  method ParseDatasetDataMtbk(s: Settings, accession: string, d: Dir) returns (r: Result<Dict>)
    ensures r == MtbkDataset(s, accession, d)
  {
    var idf := Open(d, MtbkIdfName(s, accession));
    if idf.Raise? {
      return Raise(idf.error);
    }
    var dataset := GetMetadata(idf.value.lines, Fresh(accession));
    var withMetabolites := GetMetabolitesNames(d, MentionsMaf, dataset);
    if withMetabolites.Raise? {
      return Raise(withMetabolites.error);
    }
    r := GetRawdataFilenamesMtbk(d, MtbkFilelistName(s, accession), withMetabolites.value);
  }

  /** `parse_dataset_data`. */
  method ParseDatasetData(s: Settings, prefix: string, accession: string, d: Dir) returns (r: Result<Option<Dict>>)
    ensures r == DatasetRecord(s, prefix, accession, d)
  {
    var repo := RepositoryOf(s, prefix);
    if repo.None? {
      return Ok(None);
    }
    var parsed: Result<Dict>;
    match repo.value {
      case MTBLS => parsed := ParseDatasetDataMtbls(s, accession, d);
      case MTWB => parsed := ParseDatasetDataMtwb(s, accession, d);
      case MTBK => parsed := ParseDatasetDataMtbk(s, accession, d);
    }
    if parsed.Raise? {
      return Raise(parsed.error);
    }
    r := Ok(Some(parsed.value));
  }

  // ================================================================ MetaboBank listing page

  /** `HTMLFilter`: collects the text chunks the HTML parser reports. */
  class HtmlFilter {
    var text: string

    constructor ()
      ensures text == ""
    {
      text := "";
    }

    /** `handle_data`. */
    method HandleData(data: string)
      modifies this
      ensures text == old(text) + data
    {
      text := text + data;
    }

    /** `feed`, given the data chunks the parser reports for the page, in page order. */
    method Feed(chunks: seq<string>)
      modifies this
      ensures text == old(text) + Flatten(chunks)
    {
      for i := 0 to |chunks|
        invariant text == old(text) + Flatten(chunks[..i])
      {
        FlattenSnoc(chunks[..i], chunks[i]);
        assert chunks[..i + 1] == chunks[..i] + [chunks[i]];
        HandleData(chunks[i]);
      }
      assert chunks[..|chunks|] == chunks;
    }
  }

  lemma {:induction false} FlattenSnoc(xs: seq<string>, x: string)
    ensures Flatten(xs + [x]) == Flatten(xs) + x
    decreases |xs|
  {
    if xs == [] {
      assert Flatten([x]) == x + Flatten([]);
    } else {
      assert (xs + [x])[1..] == xs[1..] + [x];
      FlattenSnoc(xs[1..], x);
    }
  }

  predicate IsMafToken(token: string) {
    Contains(token, ".maf.")
  }

  /** `token.rsplit(".txt", 1)[0] + suffix`. */
  function MafFileName(token: string, suffix: string): string {
    BeforeLast(token, ".txt") + suffix
  }

  /** The file names the listing tokens yield, in token order. */
  function MafNames(tokens: seq<string>, suffix: string): seq<string> {
    if tokens == [] then []
    else
      var t := tokens[|tokens| - 1];
      MafNames(tokens[..|tokens| - 1], suffix) + (if IsMafToken(t) then [MafFileName(t, suffix)] else [])
  }

  /**
   * The `.maf.` file list keeps, in order, exactly the tokens containing
   * ".maf.", each cut before its last ".txt" and given the suffix.
   */
  lemma {:induction false} MafNamesFacts(a: seq<string>, b: seq<string>, suffix: string)
    ensures MafNames(a + b, suffix) == MafNames(a, suffix) + MafNames(b, suffix)
    ensures |MafNames(b, suffix)| <= |b|
    decreases |b|
  {
    if b == [] {
      assert a + b == a;
    } else {
      var k := |b|;
      assert (a + b)[..|a + b| - 1] == a + b[..k - 1];
      MafNamesFacts(a, b[..k - 1], suffix);
    }
  }

  /** A token contributes exactly when it contains ".maf.", and then its cut name. */
  lemma MafNamesToken(t: string, suffix: string)
    ensures MafNames([t], suffix) == if IsMafToken(t) then [MafFileName(t, suffix)] else []
  {
    assert [t][..0] == [];
  }

  /** A token keeps everything before its last ".txt"; one without ".txt" is kept whole. */
  lemma MafFileNameCut(token: string, suffix: string)
    ensures !Contains(token, ".txt") ==> MafFileName(token, suffix) == token + suffix
    ensures Contains(token, ".txt") ==>
      exists k :: (OccursAt(token, ".txt", k)
        && (forall j | k < j :: !OccursAt(token, ".txt", j)) && MafFileName(token, suffix) == token[..k] + suffix)
  {
    var li := LastIndexOf(token, ".txt");
    if li.Some? {
      assert Contains(token, ".txt");
    }
  }

  /** `for item in text_data: if ".maf." in item: filenames.append(...)`. */
  method CollectMafFilenames(tokens: seq<string>, suffix: string) returns (filenames: seq<string>)
    ensures filenames == MafNames(tokens, suffix)
  {
    filenames := [];
    for i := 0 to |tokens|
      invariant filenames == MafNames(tokens[..i], suffix)
    {
      assert tokens[..i + 1][..i] == tokens[..i];
      if Contains(tokens[i], ".maf.") {
        filenames := filenames + [BeforeLast(tokens[i], ".txt") + suffix];
      }
    }
    assert tokens[..|tokens|] == tokens;
  }

  /** Python truthiness of what `get_text_data` returned (None when the status was not 200). */
  predicate TextTruthy(t: Option<string>) {
    t.Some? && t.value != ""
  }

  /**
   * The file names the MetaboBank fetcher goes on to download from the study
   * listing. The guard tests the file-list text fetched just before, not the
   * listing page: an empty file list skips the step, and a missing page then
   * makes `feed(None)` raise.
   */
  method MafDownloadNames(filelistText: Option<string>, page: Option<seq<string>>, suffix: string)
    returns (r: Result<seq<string>>)
    ensures !TextTruthy(filelistText) ==> r == Ok([])
    ensures TextTruthy(filelistText) && page.None? ==> r == Raise(TypeError)
    ensures TextTruthy(filelistText) && page.Some? ==> r == Ok(MafNames(SplitWs(Flatten(page.value)), suffix))
  {
    if !TextTruthy(filelistText) {
      return Ok([]);
    }
    if page.None? {
      return Raise(TypeError);
    }
    var hf := new HtmlFilter();
    hf.Feed(page.value);
    assert hf.text == Flatten(page.value);
    var tokens := SplitWs(hf.text);
    var names := CollectMafFilenames(tokens, suffix);
    r := Ok(names);
  }
}
