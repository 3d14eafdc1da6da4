/**
 * The two string helpers of the API's data models: the accession prefix a
 * repository derives from its template, and the upload path of a dataset
 * file. The Django model layer itself is reduced to the fields they read.
 */
module ApiModels {
  import opened Wrappers
  import opened PyStr

  /** A `DatasetRepository` row; every column is nullable. */
  datatype DatasetRepository = DatasetRepository(
    name: Option<string>,
    accessionTemplate: Option<string>,
    website: Option<string>)

  /** A `Dataset` row; `accession` is its primary key. */
  datatype Dataset = Dataset(
    repository: DatasetRepository,
    accession: string,
    title: Option<string>,
    description: Option<string>)

  /** A `DatasetFile` row, reduced to the dataset it belongs to. */
  datatype DatasetFile = DatasetFile(dataset: Dataset)

  /** `dataset.pk`: the primary-key column, which is the accession. */
  function Pk(d: Dataset): string {
    d.accession
  }

  /**
   * `accession_prefix`: the template with every 'x' deleted; a null template
   * has no `replace`, so the call raises.
   */
  function AccessionPrefix(r: DatasetRepository): (p: Result<string>)
    ensures r.accessionTemplate.None? <==> p == Raise(AttributeError)
    ensures p.Ok? ==> 'x' !in p.value
    ensures p.Ok? ==> |p.value| == |r.accessionTemplate.value| - CountChar(r.accessionTemplate.value, 'x')
  {
    match r.accessionTemplate
    case None => Raise(AttributeError)
    case Some(t) =>
      RemoveCharFacts(t, 'x');
      Ok(RemoveAll(t, "x"))
  }

  /** Deleting 'x' keeps every other character in order: it works piece by piece, one character at a time. */
  lemma AccessionPrefixKeepsOthers(a: string, b: string, c: char)
    ensures RemoveAll(a + b, "x") == RemoveAll(a, "x") + RemoveAll(b, "x")
    ensures RemoveAll([c], "x") == if c == 'x' then "" else [c]
  {
    RemoveCharAppend(a, b, 'x');
    assert [c][..1] == [c] && [c][1..] == [];
  }

  /** Deleting 'x' from a template one leading character at a time. */
  lemma AccessionPrefixStep(c: char, t: string)
    ensures RemoveAll([c] + t, "x") == (if c == 'x' then "" else [c]) + RemoveAll(t, "x")
  {
    AccessionPrefixKeepsOthers([c], t, c);
  }

  /** A derived prefix used as a template gives itself back. */
  lemma AccessionPrefixIdempotent(r: DatasetRepository)
    requires AccessionPrefix(r).Ok?
    ensures AccessionPrefix(r.(accessionTemplate := Some(AccessionPrefix(r).value))) == AccessionPrefix(r)
  {
    RemoveCharIdempotent(r.accessionTemplate.value, 'x');
  }

  /** `n` placeholder characters. */
  function Placeholders(n: nat): string {
    seq(n, _ => 'x')
  }

  lemma {:induction false} PlaceholdersVanish(n: nat)
    ensures RemoveAll(Placeholders(n), "x") == ""
  {
    if n > 0 {
      assert Placeholders(n) == [Placeholders(n)[0]] + Placeholders(n - 1);
      AccessionPrefixStep('x', Placeholders(n - 1));
      PlaceholdersVanish(n - 1);
    }
  }

  /** A template of 'x'-free text padded with placeholders gives back the text. */
  lemma AccessionPrefixOfPadded(text: string, n: nat)
    requires 'x' !in text
    ensures AccessionPrefix(DatasetRepository(None, Some(text + Placeholders(n)), None)) == Ok(text)
  {
    PlaceholdersVanish(n);
    AccessionPrefixKeepsOthers(text, Placeholders(n), 'x');
    NoPlaceholderKept(text);
    assert RemoveAll(text + Placeholders(n), "x") == text + "";
    assert text + "" == text;
  }

  /** The MetaboLights template `MTBLSxxx` gives the prefix `MTBLS`. */
  lemma AccessionPrefixMtbls()
    ensures AccessionPrefix(DatasetRepository(None, Some("MTBLSxxx"), None)) == Ok("MTBLS")
  {
    assert Placeholders(3) == "xxx";
    assert "MTBLS" + Placeholders(3) == "MTBLSxxx";
    AccessionPrefixOfPadded("MTBLS", 3);
  }

  /** Text without 'x' is kept whole. */
  lemma {:induction false} NoPlaceholderKept(text: string)
    requires 'x' !in text
    ensures RemoveAll(text, "x") == text
  {
    if text != "" {
      assert text == [text[0]] + text[1..];
      AccessionPrefixStep(text[0], text[1..]);
      NoPlaceholderKept(text[1..]);
    }
  }

  /** `dataset_files_folder`: `datasets/<prefix>/<pk>/<filename>`, or the prefix's exception. */
  function DatasetFilesFolder(f: DatasetFile, filename: string): (r: Result<string>)
    ensures AccessionPrefix(f.dataset.repository).Raise? ==> r == Raise(AttributeError)
    ensures AccessionPrefix(f.dataset.repository).Ok? ==>
      r == Ok("datasets/" + AccessionPrefix(f.dataset.repository).value + "/" + f.dataset.accession + "/" + filename)
  {
    match AccessionPrefix(f.dataset.repository)
    case Raise(e) => Raise(e)
    case Ok(prefix) =>
      assert "datasets" + "/" == "datasets/";
      JoinFour("datasets", prefix, Pk(f.dataset), filename);
      Ok(JoinWith("/", ["datasets", prefix, Pk(f.dataset), filename]))
  }

  lemma JoinFour(a: string, b: string, c: string, d: string)
    ensures JoinWith("/", [a, b, c, d]) == a + "/" + b + "/" + c + "/" + d
  {
    assert [a, b, c, d][1..] == [b, c, d];
    assert [b, c, d][1..] == [c, d];
    assert [c, d][1..] == [d];
    assert JoinWith("/", [c, d]) == c + "/" + d;
    assert JoinWith("/", [b, c, d]) == b + "/" + (c + "/" + d);
    assert JoinWith("/", [a, b, c, d]) == a + "/" + (b + "/" + (c + "/" + d));
  }

  /**
   * Uploads never collide: for slash-free accessions and file names, two
   * files of repositories with the same prefix get the same folder only when
   * they have the same accession and the same name.
   */
  lemma DatasetFilesFolderInjective(f1: DatasetFile, n1: string, f2: DatasetFile, n2: string)
    requires SlashFree(f1.dataset.accession) && SlashFree(f2.dataset.accession)
    requires SlashFree(n1) && SlashFree(n2)
    requires AccessionPrefix(f1.dataset.repository) == AccessionPrefix(f2.dataset.repository)
    requires DatasetFilesFolder(f1, n1).Ok? && DatasetFilesFolder(f1, n1) == DatasetFilesFolder(f2, n2)
    ensures f1.dataset.accession == f2.dataset.accession && n1 == n2
  {
    var head := "datasets/" + AccessionPrefix(f1.dataset.repository).value;
    var a1, a2 := f1.dataset.accession, f2.dataset.accession;
    assert (head + "/" + a1) + "/" + n1 == (head + "/" + a2) + "/" + n2;
    LastSegment(head + "/" + a1, n1, head + "/" + a2, n2);
    LastSegment(head, a1, head, a2);
  }
}
