/**
 * A cached dataset directory: its entries in the order `os.walk` lists them,
 * each file carrying what the decoders used on it return.
 */
module Disk {
  import opened Wrappers
  import Tables
  import Json

  /**
   * One cached file: `lines` is what `readlines()` returns; `table` is the
   * `read_csv(sep='\t')` result, `None` where it raises; `json` is the
   * `json.load` result, `None` where it raises.
   */
  datatype File = File(lines: seq<string>, table: Option<Tables.Table>, json: Option<Json.Value>)

  datatype Entry = Entry(name: string, file: File)

  type Dir = seq<Entry>

  function Names(d: Dir): (r: seq<string>)
    ensures |r| == |d| && forall i | 0 <= i < |d| :: r[i] == d[i].name
  {
    seq(|d|, i requires 0 <= i < |d| => d[i].name)
  }

  /**
   * `open(name)` inside the directory: the file of the first entry with that
   * name, or FileNotFoundError.
   */
  function Open(d: Dir, name: string): (r: Result<File>)
    ensures r.Ok? <==> name in Names(d)
    ensures r.Raise? ==> r.error == FileNotFound(name)
    ensures r.Ok? ==> r.value == d[Tables.IndexOf(Names(d), name).value].file
  {
    if d == [] then Raise(FileNotFound(name))
    else if d[0].name == name then Ok(d[0].file)
    else
      var r := Open(d[1..], name);
      assert Names(d) == [d[0].name] + Names(d[1..]);
      assert Names(d)[1..] == Names(d[1..]);
      r
  }

  /** The first entry called `name` holds the file `open` returns. */
  lemma OpenFirstEntry(d: Dir, name: string)
    requires name in Names(d)
    ensures exists i | 0 <= i < |d| :: d[i].name == name && name !in Names(d[..i]) && Open(d, name) == Ok(d[i].file)
  {
    var i := Tables.IndexOf(Names(d), name).value;
    assert Names(d[..i]) == Names(d)[..i];
  }

  /**
   * `read_csv` of a named file: the table `open` finds under that name,
   * DecodeError when that file does not parse as a table.
   */
  function ReadTable(d: Dir, name: string): (r: Result<Tables.Table>)
    ensures name !in Names(d) ==> r == Raise(FileNotFound(name))
    ensures name in Names(d) ==>
      var f := d[Tables.IndexOf(Names(d), name).value].file;
      r == if f.table.Some? then Ok(f.table.value) else Raise(DecodeError(name))
  {
    match Open(d, name)
    case Raise(e) => Raise(e)
    case Ok(f) => if f.table.Some? then Ok(f.table.value) else Raise(DecodeError(name))
  }

  /**
   * `json.load` of a named file: the document `open` finds under that name,
   * DecodeError when that file is not valid JSON.
   */
  function ReadJson(d: Dir, name: string): (r: Result<Json.Value>)
    ensures name !in Names(d) ==> r == Raise(FileNotFound(name))
    ensures name in Names(d) ==>
      var f := d[Tables.IndexOf(Names(d), name).value].file;
      r == if f.json.Some? then Ok(f.json.value) else Raise(DecodeError(name))
  {
    match Open(d, name)
    case Raise(e) => Raise(e)
    case Ok(f) => if f.json.Some? then Ok(f.json.value) else Raise(DecodeError(name))
  }
}
