/**
 * Tab-separated tables as `pandas.read_csv(path, sep='\t')` returns them:
 * a header and rows of cells, a missing cell (NaN) being `None`.
 */
module Tables {
  import opened Wrappers

  type Cell = Option<string>

  datatype Table = Table(header: seq<string>, rows: seq<seq<Cell>>)

  /** First position of `x` in `xs`. */
  function IndexOf(xs: seq<string>, x: string): (r: Option<nat>)
    ensures r.Some? <==> x in xs
    ensures r.Some? ==> r.value < |xs| && xs[r.value] == x && x !in xs[..r.value]
  {
    if xs == [] then None
    else if xs[0] == x then Some(0)
    else
      match IndexOf(xs[1..], x)
      case Some(k) => assert xs[..k + 1] == [xs[0]] + xs[1..][..k]; Some(k + 1)
      case None => None
  }

  /** The cell in column `j` of `row`; a short row reads as NaN there. */
  function CellAt(row: seq<Cell>, j: nat): Cell {
    if j < |row| then row[j] else None
  }

  /**
   * `df[name]`: the column under the first header equal to `name` (pandas
   * renames later duplicates), one cell per row; absent when no header matches.
   */
  function Column(t: Table, name: string): (r: Option<seq<Cell>>)
    ensures r.Some? <==> name in t.header
    ensures r.Some? ==> |r.value| == |t.rows|
    ensures r.Some? ==> forall i | 0 <= i < |t.rows| :: r.value[i] == CellAt(t.rows[i], IndexOf(t.header, name).value)
  {
    match IndexOf(t.header, name)
    case None => None
    case Some(j) => Some(seq(|t.rows|, i requires 0 <= i < |t.rows| => CellAt(t.rows[i], j)))
  }

  /** The non-missing cells in order: what `for cell in column: if pd.isna(cell): continue` keeps. */
  function Present(cells: seq<Cell>): seq<string> {
    if cells == [] then []
    else
      Present(cells[..|cells| - 1])
      + match cells[|cells| - 1] case Some(x) => [x] case None => []
  }

  lemma {:induction false} PresentAppend(a: seq<Cell>, b: seq<Cell>)
    ensures Present(a + b) == Present(a) + Present(b)
    decreases |b|
  {
    if b == [] {
      assert a + b == a;
    } else {
      assert (a + b)[..|a + b| - 1] == a + b[..|b| - 1];
      PresentAppend(a, b[..|b| - 1]);
    }
  }

  /**
   * Missing cells are dropped and the others kept in order: `Present` is the
   * concatenation of the one-cell cases, holds exactly the present values,
   * and is no longer than the column.
   */
  lemma {:induction false} PresentFacts(cells: seq<Cell>)
    ensures |Present(cells)| <= |cells|
    ensures forall x :: x in Present(cells) <==> Some(x) in cells
    decreases |cells|
  {
    if cells != [] {
      var init := cells[..|cells| - 1];
      PresentFacts(init);
      assert cells == init + [cells[|cells| - 1]];
      forall x ensures x in Present(cells) <==> Some(x) in cells {
        assert Some(x) in cells <==> Some(x) in init || Some(x) == cells[|cells| - 1];
      }
    }
  }

  /** A column in which nothing is missing comes back whole. */
  lemma {:induction false} PresentAllSome(cells: seq<Cell>)
    requires forall i | 0 <= i < |cells| :: cells[i].Some?
    ensures |Present(cells)| == |cells|
    ensures forall i | 0 <= i < |cells| :: Present(cells)[i] == cells[i].value
    decreases |cells|
  {
    if cells != [] {
      PresentAllSome(cells[..|cells| - 1]);
    }
  }
}
