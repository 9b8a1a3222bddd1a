/** The result page a GQI data source hands back to the query engine. */
module GqiPage {
  import opened Wrappers

  /** One cell: the typed value and the text shown for it. */
  datatype Cell = Cell(value: bool, display: string)

  datatype Row = Row(cells: seq<Cell>)

  datatype Page = Page(rows: seq<Row>, hasNextPage: bool)

  /** The text .NET's Boolean.ToString gives. */
  function BoolToString(b: bool): string
  {
    if b then "True" else "False"
  }

  /** The page holding a single boolean: one row, one cell, no further page. */
  function BoolToPage(value: bool): (p: Page)
    ensures |p.rows| == 1 && |p.rows[0].cells| == 1
    ensures p.rows[0].cells[0].value == value
    ensures p.rows[0].cells[0].display == BoolToString(value)
    ensures !p.hasNextPage
  {
    Page([Row([Cell(value, BoolToString(value))])], false)
  }

  /** How a consumer reads a single-boolean page back: the value of its only cell,
      provided the page has exactly that shape and the cell shows its own value. */
  function PageValue(p: Page): (r: Option<bool>)
    ensures r.Some? ==> |p.rows| == 1 && |p.rows[0].cells| == 1 && !p.hasNextPage
    ensures r.Some? ==> p.rows[0].cells[0] == Cell(r.value, BoolToString(r.value))
  {
    if |p.rows| == 1 && |p.rows[0].cells| == 1 && !p.hasNextPage
       && p.rows[0].cells[0].display == BoolToString(p.rows[0].cells[0].value)
    then Some(p.rows[0].cells[0].value)
    else None
  }

  /** Reading back the page built for `v` gives `v`; so two different booleans never share a page,
      and every page PageValue accepts is the page of the value it reads. */
  lemma PageRoundTrip(v: bool, p: Page)
    ensures PageValue(BoolToPage(v)) == Some(v)
    ensures PageValue(p) == Some(v) <==> p == BoolToPage(v)
  {
    if PageValue(p) == Some(v) {
      assert p.rows[0] == Row([Cell(v, BoolToString(v))]);
      assert p.rows == [Row([Cell(v, BoolToString(v))])];
    }
  }
}
