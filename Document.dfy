/**
 * The parts of a parsed Account page that the extraction reads, in place of
 * an HTML tree: the text of the first `h1`, the `<b>` texts of every `tr`
 * of the page, and the table rows nested in the page's detail row, each a
 * sequence of `td` cells.
 */
module Document {
  import opened Wrappers

  /** One `td`: its whole text, and whether it contains a `<b>` element. */
  datatype Cell = Cell(text: string, hasBold: bool)

  type Row = seq<Cell>

  /**
   * `bolds[i]` holds the texts of the `<b>` elements of the `i`-th `tr` that
   * `find_all("tr")` returns, in document order. `detailRows` are the `tr`s
   * nested in `tr` number 22; they are read only when that `tr` exists.
   */
  datatype Page = Page(heading: Option<string>, bolds: seq<seq<string>>, detailRows: seq<Row>)
}
