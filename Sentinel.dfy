/**
 * `goldilocks`: the check that a fetched page is not the county's
 * "Object Moved" placeholder. It either passes the page through unchanged
 * or fails the whole extraction of that page.
 */
module Sentinel {
  import opened Wrappers
  import opened Document

  const MovedTitle: string := "Object Moved"
  const MovedMessage: string := "Failed getting this data. The house moved"

  /**
   * The check as written: `head.text is "Object Moved"` compares object
   * identity, not text. Whether the heading's text object is the very
   * constant object is a fact of the Python runtime, given here as
   * `identical` (identity implies equal text).
   */
  function GoldilocksAsWritten(page: Page, identical: bool): (r: Result<Page, string>)
    ensures r.Success? ==> r.value == page
    ensures r.Failure? ==> page.heading.Some?
    ensures !identical ==> r == Success(page)
  {
    if page.heading.Some? && identical && page.heading.value == MovedTitle then Failure(MovedMessage)
    else Success(page)
  }

  /**
   * A placeholder page passes the check as written whenever its heading text
   * is a different object from the constant, which is what parsing produces.
   */
  lemma MovedPageSlipsThrough(bolds: seq<seq<string>>, rows: seq<Row>)
    ensures GoldilocksAsWritten(Page(Some(MovedTitle), bolds, rows), false).Success?
  {
  }

  /** The check as intended: fail exactly on a page whose first heading reads "Object Moved". */
  function Goldilocks(page: Page): (r: Result<Page, string>)
    ensures r.Success? ==> r.value == page
    ensures r.Failure? <==> page.heading == Some(MovedTitle)
  {
    if page.heading == Some(MovedTitle) then Failure(MovedMessage) else Success(page)
  }

  /**
   * The written check fails only where the intended one does, and the two
   * agree whenever the identity test answers as string equality would.
   */
  lemma AsWrittenWeaker(page: Page, identical: bool)
    ensures GoldilocksAsWritten(page, identical).Failure? ==> Goldilocks(page).Failure?
    ensures (page.heading.Some? ==> (identical <==> page.heading.value == MovedTitle))
            ==> GoldilocksAsWritten(page, identical) == Goldilocks(page)
  {
  }
}
