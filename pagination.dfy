/**
 * The page navigator (components/pagination.tsx): four buttons around a text
 * field holding the requested page.  The component's only state is the text
 * of that field; the current page and the page count are its inputs and a
 * page change is a request handed back to the owner.
 */
module Pagination {
  import opened Types
  import opened Text

  /** A navigation button: the page it requests and whether it is disabled. */
  datatype NavButton = NavButton(target: int, disabled: bool)

  /** The four buttons, left to right. */
  datatype NavButtons = NavButtons(first: NavButton, previous: NavButton, next: NavButton, last: NavButton)

  /**
   * What the navigator renders: nothing for a single page (or none), the four
   * buttons otherwise.
   */
  function Controls(currentPage: int, totalPages: int): (r: Option<NavButtons>)
    ensures r.None? <==> totalPages <= 1
  {
    if totalPages <= 1 then None
    else Some(NavButtons(
      NavButton(1, currentPage == 1),
      NavButton(currentPage - 1, currentPage == 1),
      NavButton(currentPage + 1, currentPage == totalPages),
      NavButton(totalPages, currentPage == totalPages)))
  }

  predicate Enabled(b: NavButton) { !b.disabled }

  /**
   * On a page within range, every enabled button requests another page
   * within range; the backward pair is disabled exactly on the first page and
   * the forward pair exactly on the last.
   */
  lemma EnabledTargetsInRange(currentPage: int, totalPages: int)
    requires 1 <= currentPage <= totalPages && totalPages > 1
    ensures var c := Controls(currentPage, totalPages).value;
      && (c.first.disabled <==> currentPage == 1) && (c.previous.disabled <==> currentPage == 1)
      && (c.next.disabled <==> currentPage == totalPages) && (c.last.disabled <==> currentPage == totalPages)
      && forall b :: b in [c.first, c.previous, c.next, c.last] && Enabled(b) ==>
           1 <= b.target <= totalPages && b.target != currentPage
  {
  }

  /**
   * Left on a page past the end (the count shrank without the page being
   * reset), the navigator still enables "next", which asks for a page further
   * out of range.
   */
  lemma PastEndNextEnabled(currentPage: int, totalPages: int)
    requires totalPages > 1 && currentPage > totalPages
    ensures var c := Controls(currentPage, totalPages).value;
      Enabled(c.next) && c.next.target > totalPages && Enabled(c.last) && c.last.target == totalPages
  {
  }

  /**
   * The submit rule: the text is parsed as `Number.parseInt` does and the
   * page is requested only when the parse succeeds and lies in 1..totalPages.
   */
  function AcceptedPage(text: string, totalPages: int): (r: Option<int>)
    ensures r.Some? <==> ParseInt(text).Some? && 1 <= ParseInt(text).value <= totalPages
    ensures r.Some? ==> r == ParseInt(text)
  {
    match ParseInt(text)
    case None => None
    case Some(p) => if 1 <= p && p <= totalPages then Some(p) else None
  }

  /** The rendering of a page number is accepted back exactly when it is in range. */
  lemma AcceptedPageRendered(page: int, totalPages: int)
    ensures AcceptedPage(IntToString(page), totalPages) == (if 1 <= page <= totalPages then Some(page) else None)
  {
    ParseIntToString(page);
  }

  /** A text with no digit is never accepted. */
  lemma AcceptedPageNoDigits(totalPages: int)
    ensures AcceptedPage("", totalPages) == None
    ensures AcceptedPage("abc", totalPages) == None
  {
    assert TrimStart("abc") == "abc";
    assert PrefixWhile("abc", IsDigit) == [];
  }

  /** The text field of the navigator. */
  class PageInput {
    var inputPage: string

    /** The field starts with the current page. */
    constructor(currentPage: int)
      ensures inputPage == IntToString(currentPage)
    {
      inputPage := IntToString(currentPage);
    }

    /** The effect on a new current page, and the field losing focus: show the current page. */
    method Resync(currentPage: int)
      modifies this
      ensures inputPage == IntToString(currentPage)
    {
      inputPage := IntToString(currentPage);
    }

    /** Typing replaces the text. */
    method Change(value: string)
      modifies this
      ensures inputPage == value
    {
      inputPage := value;
    }

    /**
     * Submitting: the accepted page is requested and the text is kept;
     * otherwise nothing is requested and the text goes back to the current
     * page.
     */
    method Submit(currentPage: int, totalPages: int) returns (request: Option<int>)
      modifies this
      ensures request == AcceptedPage(old(inputPage), totalPages)
      ensures inputPage == if request.Some? then old(inputPage) else IntToString(currentPage)
    {
      var pageNumber := ParseInt(inputPage);
      if pageNumber.Some? && pageNumber.value >= 1 && pageNumber.value <= totalPages {
        request := Some(pageNumber.value);
      } else {
        request := None;
        inputPage := IntToString(currentPage);
      }
    }
  }
}
