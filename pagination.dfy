/**
 * The `Pagination` component of src/components/Pagination.jsx: the list of
 * page buttons and ellipses it renders for a page count and a current page
 * (both 0-based), its arrows, and the state behind its two jump-to-page
 * popovers.
 */
module Pagination {
  import opened Wrappers
  import opened IntParsing

  /** A rendered control: a page button, or an ellipsis on the left or right. */
  datatype PageButton = Page(index: int) | Ellipsis(left: bool)

  /** Up to this many pages, every page gets a button. */
  const MaxPlainPages: nat := 10
  /** Pages shown at each end when the list is windowed. */
  const Anchors: nat := 3

  /** `Page(from), ..., Page(to - 1)`. */
  function Pages(from: int, to: int): (r: seq<PageButton>)
    ensures |r| == if from < to then to - from else 0
    ensures forall k :: 0 <= k < |r| ==> r[k] == Page(from + k)
  {
    if from < to then seq(to - from, k => Page(from + k)) else []
  }

  /** The first page of the 3-wide middle window: one before the current page, but never below 3. */
  function WindowStart(currentPage: int): int {
    if currentPage - 1 < Anchors then Anchors else currentPage - 1
  }

  /** The controls in order, as the branches of the component build them. */
  function PageButtons(totalPages: nat, currentPage: nat): seq<PageButton> {
    if totalPages <= MaxPlainPages then
      Pages(0, totalPages)
    else if currentPage < Anchors then
      Pages(0, Anchors) + [Ellipsis(false)] + Pages(totalPages - Anchors, totalPages)
    else if currentPage >= totalPages - Anchors then
      Pages(0, Anchors) + [Ellipsis(true)] + Pages(totalPages - Anchors, totalPages)
    else
      var start := WindowStart(currentPage);
      Pages(0, Anchors) + [Ellipsis(true)] + Pages(start, start + 3) + [Ellipsis(false)]
        + Pages(totalPages - Anchors, totalPages)
  }

  /** `for (let i = from; i < to; i++) pageButtons.push(renderButton(i))`. */
  method PushPages(buttons: seq<PageButton>, from: int, to: int) returns (r: seq<PageButton>)
    ensures r == buttons + Pages(from, to)
  {
    r := buttons;
    var i := from;
    while i < to
      invariant from <= i && (i <= to || i == from)
      invariant r == buttons + Pages(from, i)
      decreases if i < to then to - i else 0
    {
      assert Pages(from, i + 1) == Pages(from, i) + [Page(i)];
      r := r + [Page(i)];
      i := i + 1;
    }
    assert Pages(from, i) == Pages(from, to);
  }

  /** The construction of `pageButtons` in the component's body. */
  method BuildPageButtons(totalPages: nat, currentPage: nat) returns (buttons: seq<PageButton>)
    ensures buttons == PageButtons(totalPages, currentPage)
  {
    buttons := [];
    if totalPages <= MaxPlainPages {
      buttons := PushPages(buttons, 0, totalPages);
    } else {
      if currentPage < Anchors {
        buttons := PushPages(buttons, 0, Anchors);
        buttons := buttons + [Ellipsis(false)];
        buttons := PushPages(buttons, totalPages - Anchors, totalPages);
      } else if currentPage >= totalPages - Anchors {
        buttons := PushPages(buttons, 0, Anchors);
        buttons := buttons + [Ellipsis(true)];
        buttons := PushPages(buttons, totalPages - Anchors, totalPages);
      } else {
        buttons := PushPages(buttons, 0, Anchors);
        buttons := buttons + [Ellipsis(true)];
        var start := currentPage - 1;
        if start < Anchors {
          start := Anchors;
        }
        assert start == WindowStart(currentPage);
        var middleEnd := start + 3;
        buttons := PushPages(buttons, start, middleEnd);
        buttons := buttons + [Ellipsis(false)];
        buttons := PushPages(buttons, totalPages - Anchors, totalPages);
      }
    }
  }

  /**
   * The number of controls: every page up to 10 pages; otherwise 7 near
   * either end and 11 in the middle.
   */
  lemma PageButtonsLength(totalPages: nat, currentPage: nat)
    ensures |PageButtons(totalPages, currentPage)| ==
      if totalPages <= MaxPlainPages then totalPages
      else if Anchors <= currentPage < totalPages - Anchors then 11
      else 7
  {
  }

  /** In the middle case the window holds the current page and starts after the first three anchors. */
  lemma WindowHoldsCurrent(totalPages: nat, currentPage: nat)
    requires totalPages > MaxPlainPages && Anchors <= currentPage < totalPages - Anchors
    ensures Anchors <= WindowStart(currentPage) <= currentPage < WindowStart(currentPage) + 3
    ensures PageButtons(totalPages, currentPage)[4..7] == Pages(WindowStart(currentPage), WindowStart(currentPage) + 3)
  {
  }

  /** Every page index shown lies in [0, totalPages). */
  lemma PageIndicesInRange(totalPages: nat, currentPage: nat)
    ensures forall k :: 0 <= k < |PageButtons(totalPages, currentPage)| && PageButtons(totalPages, currentPage)[k].Page? ==>
              0 <= PageButtons(totalPages, currentPage)[k].index < totalPages
  {
    var r := PageButtons(totalPages, currentPage);
    if totalPages > MaxPlainPages {
      forall k | 0 <= k < |r| && r[k].Page? ensures 0 <= r[k].index < totalPages {
        ButtonAt(totalPages, currentPage, k);
      }
    }
  }

  /** Each control of the windowed list, by position. */
  lemma ButtonAt(totalPages: nat, currentPage: nat, k: nat)
    requires totalPages > MaxPlainPages && k < |PageButtons(totalPages, currentPage)|
    ensures var r := PageButtons(totalPages, currentPage);
      if Anchors <= currentPage < totalPages - Anchors then
        r[k] == (if k < 3 then Page(k)
                 else if k == 3 then Ellipsis(true)
                 else if k < 7 then Page(WindowStart(currentPage) + k - 4)
                 else if k == 7 then Ellipsis(false)
                 else Page(totalPages - 11 + k))
      else
        r[k] == (if k < 3 then Page(k)
                 else if k == 3 then Ellipsis(currentPage >= Anchors)
                 else Page(totalPages - 7 + k))
  {
  }

  /** Page indices never go down from left to right. */
  ghost predicate IndicesNonDecreasing(r: seq<PageButton>) {
    forall i, j :: 0 <= i < j < |r| && r[i].Page? && r[j].Page? ==> r[i].index <= r[j].index
  }

  /** No page index is shown twice, and they go up from left to right. */
  ghost predicate IndicesIncreasing(r: seq<PageButton>) {
    forall i, j :: 0 <= i < j < |r| && r[i].Page? && r[j].Page? ==> r[i].index < r[j].index
  }

  /**
   * The page indices are in order, and strictly increasing except when the
   * current page is totalPages - 4: the window then ends on totalPages - 3,
   * which the last anchors show again.
   */
  lemma PageIndicesOrdered(totalPages: nat, currentPage: nat)
    ensures IndicesNonDecreasing(PageButtons(totalPages, currentPage))
    ensures IndicesIncreasing(PageButtons(totalPages, currentPage))
            <==> !(totalPages > MaxPlainPages && currentPage == totalPages - 4)
  {
    var r := PageButtons(totalPages, currentPage);
    if totalPages > MaxPlainPages {
      forall i, j | 0 <= i < j < |r| && r[i].Page? && r[j].Page?
        ensures r[i].index <= r[j].index
        ensures currentPage != totalPages - 4 ==> r[i].index < r[j].index
      {
        ButtonAt(totalPages, currentPage, i);
        ButtonAt(totalPages, currentPage, j);
      }
      if currentPage == totalPages - 4 {
        ButtonAt(totalPages, currentPage, 6);
        ButtonAt(totalPages, currentPage, 8);
        assert r[6] == r[8] == Page(totalPages - 3);
      }
    }
  }

  /** With 25 pages and page 21 current (0-based), the button for page 22 is shown twice. */
  lemma RepeatedAnchor()
    ensures PageButtons(25, 21)[6] == Page(22) && PageButtons(25, 21)[8] == Page(22)
    ensures !IndicesIncreasing(PageButtons(25, 21))
  {
    PageIndicesOrdered(25, 21);
  }

  /** The middle window kept clear of the last three anchors. */
  function ClampedWindowStart(totalPages: nat, currentPage: int): int {
    var start := WindowStart(currentPage);
    if start > totalPages - 6 then totalPages - 6 else start
  }

  /** The controls with the middle window clamped on the right as well as on the left. */
  function ClampedPageButtons(totalPages: nat, currentPage: nat): seq<PageButton> {
    if totalPages <= MaxPlainPages || currentPage < Anchors || currentPage >= totalPages - Anchors then
      PageButtons(totalPages, currentPage)
    else
      var start := ClampedWindowStart(totalPages, currentPage);
      Pages(0, Anchors) + [Ellipsis(true)] + Pages(start, start + 3) + [Ellipsis(false)]
        + Pages(totalPages - Anchors, totalPages)
  }

  /**
   * The clamped list shows every page at most once, in increasing order,
   * still holds the current page in its window, and differs from the
   * original only when the current page is totalPages - 4.
   */
  lemma ClampedPageButtonsIncreasing(totalPages: nat, currentPage: nat)
    ensures IndicesIncreasing(ClampedPageButtons(totalPages, currentPage))
    ensures totalPages > MaxPlainPages && Anchors <= currentPage < totalPages - Anchors ==>
              && Anchors <= ClampedWindowStart(totalPages, currentPage) <= currentPage
              && currentPage < ClampedWindowStart(totalPages, currentPage) + 3 <= totalPages - Anchors
    ensures !(totalPages > MaxPlainPages && currentPage == totalPages - 4) ==>
              ClampedPageButtons(totalPages, currentPage) == PageButtons(totalPages, currentPage)
  {
    var tp, cp := totalPages, currentPage;
    var r := ClampedPageButtons(tp, cp);
    if tp > MaxPlainPages && Anchors <= cp < tp - Anchors {
      forall i, j | 0 <= i < j < |r| && r[i].Page? && r[j].Page? ensures r[i].index < r[j].index {
        ClampedButtonAt(tp, cp, i);
        ClampedButtonAt(tp, cp, j);
      }
    } else {
      PageIndicesOrdered(tp, cp);
    }
  }

  lemma ClampedButtonAt(totalPages: nat, currentPage: nat, k: nat)
    requires totalPages > MaxPlainPages && Anchors <= currentPage < totalPages - Anchors
    requires k < |ClampedPageButtons(totalPages, currentPage)|
    ensures |ClampedPageButtons(totalPages, currentPage)| == 11
    ensures ClampedPageButtons(totalPages, currentPage)[k] ==
              if k < 3 then Page(k)
              else if k == 3 then Ellipsis(true)
              else if k < 7 then Page(ClampedWindowStart(totalPages, currentPage) + k - 4)
              else if k == 7 then Ellipsis(false)
              else Page(totalPages - 11 + k)
  {
  }

  /** The button for page `index` is the highlighted one when it is the current page. */
  predicate IsActive(b: PageButton, currentPage: int) {
    b.Page? && b.index == currentPage
  }

  /** Whenever the current page exists, exactly one control is highlighted: its button. */
  lemma ExactlyOneActive(totalPages: nat, currentPage: nat)
    requires currentPage < totalPages
    ensures exists k :: 0 <= k < |PageButtons(totalPages, currentPage)| && IsActive(PageButtons(totalPages, currentPage)[k], currentPage)
    ensures forall k, l ::
              (&& 0 <= k < |PageButtons(totalPages, currentPage)| && 0 <= l < |PageButtons(totalPages, currentPage)|
               && IsActive(PageButtons(totalPages, currentPage)[k], currentPage)
               && IsActive(PageButtons(totalPages, currentPage)[l], currentPage))
              ==> k == l
  {
    var r := PageButtons(totalPages, currentPage);
    var tp, cp := totalPages, currentPage;
    if tp <= MaxPlainPages {
      assert IsActive(r[cp], cp);
    } else {
      var k: nat;
      if cp < Anchors {
        k := cp;
      } else if cp >= tp - Anchors {
        k := cp - tp + 7;
      } else {
        k := cp - WindowStart(cp) + 4;
      }
      ButtonAt(tp, cp, k);
      assert IsActive(r[k], cp);
      forall i, j | 0 <= i < |r| && 0 <= j < |r| && IsActive(r[i], cp) && IsActive(r[j], cp)
        ensures i == j
      {
        ButtonAt(tp, cp, i);
        ButtonAt(tp, cp, j);
      }
    }
  }

  /** The left arrow: shown when a page precedes the current one, and it requests that page. */
  function PrevArrow(currentPage: nat): Option<nat> {
    if currentPage > 0 then Some(currentPage - 1) else None
  }

  /** The right arrow: shown when a page follows the current one, and it requests that page. */
  function NextArrow(totalPages: nat, currentPage: nat): Option<nat> {
    if currentPage < totalPages - 1 then Some(currentPage + 1) else None
  }

  /**
   * The arrows step by one page and never leave [0, totalPages): the left
   * one is missing on the first page, the right one on the last.
   */
  lemma ArrowsStayInRange(totalPages: nat, currentPage: nat)
    requires currentPage < totalPages
    ensures PrevArrow(currentPage).Some? <==> currentPage != 0
    ensures NextArrow(totalPages, currentPage).Some? <==> currentPage != totalPages - 1
    ensures PrevArrow(currentPage).Some? ==> PrevArrow(currentPage).value == currentPage - 1
    ensures NextArrow(totalPages, currentPage).Some? ==>
              NextArrow(totalPages, currentPage).value == currentPage + 1 < totalPages
  {
  }

  /**
   * What the "IR" button of a popover requests: the typed page number
   * minus one, when it parses to an integer in [1, totalPages]; otherwise
   * nothing.
   */
  function JumpTarget(input: string, totalPages: int): (r: Option<nat>)
    ensures r.Some? <==> ParseInt(input).Some? && 1 <= ParseInt(input).value <= totalPages
    ensures r.Some? ==> r.value == ParseInt(input).value - 1 && r.value < totalPages
  {
    var n := ParseInt(input);
    if n.Some? && 1 <= n.value <= totalPages then Some(n.value - 1) else None
  }

  /**
   * Typing the decimal text of `n` (possibly followed by text that does
   * not start with a digit) jumps to page `n - 1` exactly when
   * 1 <= n <= totalPages.
   */
  lemma JumpToTypedPage(n: nat, rest: string, totalPages: int)
    requires rest == [] || !IsDigit(rest[0])
    ensures JumpTarget(DecimalString(n) + rest, totalPages) == if 1 <= n <= totalPages then Some(n - 1) else None
  {
    ParseDecimal(n, rest);
  }

  /** The state of one `Pagination` component. */
  class Paginator {
    var showLeftPopover: bool
    var leftInput: string
    var showRightPopover: bool
    var rightInput: string

    /** At most one of the two popovers is open. */
    ghost predicate Valid()
      reads this
    {
      !(showLeftPopover && showRightPopover)
    }

    constructor ()
      ensures Valid()
      ensures !showLeftPopover && !showRightPopover && leftInput == "" && rightInput == ""
    {
      showLeftPopover, leftInput := false, "";
      showRightPopover, rightInput := false, "";
    }

    /** A click on an ellipsis toggles its own popover and closes the other one. */
    method ClickEllipsis(isLeft: bool)
      requires Valid()
      modifies this
      ensures Valid()
      ensures isLeft ==> showLeftPopover == !old(showLeftPopover) && !showRightPopover
      ensures !isLeft ==> showRightPopover == !old(showRightPopover) && !showLeftPopover
      ensures leftInput == old(leftInput) && rightInput == old(rightInput)
    {
      if isLeft {
        showLeftPopover := !showLeftPopover;
        showRightPopover := false;
      } else {
        showRightPopover := !showRightPopover;
        showLeftPopover := false;
      }
    }

    /** The left popover's input `onChange`. */
    method EditLeftInput(text: string)
      requires Valid()
      modifies this
      ensures Valid()
      ensures leftInput == text
      ensures showLeftPopover == old(showLeftPopover) && showRightPopover == old(showRightPopover)
      ensures rightInput == old(rightInput)
    {
      leftInput := text;
    }

    /** The right popover's input `onChange`. */
    method EditRightInput(text: string)
      requires Valid()
      modifies this
      ensures Valid()
      ensures rightInput == text
      ensures showLeftPopover == old(showLeftPopover) && showRightPopover == old(showRightPopover)
      ensures leftInput == old(leftInput)
    {
      rightInput := text;
    }

    /**
     * `handleLeftGo`: on a valid page number, request it, close the left
     * popover and clear its input; otherwise change nothing.
     */
    method LeftGo(totalPages: int) returns (request: Option<nat>)
      requires Valid()
      modifies this
      ensures Valid()
      ensures request == JumpTarget(old(leftInput), totalPages)
      ensures request.Some? ==> !showLeftPopover && leftInput == ""
      ensures request.None? ==> showLeftPopover == old(showLeftPopover) && leftInput == old(leftInput)
      ensures showRightPopover == old(showRightPopover) && rightInput == old(rightInput)
    {
      var pageNumber := ParseInt(leftInput);
      if pageNumber.Some? && pageNumber.value >= 1 && pageNumber.value <= totalPages {
        request := Some(pageNumber.value - 1);
        showLeftPopover := false;
        leftInput := "";
      } else {
        request := None;
      }
    }

    /**
     * `handleRightGo`: on a valid page number, request it, close the right
     * popover and clear its input; otherwise change nothing.
     */
    method RightGo(totalPages: int) returns (request: Option<nat>)
      requires Valid()
      modifies this
      ensures Valid()
      ensures request == JumpTarget(old(rightInput), totalPages)
      ensures request.Some? ==> !showRightPopover && rightInput == ""
      ensures request.None? ==> showRightPopover == old(showRightPopover) && rightInput == old(rightInput)
      ensures showLeftPopover == old(showLeftPopover) && leftInput == old(leftInput)
    {
      var pageNumber := ParseInt(rightInput);
      if pageNumber.Some? && pageNumber.value >= 1 && pageNumber.value <= totalPages {
        request := Some(pageNumber.value - 1);
        showRightPopover := false;
        rightInput := "";
      } else {
        request := None;
      }
    }
  }
}
