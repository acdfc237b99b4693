/** The `Pagination` component: the windowed list of page numbers with
    ellipses, the jump-to-page box and the guard that renders nothing for a
    single page. */
module PageNumbers {
  import opened Common
  import opened Text
  import opened Numbers

  /** One entry of the page list: a page number or the `'...'` marker. */
  datatype PageItem = Num(n: int) | Ellipsis

  const MaxVisible := 7

  /** The page numbers `lo` to `hi`, none when `lo > hi`. */
  function Run(lo: int, hi: int): (r: seq<PageItem>)
    ensures |r| == Max(0, hi - lo + 1)
    ensures forall k :: 0 <= k < |r| ==> r[k] == Num(lo + k)
  {
    seq(Max(0, hi - lo + 1), k requires 0 <= k => Num(lo + k))
  }

  /** The first and last page of the window around the current page. */
  function WindowStart(current: int): int {
    Max(2, current - 2)
  }

  function WindowEnd(current: int, total: int): int {
    Min(total - 1, current + 2)
  }

  /** The list `getPageNumbers` returns: every page when there are at most
      seven, otherwise the first page, the window of up to two pages on
      each side of the current one, the last page, and `'...'` wherever the
      window does not reach the first or the last page. */
  function PageList(current: int, total: int): seq<PageItem> {
    if total <= MaxVisible then Run(1, total)
    else
      var start := WindowStart(current);
      var end := WindowEnd(current, total);
      [Num(1)]
      + (if start > 2 then [Ellipsis] else [])
      + Run(start, end)
      + (if end < total - 1 then [Ellipsis] else [])
      + [Num(total)]
  }

  /** `getPageNumbers`, pushing entries onto `pages`. */
  method GetPageNumbers(currentPage: int, totalPages: int) returns (pages: seq<PageItem>)
    ensures pages == PageList(currentPage, totalPages)
  {
    pages := [];
    if totalPages <= MaxVisible {
      pages := PushRun(pages, 1, totalPages);
      assert pages == Run(1, totalPages);
    } else {
      pages := [Num(1)];
      var start := Max(2, currentPage - 2);
      var end := Min(totalPages - 1, currentPage + 2);
      ghost var left: seq<PageItem> := if start > 2 then [Ellipsis] else [];
      if start > 2 {
        pages := pages + [Ellipsis];
      }
      assert pages == [Num(1)] + left;
      pages := PushRun(pages, start, end);
      ghost var right: seq<PageItem> := if end < totalPages - 1 then [Ellipsis] else [];
      if end < totalPages - 1 {
        pages := pages + [Ellipsis];
      }
      assert pages == [Num(1)] + left + Run(start, end) + right;
      if totalPages > 1 {
        pages := pages + [Num(totalPages)];
      }
    }
  }

  /** The loop `for (let i = lo; i <= hi; i++) pages.push(i)`. */
  method PushRun(pages: seq<PageItem>, lo: int, hi: int) returns (r: seq<PageItem>)
    ensures r == pages + Run(lo, hi)
  {
    r := pages;
    var i := lo;
    while i <= hi
      invariant lo <= i <= Max(lo, hi + 1)
      invariant r == pages + Run(lo, i - 1)
    {
      RunSnoc(lo, i);
      r := r + [Num(i)];
      i := i + 1;
    }
  }

  lemma RunSnoc(lo: int, hi: int)
    requires lo <= hi
    ensures Run(lo, hi) == Run(lo, hi - 1) + [Num(hi)]
  {
  }

  /** With at most seven pages the list is exactly `1, 2, ..., totalPages`. */
  lemma SmallPageList(current: int, total: int)
    requires total <= MaxVisible
    ensures |PageList(current, total)| == Max(0, total)
    ensures forall i :: 0 <= i < |PageList(current, total)| ==> PageList(current, total)[i] == Num(i + 1)
  {
  }

  /** With more than seven pages the list starts at page 1 and ends at the
      last page. */
  lemma PageListEnds(current: int, total: int)
    requires total > MaxVisible
    ensures PageList(current, total)[0] == Num(1)
    ensures PageList(current, total)[|PageList(current, total)| - 1] == Num(total)
  {
  }

  /** The list never has more than nine entries. */
  lemma PageListLength(current: int, total: int)
    ensures |PageList(current, total)| <= 9
  {
  }

  /** The numbers of the list increase strictly from left to right. */
  predicate Increasing(r: seq<PageItem>) {
    forall i, j :: 0 <= i < j < |r| && r[i].Num? && r[j].Num? ==> r[i].n < r[j].n
  }

  predicate NumbersWithin(r: seq<PageItem>, lo: int, hi: int) {
    forall i :: 0 <= i < |r| && r[i].Num? ==> lo <= r[i].n <= hi
  }

  lemma IncreasingConcat(a: seq<PageItem>, b: seq<PageItem>, lo: int, mid: int, hi: int)
    requires Increasing(a) && NumbersWithin(a, lo, mid)
    requires Increasing(b) && NumbersWithin(b, mid + 1, hi)
    requires lo <= mid + 1 && mid <= hi
    ensures Increasing(a + b) && NumbersWithin(a + b, lo, hi)
  {
    var r := a + b;
    forall i, j | 0 <= i < j < |r| && r[i].Num? && r[j].Num? ensures r[i].n < r[j].n {
      if j < |a| {
        assert r[i] == a[i] && r[j] == a[j];
      } else if i >= |a| {
        assert r[i] == b[i - |a|] && r[j] == b[j - |a|];
      } else {
        assert r[i] == a[i] && r[j] == b[j - |a|];
      }
    }
    forall i | 0 <= i < |r| && r[i].Num? ensures lo <= r[i].n <= hi {
      if i < |a| { assert r[i] == a[i]; } else { assert r[i] == b[i - |a|]; }
    }
  }

  /** For a current page within the pages, the numbers of the list increase
      strictly and all lie between 1 and the last page. */
  lemma PageListIncreasing(current: int, total: int)
    requires 1 <= current <= total
    ensures Increasing(PageList(current, total))
    ensures NumbersWithin(PageList(current, total), 1, total)
  {
    if total > MaxVisible {
      var start := WindowStart(current);
      var end := WindowEnd(current, total);
      var lead: seq<PageItem> := if start > 2 then [Ellipsis] else [];
      var trail: seq<PageItem> := if end < total - 1 then [Ellipsis] else [];
      IncreasingConcat([Num(1)], lead, 1, 1, 1);
      IncreasingConcat([Num(1)] + lead, Run(start, end), 1, start - 1, end);
      IncreasingConcat([Num(1)] + lead + Run(start, end), trail, 1, end, end);
      IncreasingConcat([Num(1)] + lead + Run(start, end) + trail, [Num(total)], 1, end, total);
    }
  }

  /** Page `k` is listed exactly when it is the first or the last page or
      lies within two of the current page (and between them); in
      particular the current page itself is listed. */
  lemma PageListWindow(current: int, total: int, k: int)
    requires total > MaxVisible && 1 <= current <= total
    ensures Num(k) in PageList(current, total) <==>
      k == 1 || k == total || (1 < k < total && current - 2 <= k <= current + 2)
    ensures Num(current) in PageList(current, total)
  {
    var start := WindowStart(current);
    var end := WindowEnd(current, total);
    var run := Run(start, end);
    var r := PageList(current, total);
    if start <= k <= end {
      assert run[k - start] == Num(k);
      assert Num(k) in run;
    }
    if Num(k) in run {
      var i :| 0 <= i < |run| && run[i] == Num(k);
    }
    if 1 < current < total {
      assert run[current - start] == Num(current);
    }
  }

  /** An ellipsis stands exactly where the list skips pages: two numbers
      side by side are consecutive pages, and an ellipsis always sits
      between two numbers that are further apart. */
  lemma PageListEllipses(current: int, total: int)
    requires 1 <= current <= total
    ensures NumbersAdjacent(PageList(current, total))
    ensures EllipsesAtGaps(PageList(current, total))
  {
    if total > MaxVisible {
      var start := WindowStart(current);
      var end := WindowEnd(current, total);
      var lead: seq<PageItem> := if start > 2 then [Ellipsis] else [];
      var trail: seq<PageItem> := if end < total - 1 then [Ellipsis] else [];
      WindowShape(PageList(current, total), lead, Run(start, end), trail, start, end, total);
    }
  }

  /** Numbers side by side are consecutive pages. */
  predicate NumbersAdjacent(r: seq<PageItem>) {
    forall i :: 0 <= i < |r| - 1 && r[i].Num? && r[i + 1].Num? ==> r[i + 1].n == r[i].n + 1
  }

  /** Every ellipsis sits between two numbers that are not consecutive. */
  predicate EllipsesAtGaps(r: seq<PageItem>) {
    forall i :: 0 <= i < |r| && r[i].Ellipsis? ==>
      0 < i < |r| - 1 && r[i - 1].Num? && r[i + 1].Num? && r[i + 1].n > r[i - 1].n + 1
  }

  lemma WindowShape(r: seq<PageItem>, lead: seq<PageItem>, run: seq<PageItem>, trail: seq<PageItem>,
                    start: int, end: int, total: int)
    requires r == [Num(1)] + lead + run + trail + [Num(total)]
    requires 2 <= start <= end <= total - 1
    requires run == Run(start, end)
    requires lead == (if start > 2 then [Ellipsis] else [])
    requires trail == (if end < total - 1 then [Ellipsis] else [])
    ensures NumbersAdjacent(r) && EllipsesAtGaps(r)
  {
    var a := |lead| + 1;
    var b := a + |run|;
    assert |r| == b + |trail| + 1;
    assert r[0] == Num(1);
    assert r[|r| - 1] == Num(total);
    forall i | a <= i < b ensures r[i] == Num(start + i - a) {
      assert r[i] == run[i - a];
    }
    if start > 2 { assert r[1] == Ellipsis; }
    if end < total - 1 { assert r[b] == Ellipsis; }
    assert r[a] == Num(start) && r[b - 1] == Num(end);
  }

  /** The component's output: nothing for at most one page, otherwise the
      page list. */
  function View(current: int, total: int): (v: Option<seq<PageItem>>)
    ensures v.None? <==> total <= 1
    ensures v.Some? ==> v.value == PageList(current, total)
  {
    if total <= 1 then None else Some(PageList(current, total))
  }

  /** Whenever the component renders, the first and the last page can be
      reached from it. */
  lemma ViewListsFirstAndLast(current: int, total: int)
    requires View(current, total).Some?
    ensures Num(1) in View(current, total).value && Num(total) in View(current, total).value
  {
    var r := PageList(current, total);
    if total <= MaxVisible {
      assert r[0] == Num(1) && r[total - 1] == Num(total);
    } else {
      PageListEnds(current, total);
    }
  }

  /** The page `handlePageInput` jumps to: the number typed in the box, on
      Enter, when it is a page that exists. */
  function JumpTarget(key: string, input: string, totalPages: int): (r: Option<int>)
    ensures r.Some? <==>
      key == "Enter" && ParseLeadingInt(input).Some? && 1 <= ParseLeadingInt(input).value <= totalPages
    ensures r.Some? ==> r.value == ParseLeadingInt(input).value
  {
    if key != "Enter" then None
    else
      var page := ParseLeadingInt(input);
      if page.Some? && 1 <= page.value <= totalPages then page else None
  }

  /** Typing a page that exists and pressing Enter goes to that page. */
  lemma JumpToTypedPage(page: int, totalPages: int)
    requires 1 <= page <= totalPages
    ensures JumpTarget("Enter", IntToString(page), totalPages) == Some(page)
  {
    ParsePrinted(page);
  }

  /** The jump-to-page box and its text. */
  class PageJumpBox {
    var inputPage: string

    constructor()
      ensures inputPage == ""
    {
      inputPage := "";
    }

    /** `onChange` of the box. */
    method SetInputPage(text: string)
      modifies this
      ensures inputPage == text
    {
      inputPage := text;
    }

    /** `handlePageInput`: returns the page handed to `onPageChange`, if any;
        the box is cleared exactly when a jump happens. */
    method HandlePageInput(key: string, totalPages: int) returns (jump: Option<int>)
      modifies this
      ensures jump == JumpTarget(key, old(inputPage), totalPages)
      ensures inputPage == if jump.Some? then "" else old(inputPage)
    {
      if key == "Enter" {
        var page := ParseLeadingInt(inputPage);
        if page.Some? && page.value >= 1 && page.value <= totalPages {
          jump := page;
          inputPage := "";
          return;
        }
      }
      jump := None;
    }
  }
}
