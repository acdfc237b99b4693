/** The `usePagination` hook: a current page over a list, the slice of the
    list that page shows, and the navigation that moves between pages. */
module Paging {
  import opened Common

  /** `Math.ceil(n / size)`: the fewest pages of `size` items that hold `n`. */
  function TotalPagesOf(n: nat, size: nat): (t: nat)
    requires size > 0
    ensures t * size >= n
    ensures t == 0 || (t - 1) * size < n
    ensures t == 0 <==> n == 0
  {
    var t := (n + size - 1) / size;
    assert t * size <= n + size - 1 < t * size + size;
    t
  }

  /** `data.slice(start, start + size)` for the zero-based start of `page`:
      the items the page shows, fewer on the last page and none past it. */
  function PageSlice<T>(data: seq<T>, page: int, size: nat): (r: seq<T>)
    requires page >= 1 && size > 0
    ensures var start := (page - 1) * size;
      && |r| == (if start >= |data| then 0 else Min(size, |data| - start))
      && forall i :: 0 <= i < |r| ==> r[i] == data[start + i]
  {
    var start := (page - 1) * size;
    MulMonotonic(0, page - 1, size);
    if start >= |data| then [] else data[start..Min(start + size, |data|)]
  }

  /** `Math.max(1, Math.min(page, totalPages))`. */
  function ClampPage(page: int, total: nat): (r: int)
    ensures r >= 1
    ensures total >= 1 ==> r <= total
    ensures 1 <= page <= total ==> r == page
    ensures page > total ==> r == Max(1, total)
    ensures page < 1 ==> r == 1
  {
    Max(1, Min(page, total))
  }

  /** The pages one after the other, `1` to `k`. */
  function FirstPages<T>(data: seq<T>, size: nat, k: nat): seq<T>
    requires size > 0
  {
    if k == 0 then [] else FirstPages(data, size, k - 1) + PageSlice(data, k, size)
  }

  /** The first `k` pages hold the first `k * size` items. */
  lemma {:induction false} FirstPagesPrefix<T>(data: seq<T>, size: nat, k: nat)
    requires size > 0
    ensures FirstPages(data, size, k) == data[..Min(k * size, |data|)]
  {
    if k > 0 {
      FirstPagesPrefix(data, size, k - 1);
      var start := (k - 1) * size;
      assert k * size == start + size;
      var page := PageSlice(data, k, size);
      if start < |data| {
        assert page == data[start..Min(start + size, |data|)];
        assert data[..start] + page == data[..Min(k * size, |data|)];
      } else {
        assert Min(k * size, |data|) == |data|;
      }
    }
  }

  /** The pages split the list: shown one after the other, pages 1 to
      `totalPages` give back every item exactly once, in order. */
  lemma PagesCoverData<T>(data: seq<T>, size: nat)
    requires size > 0
    ensures FirstPages(data, size, TotalPagesOf(|data|, size)) == data
  {
    FirstPagesPrefix(data, size, TotalPagesOf(|data|, size));
  }

  /** Every page before the last is full and the last one is not empty. */
  lemma PageSizes<T>(data: seq<T>, size: nat, page: int)
    requires size > 0
    requires 1 <= page <= TotalPagesOf(|data|, size)
    ensures page < TotalPagesOf(|data|, size) ==> |PageSlice(data, page, size)| == size
    ensures |PageSlice(data, page, size)| > 0
  {
    var t := TotalPagesOf(|data|, size);
    if page < t {
      MulMonotonic(page, t - 1, size);
    } else {
      MulMonotonic(page - 1, t - 1, size);
    }
  }

  /** The "Showing x to y" numbers: the one-based position of the first item
      of the page and the position of its last item, clamped to the list. */
  function DisplayStart(page: int, size: nat): int {
    (page - 1) * size + 1
  }

  function DisplayEnd(page: int, size: nat, n: nat): int {
    Min(page * size, n)
  }

  /** On a page that has items, the displayed range names exactly the
      positions of the items the page shows. */
  lemma DisplayRangeMatchesSlice<T>(data: seq<T>, page: int, size: nat)
    requires page >= 1 && size > 0
    requires |PageSlice(data, page, size)| > 0
    ensures DisplayEnd(page, size, |data|) - DisplayStart(page, size) + 1 == |PageSlice(data, page, size)|
    ensures PageSlice(data, page, size)[0] == data[DisplayStart(page, size) - 1]
    ensures PageSlice(data, page, size)[|PageSlice(data, page, size)| - 1] == data[DisplayEnd(page, size, |data|) - 1]
  {
    assert page * size == (page - 1) * size + size;
  }

  /** The hook's state: the list it pages through and the current page. */
  class Pager<T> {
    var data: seq<T>
    const itemsPerPage: nat
    var currentPage: int

    /** The page is at least 1, and within the pages when there are any. */
    ghost predicate Valid()
      reads this
    {
      itemsPerPage > 0 && 1 <= currentPage <= Max(1, TotalPagesOf(|data|, itemsPerPage))
    }

    constructor(data: seq<T>, itemsPerPage: nat)
      requires itemsPerPage > 0
      ensures Valid()
      ensures this.data == data && this.itemsPerPage == itemsPerPage && currentPage == 1
    {
      this.data := data;
      this.itemsPerPage := itemsPerPage;
      currentPage := 1;
    }

    function TotalPages(): nat
      reads this
      requires itemsPerPage > 0
    {
      TotalPagesOf(|data|, itemsPerPage)
    }

    function CurrentData(): seq<T>
      reads this
      requires Valid()
    {
      PageSlice(data, currentPage, itemsPerPage)
    }

    predicate HasNext()
      reads this
      requires itemsPerPage > 0
    {
      currentPage < TotalPages()
    }

    predicate HasPrevious()
      reads this
    {
      currentPage > 1
    }

    /** `goToPage`: jump to `page`, clamped to the pages there are. */
    method GoToPage(page: int)
      requires Valid()
      modifies this
      ensures Valid()
      ensures currentPage == ClampPage(page, old(TotalPages()))
      ensures data == old(data)
    {
      currentPage := ClampPage(page, TotalPages());
    }

    /** `goToNext`: one page forward, only when there is a next page. */
    method GoToNext()
      requires Valid()
      modifies this
      ensures Valid()
      ensures currentPage == if old(HasNext()) then old(currentPage) + 1 else old(currentPage)
      ensures data == old(data)
    {
      if currentPage < TotalPages() {
        currentPage := currentPage + 1;
      }
    }

    /** `goToPrevious`: one page back, only when there is a previous page. */
    method GoToPrevious()
      requires Valid()
      modifies this
      ensures Valid()
      ensures currentPage == if old(HasPrevious()) then old(currentPage) - 1 else old(currentPage)
      ensures data == old(data)
    {
      if currentPage > 1 {
        currentPage := currentPage - 1;
      }
    }

    /** New data: the effect on `[data]` puts the hook back on page 1. */
    method SetData(newData: seq<T>)
      requires Valid()
      modifies this
      ensures Valid()
      ensures data == newData && currentPage == 1
    {
      data := newData;
      currentPage := 1;
    }
  }
}
