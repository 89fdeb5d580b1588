/**
 * Page arithmetic of the `usePagination` hook (and of the same logic written out in
 * `CommentsTable`): the page count, the window of items for a page, the clamp run
 * when the data changes, Prev/Next stepping, and the hook's page state.
 */
module Pagination {

  /** A page size; the table uses 100 and never 0. */
  type PageSize = n: nat | n > 0 witness 1

  function Min(a: int, b: int): int { if a <= b then a else b }
  function Max(a: int, b: int): int { if a >= b then a else b }

  /** `Math.max(1, Math.ceil(count / size))`. */
  function TotalPages(count: nat, size: PageSize): (t: nat)
    ensures t >= 1
    ensures count == 0 ==> t == 1
    ensures count > 0 ==> (t - 1) * size < count <= t * size
  {
    if count == 0 then 1
    else
      var t := (count + size - 1) / size;
      assert t * size + (count + size - 1) % size == count + size - 1;
      t
  }

  /** The page count never shrinks when the item count grows. */
  lemma TotalPagesMonotonic(a: nat, b: nat, size: PageSize)
    requires a <= b
    ensures TotalPages(a, size) <= TotalPages(b, size)
  {
    var ta, tb := TotalPages(a, size), TotalPages(b, size);
    if a > 0 && ta > tb {
      assert (ta - 1) * size >= tb * size by {
        assert ta - 1 >= tb;
        MulMonotonic(tb, ta - 1, size);
      }
    }
  }

  lemma MulMonotonic(x: nat, y: nat, k: nat)
    requires x <= y
    ensures x * k <= y * k
  {
  }

  /** How `Array.prototype.slice` normalises an index: negative indices count from the end. */
  function SliceBound(i: int, len: nat): (b: nat)
    ensures b <= len
  {
    if i < 0 then (if len + i < 0 then 0 else len + i) else if i > len then len else i
  }

  /** `s.slice(start, end)`. */
  function Slice<T>(s: seq<T>, start: int, end: int): seq<T>
  {
    var a, b := SliceBound(start, |s|), SliceBound(end, |s|);
    if a < b then s[a..b] else []
  }

  /** `data.slice((page - 1) * size, page * size)`: the items shown on `page`. */
  function PageItems<T>(data: seq<T>, page: int, size: PageSize): (r: seq<T>)
    ensures page >= 1 ==> r == data[Min((page - 1) * size, |data|)..Min(page * size, |data|)]
    ensures |r| <= size
  {
    PageWindow(page, size);
    Slice(data, (page - 1) * size, page * size)
  }

  /** A page's window is `size` long, and starts at or after 0 from page 1 on. */
  lemma PageWindow(page: int, size: PageSize)
    ensures page * size == (page - 1) * size + size
    ensures page >= 1 ==> (page - 1) * size >= 0
    ensures page <= 0 ==> page * size <= 0
  {
    if page >= 1 {
      MulMonotonic(0, page - 1, size);
    }
  }

  /** The window of a page past the last one starts at or after the end of the data. */
  lemma PastLastPage(n: nat, page: int, size: PageSize)
    requires page > TotalPages(n, size)
    ensures (page - 1) * size >= n
  {
    MulMonotonic(TotalPages(n, size), page - 1, size);
  }

  /** Pages past the last one, and page 0, are empty. */
  lemma PageOutOfRangeIsEmpty<T>(data: seq<T>, page: int, size: PageSize)
    requires page > TotalPages(|data|, size) || page == 0
    ensures PageItems(data, page, size) == []
  {
    PageWindow(page, size);
    if page > 0 {
      PastLastPage(|data|, page, size);
    }
  }

  /**
   * The hook's setter accepts any number: a negative page selects a window counted
   * from the end of the data (page -1 shows items n-2*size up to n-size).
   */
  lemma NegativePageCountsFromEnd<T>(data: seq<T>, page: int, size: PageSize)
    requires page < 0
    requires |data| + (page - 1) * size >= 0
    ensures PageItems(data, page, size) == data[|data| + (page - 1) * size..|data| + page * size]
  {
  }

  /** The concatenation of pages 1..k. */
  function PagesUpTo<T>(data: seq<T>, size: PageSize, k: nat): seq<T>
  {
    if k == 0 then [] else PagesUpTo(data, size, k - 1) + PageItems(data, k, size)
  }

  lemma {:induction false} PagesUpToIsPrefix<T>(data: seq<T>, size: PageSize, k: nat)
    ensures PagesUpTo(data, size, k) == data[..Min(k * size, |data|)]
  {
    if k > 0 {
      PagesUpToIsPrefix(data, size, k - 1);
      PageWindow(k, size);
      var lo, hi := Min((k - 1) * size, |data|), Min(k * size, |data|);
      assert PageItems(data, k, size) == data[lo..hi];
      assert data[..lo] + data[lo..hi] == data[..hi];
    }
  }

  /** Pages 1..totalPages, laid end to end, give back the data exactly. */
  lemma AllPagesReassemble<T>(data: seq<T>, size: PageSize)
    ensures PagesUpTo(data, size, TotalPages(|data|, size)) == data
  {
    var t := TotalPages(|data|, size);
    PagesUpToIsPrefix(data, size, t);
    assert Min(t * size, |data|) == |data|;
    assert data[..|data|] == data;
  }

  lemma DivMod(i: nat, size: PageSize)
    ensures i == (i / size) * size + i % size && 0 <= i % size < size
  {
  }

  lemma PageBounds(q: nat, size: PageSize)
    ensures (q + 1 - 1) * size == q * size && (q + 1) * size == q * size + size
    ensures q * size >= 0
  {
  }

  /** The page an existing item falls on is one of the pages. */
  lemma PageOfItem(n: nat, size: PageSize, i: nat)
    requires i < n
    ensures i / size + 1 <= TotalPages(n, size)
  {
    var q, t := i / size, TotalPages(n, size);
    DivMod(i, size);
    if q + 1 > t {
      MulMonotonic(t, q, size);
    }
  }

  /** Item `i` is on page `i / size + 1`, at position `i % size`. */
  lemma ItemPage<T>(data: seq<T>, size: PageSize, i: nat)
    requires i < |data|
    ensures 1 <= i / size + 1 <= TotalPages(|data|, size)
    ensures i % size < |PageItems(data, i / size + 1, size)|
    ensures PageItems(data, i / size + 1, size)[i % size] == data[i]
  {
    var q, r := i / size, i % size;
    DivMod(i, size);
    PageBounds(q, size);
    PageOfItem(|data|, size, i);
    var lo := q * size;
    var w := PageItems(data, q + 1, size);
    assert w == data[lo..Min(lo + size, |data|)];
    assert w[r] == data[lo + r];
  }

  /** The index ranges of distinct pages are disjoint: item `i` lies on page `i / size + 1` only. */
  lemma PagesAreDisjoint(size: PageSize, i: nat, page: int)
    requires page >= 1
    ensures (page - 1) * size <= i < page * size <==> page == i / size + 1
  {
    var p := i / size + 1;
    assert (p - 1) * size + i % size == i;
    PageWindow(p, size);
    PageWindow(page, size);
    if page < p {
      MulMonotonic(page, p - 1, size);
    } else if page > p {
      MulMonotonic(p, page - 1, size);
    }
  }

  /**
   * The data-change effect: `Math.min(prev, totalPages)`. It never raises the page,
   * never leaves it above the page count, and a page that was at least 1 stays at least 1.
   */
  function ClampPage(prev: int, count: nat, size: PageSize): (r: int)
    ensures r <= prev && r <= TotalPages(count, size)
    ensures r == prev || r == TotalPages(count, size)
    ensures prev >= 1 ==> 1 <= r
  {
    Min(prev, TotalPages(count, size))
  }

  /**
   * A valid page survives growth of the data unchanged and, after a shrink that
   * leaves it beyond the end, lands on the new last page.
   */
  lemma ClampOnDataChange(prev: int, oldCount: nat, newCount: nat, size: PageSize)
    requires 1 <= prev <= TotalPages(oldCount, size)
    ensures 1 <= ClampPage(prev, newCount, size) <= TotalPages(newCount, size)
    ensures oldCount <= newCount ==> ClampPage(prev, newCount, size) == prev
    ensures prev > TotalPages(newCount, size) ==> ClampPage(prev, newCount, size) == TotalPages(newCount, size)
  {
    if oldCount <= newCount {
      TotalPagesMonotonic(oldCount, newCount, size);
    }
  }

  /** The clamp does not repair a page below 1, which only the setter can produce. */
  lemma ClampKeepsLowPage(prev: int, count: nat, size: PageSize)
    requires prev < 1
    ensures ClampPage(prev, count, size) == prev
  {
  }

  /** The Prev button: `Math.max(prev - 1, 1)`. */
  function PrevPage(p: int): int { Max(p - 1, 1) }

  /** The Next button: `Math.min(prev + 1, totalPages)`. */
  function NextPage(p: int, total: nat): int { Min(p + 1, total) }

  /** Prev and Next keep a page inside `[1, total]`, and undo each other away from the ends. */
  lemma StepsStayInRange(p: int, total: nat)
    requires 1 <= p <= total
    ensures 1 <= PrevPage(p) <= total && 1 <= NextPage(p, total) <= total
    ensures p > 1 ==> PrevPage(p) == p - 1 && NextPage(PrevPage(p), total) == p
    ensures p < total ==> NextPage(p, total) == p + 1 && PrevPage(NextPage(p, total)) == p
    ensures PrevPage(1) == 1 && NextPage(total, total) == total
  {
  }

  /** Two hundred and fifty records in pages of 100, on page 3; 160 are deleted: back to page 1. */
  lemma DeletionScenario()
    ensures TotalPages(250, 100) == 3
    ensures ClampPage(3, 250 - 160, 100) == 1
  {
  }

  /** The page state kept by `usePagination`. */
  class Paginator {
    const pageSize: PageSize
    var currentPage: int

    constructor(pageSize: PageSize)
      ensures this.pageSize == pageSize && currentPage == 1
    {
      this.pageSize := pageSize;
      currentPage := 1;
    }

    /** `currentItems`: the window of `data` for the current page. */
    function CurrentItems<T>(data: seq<T>): (r: seq<T>)
      reads this
      ensures |r| <= pageSize
      ensures currentPage >= 1 ==>
        r == data[Min((currentPage - 1) * pageSize, |data|)..Min(currentPage * pageSize, |data|)]
    {
      PageItems(data, currentPage, pageSize)
    }

    /** The exposed `setCurrentPage`: no validation at all. */
    method SetCurrentPage(p: int)
      modifies this
      ensures currentPage == p
    {
      currentPage := p;
    }

    /** The effect run whenever `data` or `totalPages` changes. */
    method DataChanged(count: nat)
      modifies this
      ensures currentPage == ClampPage(old(currentPage), count, pageSize)
      ensures old(currentPage) >= 1 ==> 1 <= currentPage <= TotalPages(count, pageSize)
    {
      currentPage := Min(currentPage, TotalPages(count, pageSize));
    }
  }
}
