/**
 * The application component and its comments table: the row operations on the
 * fetched data (`deleteRow`, `addRow`, `sortByPostIdDesc`), the table's own export
 * projection and header, and the state the comments table holds (data, columns,
 * filter boxes, current page) with the page clamp that runs when the data changes.
 */
module App {
  import opened Wrappers
  import opened Seqs
  import opened Text
  import opened Records
  import opened Columns
  import opened Filter
  import opened Pagination
  import opened StableSort
  import opened Sorting
  import opened Export

  // ---------------------------------------------------------------------------
  // deleteRow
  // ---------------------------------------------------------------------------

  /** `(item) => item.id !== row.id`. */
  function OtherId(row: Record): Record -> bool
  {
    x => Get(x, "id") != Get(row, "id")
  }

  /** `data.filter((item) => item.id !== row.id)`. */
  function DeleteRow(data: seq<Record>, row: Record): (r: seq<Record>)
    ensures IsSubseq(r, data)
    ensures forall x :: x in r <==> x in data && Get(x, "id") != Get(row, "id")
    ensures forall x :: multiset(r)[x] == if Get(x, "id") != Get(row, "id") then multiset(data)[x] else 0
  {
    SelectIsSubseq(data, OtherId(row));
    SelectMembers(data, OtherId(row));
    SelectCount(data, OtherId(row));
    Select(data, OtherId(row))
  }

  /** Deleting a row that is in the data makes the data shorter. */
  lemma DeleteRowShrinks(data: seq<Record>, row: Record)
    requires row in data
    ensures |DeleteRow(data, row)| < |data|
  {
    SelectDropsOne(data, OtherId(row), row);
  }

  // ---------------------------------------------------------------------------
  // addRow
  // ---------------------------------------------------------------------------

  predicate HasNumericId(r: Record)
  {
    Get(r, "id").Some? && Get(r, "id").value.Num?
  }

  predicate NumericIds(data: seq<Record>)
  {
    forall i :: 0 <= i < |data| ==> HasNumericId(data[i])
  }

  function IdOf(r: Record): int
    requires HasNumericId(r)
  {
    Get(r, "id").value.n
  }

  /** `Math.max(...data.map((item) => item.id))` over a non-empty list of numeric ids. */
  function MaxId(data: seq<Record>): (m: int)
    requires data != [] && NumericIds(data)
    ensures forall i :: 0 <= i < |data| ==> IdOf(data[i]) <= m
    ensures exists i :: 0 <= i < |data| && IdOf(data[i]) == m
  {
    if |data| == 1 then IdOf(data[0])
    else
      var rest := MaxId(data[1..]);
      assert forall i :: 1 <= i < |data| ==> data[i] == data[1..][i - 1];
      if IdOf(data[0]) >= rest then IdOf(data[0])
      else
        var k :| 0 <= k < |data[1..]| && IdOf(data[1..][k]) == rest;
        assert data[k + 1] == data[1..][k];
        rest
  }

  /** The id `addRow` gives the new record. */
  function NewId(data: seq<Record>): (id: int)
    requires NumericIds(data)
    ensures data == [] ==> id == 1
    ensures data != [] ==> exists i :: 0 <= i < |data| && id == IdOf(data[i]) + 1
    ensures forall i :: 0 <= i < |data| ==> IdOf(data[i]) < id
  {
    if |data| > 0 then MaxId(data) + 1 else 1
  }

  /** The record `addRow` builds; `postId` is the random number it draws. */
  function NewRow(id: int, postId: int): Record
  {
    [ Entry("postId", Num(postId)),
      Entry("id", Num(id)),
      Entry("name", Str("New Name " + IntToString(id))),
      Entry("email", Str("demo@email.com")) ]
  }

  lemma NewRowFields(id: int, postId: int)
    ensures Keys(NewRow(id, postId)) == ["postId", "id", "name", "email"]
    ensures Get(NewRow(id, postId), "id") == Some(Num(id))
    ensures Get(NewRow(id, postId), "postId") == Some(Num(postId))
  {
    var r := NewRow(id, postId);
    KeysInOrder(r);
    assert r[1..] == [r[1], r[2], r[3]];
    assert r[1..][1..] == [r[2], r[3]];
  }

  /**
   * `addRow`: one new record at the end, with an id one above the largest and a
   * `postId` drawn from 1 to 100.
   */
  function AddRow(data: seq<Record>, postId: int): (r: seq<Record>)
    requires NumericIds(data)
    requires 1 <= postId <= 100
    ensures |r| == |data| + 1 && r[..|data|] == data
    ensures Keys(r[|data|]) == ["postId", "id", "name", "email"]
    ensures Get(r[|data|], "postId") == Some(Num(postId))
    ensures Get(r[|data|], "id") == Some(Num(NewId(data)))
    ensures forall i :: 0 <= i < |data| ==> Get(data[i], "id") != Get(r[|data|], "id")
    ensures NumericIds(r)
  {
    NewRowFields(NewId(data), postId);
    data + [NewRow(NewId(data), postId)]
  }

  // ---------------------------------------------------------------------------
  // sortByPostIdDesc
  // ---------------------------------------------------------------------------

  /**
   * `Number(v)` as subtraction applies it to a `postId`: a number is itself, `null` is 0, a
   * string goes through `StringToNumber`, and `undefined` is `None`, standing for `NaN`.
   */
  function ToNumber(v: Option<Value>): Option<int>
  {
    match v
    case Some(Num(n)) => Some(n)
    case Some(Null) => Some(0)
    case Some(Str(s)) => StringToNumber(s)
    case None => None
  }

  function PostIdNumber(r: Record): Option<int>
  {
    ToNumber(Get(r, "postId"))
  }

  /** `(a, b) => b.postId - a.postId`; a NaN difference reads as 0, a tie, to the sort. */
  function PostIdDiff(a: Record, b: Record): int
  {
    if PostIdNumber(a).Some? && PostIdNumber(b).Some? then PostIdNumber(b).value - PostIdNumber(a).value
    else 0
  }

  /** `[...data].sort((a, b) => b.postId - a.postId)`: the data rearranged, nothing added or lost. */
  function SortByPostIdDesc(data: seq<Record>): (r: seq<Record>)
    ensures |r| == |data|
    ensures multiset(r) == multiset(data)
  {
    var r := SortWith(data, PostIdDiff);
    assert |r| == |multiset(r)| == |multiset(data)| == |data|;
    r
  }

  /** `Number(postId)` is not `NaN`. */
  predicate PostIdConverts(r: Record)
  {
    PostIdNumber(r).Some?
  }

  lemma PostIdDiffConsistent()
    ensures ConsistentOn(PostIdDiff, PostIdConverts)
  {
  }

  /** With no `postId` converting to `NaN`, the converted `postId`s come out non-increasing. */
  lemma SortByPostIdDescOrders(data: seq<Record>, i: nat, j: nat)
    requires AllIn(data, PostIdConverts)
    requires i < j < |data|
    ensures var r := SortByPostIdDesc(data);
      PostIdConverts(r[i]) && PostIdConverts(r[j]) && PostIdNumber(r[i]).value >= PostIdNumber(r[j]).value
  {
    PostIdDiffConsistent();
    SortWithSorted(data, PostIdDiff, PostIdConverts);
    SortWithAllIn(data, PostIdDiff, PostIdConverts);
  }

  /** Records with the same `postId` keep their order. */
  lemma SortByPostIdDescStable(data: seq<Record>, p: Record -> bool)
    requires forall y, z :: p(y) && p(z) ==> PostIdNumber(y) == PostIdNumber(z)
    ensures Select(SortByPostIdDesc(data), p) == Select(data, p)
  {
    SortWithStable(data, PostIdDiff, p);
  }

  predicate HasNumberPostId(r: Record)
  {
    Get(r, "postId").Some? && Get(r, "postId").value.Num?
  }

  /**
   * With numeric `postId`s the button gives the same order as sorting on the `postId`
   * column descending through the sort hook.
   */
  lemma SortByPostIdDescIsHeaderSort(data: seq<Record>)
    requires AllIn(data, HasNumberPostId)
    ensures SortByPostIdDesc(data) == SortBy(data, SortConfig(Some("postId"), Desc))
  {
    var c := SortConfig(Some("postId"), Desc);
    forall a, b | HasNumberPostId(a) && HasNumberPostId(b)
      ensures PostIdDiff(a, b) <= 0 <==> Comparator(c)(a, b) <= 0
    {
    }
    SortWithAgree(data, PostIdDiff, Comparator(c), HasNumberPostId);
  }

  // ---------------------------------------------------------------------------
  // The table's own export and header
  // ---------------------------------------------------------------------------

  /** `col.isShown` read as a condition: only a present `true` counts. */
  predicate IsShown(c: Column)
  {
    c.isShown == Some(true)
  }

  /** `columns.filter((col) => col.isShown)`. */
  function ShownColumns(cols: seq<Column>): (shown: seq<Column>)
    ensures IsSubseq(shown, cols)
    ensures forall c :: c in shown <==> c in cols && c.isShown == Some(true)
    ensures forall c :: multiset(shown)[c] == if c.isShown == Some(true) then multiset(cols)[c] else 0
  {
    SelectIsSubseq(cols, IsShown);
    SelectMembers(cols, IsShown);
    SelectCount(cols, IsShown);
    Select(cols, IsShown)
  }

  /** Every shown column is also exported by the export helpers, which keep undecided ones too. */
  lemma ShownAreVisible(cols: seq<Column>)
    ensures forall c :: c in ShownColumns(cols) ==> c in VisibleColumns(cols)
  {
  }

  /** `row[name]`, `undefined` included. */
  function RawValue(row: Record): string -> Option<Value>
  {
    k => Get(row, k)
  }

  /** The object `handleExportToExcel` builds for one record. */
  function TableSheetRow(row: Record, cols: seq<Column>): Obj<Option<Value>>
  {
    ProjectOnto(Names(ShownColumns(cols)), RawValue(row))
  }

  /**
   * A row has a property for exactly the shown column names and holds the record's
   * value there as it is, `undefined` included.
   */
  lemma TableSheetRowContents(row: Record, cols: seq<Column>, k: string)
    ensures k in Keys(TableSheetRow(row, cols)) <==> k in Names(ShownColumns(cols))
    ensures Get(TableSheetRow(row, cols), k) ==
      if k in Names(ShownColumns(cols)) then Some(Get(row, k)) else None
  {
    ProjectOntoReads(Names(ShownColumns(cols)), RawValue(row), k);
  }

  /** `handleExportToExcel`: one object per record, with no check for empty data. */
  method HandleExportToExcel(data: seq<Record>, cols: seq<Column>) returns (rows: seq<Obj<Option<Value>>>)
    ensures |rows| == |data|
    ensures forall i :: 0 <= i < |data| ==> rows[i] == TableSheetRow(data[i], cols)
  {
    rows := ProjectRows(data, Names(ShownColumns(cols)), RawValue);
  }

  /** The header cells the table renders: the humanised column names, then "Actions". */
  function RenderedHeader(names: seq<string>): seq<string>
  {
    HeaderTexts(names) + ["Actions"]
  }

  /** The humanised column names, one header text per column. */
  function HeaderTexts(names: seq<string>): seq<string>
  {
    seq(|names|, i requires 0 <= i < |names| => Humanise(names[i]))
  }

  lemma ActionsIsActions()
    ensures IsActions("Actions")
  {
    TrimUnpadded("Actions");
    var lower := ToLower("Actions");
    assert lower[0] == 'a' && lower[1..] == "ctions";
  }

  /**
   * `handlePrint` removes the column it appended itself, the last one, even when a
   * data column is also called "actions"; the other header cells stay as they were.
   */
  lemma PrintDropsAppendedActions(names: seq<string>)
    ensures LastIndexWhere(RenderedHeader(names), IsActions) == |names|
    ensures CutCell(RenderedHeader(names), |names|) == HeaderTexts(names)
  {
    var shown := HeaderTexts(names);
    var h := RenderedHeader(names);
    assert h[..|names|] == shown && h[|names|] == "Actions";
    ActionsIsActions();
    assert IsActions(h[|h| - 1]);
  }

  // ---------------------------------------------------------------------------
  // The comments table's state
  // ---------------------------------------------------------------------------

  /**
   * The state behind the comments table: the records and column descriptors `App`
   * holds, and the filter boxes and current page `CommentsTable` holds. The page clamp
   * effect, which runs after every change of the records, is folded into the
   * operations that change them.
   */
  class TableView {
    var data: seq<Record>
    var columns: seq<Column>
    var query: Query
    var currentPage: int
    const pageSize: PageSize

    /** The page stays within the pages of the unfiltered records, the count the clamp uses. */
    ghost predicate Valid()
      reads this
    {
      1 <= currentPage <= TotalPages(|data|, pageSize)
    }

    /** `filteredData`. */
    function Filtered(): (r: seq<Record>)
      reads this
      ensures |r| <= |data|
    {
      FilterRows(data, query)
    }

    /** `totalPages`: counted on the filtered records, and never more than the clamp allows. */
    function PageCount(): (t: nat)
      reads this
      ensures 1 <= t <= TotalPages(|data|, pageSize)
    {
      TotalPagesMonotonic(|Filtered()|, |data|, pageSize);
      TotalPages(|Filtered()|, pageSize)
    }

    /** `currentItems`: the window of the current page over the filtered records. */
    function CurrentItems(): (r: seq<Record>)
      reads this
      ensures |r| <= pageSize
      ensures currentPage > PageCount() ==> r == []
    {
      var items := PageItems(Filtered(), currentPage, pageSize);
      if currentPage > PageCount() then PageOutOfRangeIsEmpty(Filtered(), currentPage, pageSize); items
      else items
    }

    constructor(pageSize: PageSize)
      ensures Valid()
      ensures data == [] && columns == [] && query == NoQuery && currentPage == 1
      ensures this.pageSize == pageSize
    {
      data := [];
      columns := [];
      query := NoQuery;
      currentPage := 1;
      this.pageSize := pageSize;
    }

    /** The effect on `[data]`: `setCurrentPage((prev) => Math.min(prev, newTotalPages))`. */
    method ClampToData()
      modifies this
      requires currentPage >= 1
      ensures Valid()
      ensures currentPage == ClampPage(old(currentPage), |data|, pageSize)
      ensures data == old(data) && columns == old(columns) && query == old(query)
    {
      currentPage := ClampPage(currentPage, |data|, pageSize);
    }

    /**
     * A successful fetch: the records are replaced, and the columns are derived from the
     * first one (an empty response stops before the columns are set).
     */
    method ReceiveData(json: seq<Record>)
      modifies this
      requires Valid()
      ensures Valid()
      ensures data == json && columns == ColumnsAfterFetch(old(columns), json)
      ensures query == old(query)
      ensures currentPage == ClampPage(old(currentPage), |json|, pageSize)
    {
      data := json;
      columns := ColumnsAfterFetch(columns, json);
      ClampToData();
    }

    /** `deleteRow(row)` followed by the clamp. */
    method OnDeleteRow(row: Record)
      modifies this
      requires Valid()
      ensures Valid()
      ensures data == DeleteRow(old(data), row)
      ensures columns == old(columns) && query == old(query)
      ensures currentPage == ClampPage(old(currentPage), |data|, pageSize)
    {
      data := DeleteRow(data, row);
      ClampToData();
    }

    /** `addRow()`: the page never moves, since the data only grows. */
    method OnAddRow(postId: int)
      modifies this
      requires Valid() && NumericIds(data)
      requires 1 <= postId <= 100
      ensures Valid()
      ensures data == AddRow(old(data), postId)
      ensures columns == old(columns) && query == old(query)
      ensures currentPage == old(currentPage)
    {
      data := AddRow(data, postId);
      ClampOnDataChange(currentPage, |old(data)|, |data|, pageSize);
      ClampToData();
    }

    /** `sortByPostIdDesc()`: the page never moves, since the length is kept. */
    method OnSortByPostIdDesc()
      modifies this
      requires Valid()
      ensures Valid()
      ensures data == SortByPostIdDesc(old(data))
      ensures columns == old(columns) && query == old(query)
      ensures currentPage == old(currentPage)
    {
      data := SortByPostIdDesc(data);
      assert |data| == |multiset(data)| == |multiset(old(data))| == |old(data)|;
      ClampOnDataChange(currentPage, |old(data)|, |data|, pageSize);
      ClampToData();
    }

    /** Typing in the postId box: no clamp follows, the effect only watches the records. */
    method SetPostIdFilter(postId: Option<int>)
      modifies this
      requires Valid()
      ensures Valid()
      ensures query == old(query).(postId := postId)
      ensures data == old(data) && columns == old(columns) && currentPage == old(currentPage)
    {
      query := query.(postId := postId);
    }

    /** Typing in the search box: no clamp follows either. */
    method SetSearch(search: string)
      modifies this
      requires Valid()
      ensures Valid()
      ensures query == old(query).(search := search)
      ensures data == old(data) && columns == old(columns) && currentPage == old(currentPage)
    {
      query := query.(search := search);
    }

    /** The numbered button at `index`, one of `[...Array(totalPages)]`. */
    method GoToPage(index: nat)
      modifies this
      requires Valid() && index < PageCount()
      ensures Valid()
      ensures currentPage == index + 1 && currentPage <= PageCount()
      ensures data == old(data) && columns == old(columns) && query == old(query)
    {
      currentPage := index + 1;
    }

    /** Prev: `Math.max(prev - 1, 1)`. */
    method Prev()
      modifies this
      requires Valid()
      ensures Valid()
      ensures currentPage == PrevPage(old(currentPage))
      ensures currentPage <= old(currentPage)
      ensures data == old(data) && columns == old(columns) && query == old(query)
    {
      currentPage := PrevPage(currentPage);
    }

    /** Next: `Math.min(prev + 1, totalPages)` with the filtered page count. */
    method Next()
      modifies this
      requires Valid()
      ensures Valid()
      ensures currentPage == NextPage(old(currentPage), PageCount())
      ensures currentPage <= PageCount()
      ensures data == old(data) && columns == old(columns) && query == old(query)
    {
      currentPage := NextPage(currentPage, PageCount());
    }
  }

  /**
   * Filtering does not clamp: from page 2 of two single-record pages, filtering down to
   * one record leaves the page at 2 and the window empty until the records change.
   */
  lemma FilterLeavesStalePage()
    ensures var a, b := NewRow(1, 1), NewRow(2, 2);
      var q := Query(Some(1), "");
      && TotalPages(|[a, b]|, 1) == 2
      && FilterRows([a, b], q) == [a]
      && TotalPages(|FilterRows([a, b], q)|, 1) == 1
      && PageItems(FilterRows([a, b], q), 2, 1) == []
  {
    var a, b := NewRow(1, 1), NewRow(2, 2);
    var q := Query(Some(1), "");
    NewRowFields(1, 1);
    NewRowFields(2, 2);
    assert Keeps(a, q) && !Keeps(b, q);
    var keep := row => Keeps(row, q);
    assert [a, b][1..] == [b];
    assert Select([a, b], keep) == [a];
    PageOutOfRangeIsEmpty([a], 2, 1);
  }
}
