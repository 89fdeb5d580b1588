/**
 * The export helpers: the visible-column filter, the worksheet rows handed to the
 * spreadsheet writer, the print-all table markup, and the removal of the "Actions"
 * column from a copy of the rendered table before it is printed.
 */
module Export {
  import opened Wrappers
  import opened Seqs
  import opened Text
  import opened Records
  import opened Columns
  import opened HtmlEscape

  /** `c.isShown !== false`: a descriptor without `isShown` counts as shown. */
  predicate IsVisible(c: Column)
  {
    c.isShown != Some(false)
  }

  /** `columns.filter((c) => c.isShown !== false)`. */
  function VisibleColumns(cols: seq<Column>): (vis: seq<Column>)
    ensures IsSubseq(vis, cols)
    ensures forall c :: c in vis <==> c in cols && IsVisible(c)
    ensures forall c :: multiset(vis)[c] == if IsVisible(c) then multiset(cols)[c] else 0
  {
    SelectIsSubseq(cols, IsVisible);
    SelectMembers(cols, IsVisible);
    SelectCount(cols, IsVisible);
    Select(cols, IsVisible)
  }

  // ---------------------------------------------------------------------------
  // Worksheet rows
  // ---------------------------------------------------------------------------

  /**
   * The object an `out = {}` loop builds by assigning `out[k] = value(k)` for each
   * name `k` in turn.
   */
  function ProjectOnto<V>(names: seq<string>, value: string -> V): Obj<V>
  {
    if names == [] then []
    else
      var last := names[|names| - 1];
      Assign(ProjectOnto(names[..|names| - 1], value), last, value(last))
  }

  /** Reading a property of the projection: the value for a listed name, `undefined` otherwise. */
  lemma {:induction false} ProjectOntoReads<V>(names: seq<string>, value: string -> V, k: string)
    ensures Get(ProjectOnto(names, value), k) == if k in names then Some(value(k)) else None
  {
    if names != [] {
      var init, last := names[..|names| - 1], names[|names| - 1];
      assert names == init + [last];
      if k != last {
        ProjectOntoReads(init, value, k);
        AssignKeepsOthers(ProjectOnto(init, value), last, value(last), k);
      }
    }
  }

  /** The projection has a property for exactly the listed names. */
  lemma ProjectOntoKeys<V>(names: seq<string>, value: string -> V)
    ensures forall k :: k in Keys(ProjectOnto(names, value)) <==> k in names
  {
    forall k ensures k in Keys(ProjectOnto(names, value)) <==> k in names {
      ProjectOntoReads(names, value, k);
    }
  }

  /** With distinct names the properties come in the order of the names. */
  lemma {:induction false} ProjectOntoKeyOrder<V>(names: seq<string>, value: string -> V)
    requires Distinct(names)
    ensures Keys(ProjectOnto(names, value)) == names
  {
    if names != [] {
      var init, last := names[..|names| - 1], names[|names| - 1];
      assert names == init + [last];
      assert Distinct(init);
      ProjectOntoKeyOrder(init, value);
      assert last !in init;
    }
  }

  /** The loop that fills `out`, one assignment per name. */
  method BuildProjection<V>(names: seq<string>, value: string -> V) returns (out: Obj<V>)
    ensures out == ProjectOnto(names, value)
  {
    out := [];
    var i := 0;
    while i < |names|
      invariant 0 <= i <= |names|
      invariant out == ProjectOnto(names[..i], value)
    {
      assert names[..i + 1][..i] == names[..i];
      out := Assign(out, names[i], value(names[i]));
      i := i + 1;
    }
    assert names[..i] == names;
  }

  /** The `data.map` both exports perform: one projected object per record, in order. */
  method ProjectRows<V>(data: seq<Record>, names: seq<string>, value: Record -> string -> V)
    returns (rows: seq<Obj<V>>)
    ensures |rows| == |data|
    ensures forall i :: 0 <= i < |data| ==> rows[i] == ProjectOnto(names, value(data[i]))
  {
    ghost var want := seq(|data|, j requires 0 <= j < |data| => ProjectOnto(names, value(data[j])));
    rows := [];
    for i := 0 to |data|
      invariant rows == want[..i]
    {
      var out := BuildProjection(names, value(data[i]));
      assert want[..i + 1] == want[..i] + [out];
      rows := rows + [out];
    }
    assert want[..|data|] == want;
  }

  /** `row[name] ?? ""`, the value exported for a column. */
  function ExportValue(row: Record): string -> Value
  {
    k => OrEmpty(Get(row, k))
  }

  /** The worksheet row for one record: its values under the visible column names. */
  function SheetRow(row: Record, cols: seq<Column>): Obj<Value>
  {
    ProjectOnto(Names(VisibleColumns(cols)), ExportValue(row))
  }

  /**
   * A worksheet row has a property for exactly the visible column names, holds the
   * record's value there with `null` and `undefined` turned into "", and never holds
   * `null`.
   */
  lemma SheetRowContents(row: Record, cols: seq<Column>, k: string)
    ensures k in Keys(SheetRow(row, cols)) <==> k in Names(VisibleColumns(cols))
    ensures Get(SheetRow(row, cols), k) ==
      if k in Names(VisibleColumns(cols)) then Some(OrEmpty(Get(row, k))) else None
    ensures Get(SheetRow(row, cols), k) != Some(Null)
  {
    ProjectOntoReads(Names(VisibleColumns(cols)), ExportValue(row), k);
  }

  /**
   * `exportToExcel`: nothing when there is no data; otherwise one worksheet row per
   * record, in order.
   */
  method ExportToExcel(data: seq<Record>, cols: seq<Column>) returns (sheet: Option<seq<Obj<Value>>>)
    ensures sheet.None? <==> data == []
    ensures sheet.Some? ==> |sheet.value| == |data|
    ensures sheet.Some? ==> forall i :: 0 <= i < |data| ==> sheet.value[i] == SheetRow(data[i], cols)
  {
    if |data| == 0 {
      return None;
    }
    var rows := ProjectRows(data, Names(VisibleColumns(cols)), ExportValue);
    return Some(rows);
  }

  // ---------------------------------------------------------------------------
  // Print-all table
  // ---------------------------------------------------------------------------

  /** A table as header cells and body rows of cell texts. */
  datatype Grid = Grid(header: seq<string>, body: seq<seq<string>>)

  /** The text of a body cell: `escapeHtml(String(row[col.name] ?? ""))`. */
  function CellText(row: Record, c: Column): string
  {
    EscapeHtml(DisplayText(Get(row, c.name)))
  }

  /** The cells `printAllData` lays out, before they are wrapped in markup. */
  function PrintGrid(data: seq<Record>, cols: seq<Column>): Grid
  {
    var vis := VisibleColumns(cols);
    Grid(
      seq(|vis|, i requires 0 <= i < |vis| => Humanise(vis[i].name)),
      seq(|data|, r requires 0 <= r < |data| =>
        seq(|vis|, i requires 0 <= i < |vis| => CellText(data[r], vis[i]))))
  }

  /**
   * One header cell per visible column holding its humanised name, one row per record
   * and one cell per visible column in each row; every cell is escaped text that
   * decodes to the record's value.
   */
  lemma PrintGridLayout(data: seq<Record>, cols: seq<Column>, r: nat, i: nat)
    requires r < |data| && i < |VisibleColumns(cols)|
    ensures var g, c := PrintGrid(data, cols), VisibleColumns(cols)[i];
      && |g.header| == |VisibleColumns(cols)|
      && |g.body| == |data|
      && |g.body[r]| == |VisibleColumns(cols)|
      && g.header[i] == Humanise(c.name)
      && DropSpacesBeforeCapitals(g.header[i]) == CapitaliseFirst(c.name)
      && Unescape(g.body[r][i]) == DisplayText(Get(data[r], c.name))
      && '<' !in g.body[r][i] && '>' !in g.body[r][i]
  {
    var c := VisibleColumns(cols)[i];
    HumaniseRoundTrip(c.name);
    EscapeRoundTrip(DisplayText(Get(data[r], c.name)));
    EscapeHtmlHasNoRawSpecials(DisplayText(Get(data[r], c.name)));
  }

  /** `parts.join("")`. */
  function Concat(parts: seq<string>): string
  {
    Join(parts, "")
  }

  function HeaderHtml(header: seq<string>): string
  {
    "\n    <thead>\n      <tr>\n        "
    + Concat(seq(|header|, i requires 0 <= i < |header| => "<th>" + header[i] + "</th>"))
    + "\n      </tr>\n    </thead>\n  "
  }

  function RowHtml(cells: seq<string>): string
  {
    "\n        <tr>\n          "
    + Concat(seq(|cells|, i requires 0 <= i < |cells| => "<td>" + cells[i] + "</td>"))
    + "\n        </tr>"
  }

  function BodyHtml(body: seq<seq<string>>): string
  {
    "\n    <tbody>\n      "
    + Concat(seq(|body|, r requires 0 <= r < |body| => RowHtml(body[r])))
    + "\n    </tbody>\n  "
  }

  function TableHtml(g: Grid): string
  {
    "<table style=\"width:100%; border-collapse:collapse;\">" + HeaderHtml(g.header) + BodyHtml(g.body) + "</table>"
  }

  /** `printAllData`: nothing when there is no data, otherwise the table markup. */
  function PrintAllData(data: seq<Record>, cols: seq<Column>): (html: Option<string>)
    ensures html.None? <==> data == []
    ensures html.Some? ==> html.value == TableHtml(PrintGrid(data, cols))
  {
    if data == [] then None else Some(TableHtml(PrintGrid(data, cols)))
  }

  // ---------------------------------------------------------------------------
  // Removing the "Actions" column
  // ---------------------------------------------------------------------------

  /** A header cell whose text, trimmed and lower-cased, is "actions". */
  predicate IsActions(text: string)
  {
    ToLower(Trim(text)) == "actions"
  }

  /**
   * The index the `forEach` over the header cells leaves in `actionColIndex`: the last
   * "Actions" cell, or -1 when there is none.
   */
  method FindActionsColumn(header: seq<string>) returns (idx: int)
    ensures -1 <= idx < |header|
    ensures idx == -1 <==> forall i :: 0 <= i < |header| ==> !IsActions(header[i])
    ensures idx != -1 ==> IsActions(header[idx])
    ensures idx != -1 ==> forall j :: idx < j < |header| ==> !IsActions(header[j])
    ensures idx == LastIndexWhere(header, IsActions)
  {
    idx := FindLastWhere(header, IsActions);
  }

  /** A row with the cell at `idx` removed, when it has one; otherwise the row as it is. */
  function CutCell(cells: seq<string>, idx: int): (r: seq<string>)
    ensures 0 <= idx < |cells| ==> |r| == |cells| - 1
    ensures 0 <= idx < |cells| ==>
      forall j :: 0 <= j < |r| ==> r[j] == if j < idx then cells[j] else cells[j + 1]
    ensures !(0 <= idx < |cells|) ==> r == cells
  {
    if 0 <= idx < |cells| then RemoveAt(cells, idx) else cells
  }

  /** The copy of the rendered table that is printed: header cells and body rows of cells. */
  class TableClone {
    var header: seq<string>
    const rows: array<seq<string>>

    constructor(header: seq<string>, body: seq<seq<string>>)
      ensures this.header == header && rows[..] == body && fresh(rows)
    {
      this.header := header;
      rows := new seq<string>[|body|](i requires 0 <= i < |body| => body[i]);
    }

    /**
     * `removeActionsColumnFromClone`: with no "Actions" header the table is left as it
     * is; otherwise the cell at the last such index goes from the header and from every
     * row long enough to have it.
     */
    method RemoveActionsColumn()
      modifies this, rows
      ensures header == CutCell(old(header), LastIndexWhere(old(header), IsActions))
      ensures forall r :: 0 <= r < rows.Length ==>
        rows[r] == CutCell(old(rows[r]), LastIndexWhere(old(header), IsActions))
    {
      var idx := FindActionsColumn(header);
      CutColumn(idx);
    }

    /** The header loses its cell at `idx`, and so does every row long enough to have it. */
    method CutColumn(idx: int)
      modifies this, rows
      ensures header == CutCell(old(header), idx)
      ensures forall r :: 0 <= r < rows.Length ==> rows[r] == CutCell(old(rows[r]), idx)
    {
      if idx >= 0 {
        if idx < |header| {
          header := RemoveAt(header, idx);
        }
        CutRows(idx);
      }
    }

    /** `rows.forEach(...)`: each row long enough loses its cell at `idx`. */
    method CutRows(idx: nat)
      modifies rows
      ensures forall r :: 0 <= r < rows.Length ==> rows[r] == CutCell(old(rows[r]), idx)
    {
      for r := 0 to rows.Length
        invariant forall j :: 0 <= j < r ==> rows[j] == CutCell(old(rows[j]), idx)
        invariant forall j :: r <= j < rows.Length ==> rows[j] == old(rows[j])
      {
        if idx < |rows[r]| {
          rows[r] := RemoveAt(rows[r], idx);
        }
      }
    }
  }
}
