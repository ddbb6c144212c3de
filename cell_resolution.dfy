/** What `Row.getCell` hands to the cell renderer for one column: the row height, the cell
    value, the expansion metadata and the props passed through unchanged. */
module CellResolution {
  import opened Wrappers
  import opened NumberFormat
  import opened ColumnWindow

  /** The JavaScript values a row field can hold. Numbers are taken as integers. */
  datatype JsValue = Undefined | Null | Bool(b: bool) | Num(n: int) | Str(s: string)

  /** A row record: either map-like (it has a `get` function) or a plain object. */
  datatype RowData =
    | MapLike(get: string -> JsValue)
    | Plain(fields: map<string, JsValue>)

  /** The row's tree or grouping metadata (`subRowDetails`); every field is optional. */
  datatype SubRowDetails = SubRowDetails(
    field: Option<string>,
    expanded: Option<bool>,
    children: Option<seq<RowData>>,
    treeDepth: Option<int>,
    group: Option<bool>)

  /** The `expandableOptions` a cell receives. */
  datatype ExpandableOptions = ExpandableOptions(
    canExpand: bool,
    field: Option<string>,
    expanded: Option<bool>,
    children: Option<seq<RowData>>,
    treeDepth: Option<int>,
    subRowDetails: SubRowDetails)

  /** An entry of the `expandedRows` height overrides. */
  datatype ExpandedRow = ExpandedRow(height: int)

  /** The props of one row. `height` and `isSelected` are absent when the caller did not
      pass them; the defaults of `Row.defaultProps` then apply. */
  datatype RowProps = RowProps(
    idx: int,
    columns: seq<Column>,
    colOverscanStartIdx: int,
    colOverscanEndIdx: int,
    row: RowData,
    isSelected: Option<bool>,
    height: Option<int>,
    expandedRows: Option<map<int, ExpandedRow>>,
    subRowDetails: Option<SubRowDetails>,
    isScrolling: bool,
    scrollLeft: int,
    lastFrozenColumnIndex: int)

  /** The props one cell is rendered with. */
  datatype CellProps = CellProps(
    idx: nat,
    rowIdx: int,
    height: int,
    column: Column,
    value: JsValue,
    rowData: RowData,
    isRowSelected: bool,
    expandableOptions: Option<ExpandableOptions>,
    isScrolling: bool,
    scrollLeft: int,
    lastFrozenColumnIndex: int)

  const DefaultHeight: int := 35

  /** The key of the virtual row-selection column. */
  const SelectRowKey: string := "select-row"

  /** The row's height prop, 35 when the caller passed none (`defaultProps`). */
  function Height(p: RowProps): (h: int)
    ensures p.height.None? ==> h == 35
    ensures p.height.Some? ==> h == p.height.value
  {
    p.height.GetOr(DefaultHeight)
  }

  /** The row's selection flag, false when the caller passed none (`defaultProps`). */
  function IsSelected(p: RowProps): (b: bool)
    ensures b <==> p.isSelected == Some(true)
  {
    p.isSelected.GetOr(false)
  }

  /** `getRowHeight`: the `expandedRows` override for this row when there is one, else the
      row's height. The row index is tested for truthiness, so row 0 never gets its
      override. */
  function GetRowHeight(p: RowProps): (h: int)
    ensures p.idx == 0 ==> h == Height(p)
    ensures p.expandedRows.None? ==> h == Height(p)
    ensures p.expandedRows.Some? && p.idx !in p.expandedRows.value ==> h == Height(p)
    ensures p.expandedRows.Some? && p.idx != 0 && p.idx in p.expandedRows.value ==>
              h == p.expandedRows.value[p.idx].height
  {
    if p.expandedRows.Some? && p.idx != 0 && p.idx in p.expandedRows.value then
      p.expandedRows.value[p.idx].height
    else
      Height(p)
  }

  /** `row.get(key)` for a map-like row, `row[key]` for a plain one. */
  function ReadField(row: RowData, key: string): (v: JsValue)
    ensures row.MapLike? ==> v == row.get(key)
    ensures row.Plain? && key !in row.fields ==> v == Undefined
    ensures row.Plain? && key in row.fields ==> v == row.fields[key]
  {
    match row
    case MapLike(get) => get(key)
    case Plain(fields) => if key in fields then fields[key] else Undefined
  }

  /** `getCellValue`: the selection flag for the selection column, else the row's field. */
  function GetCellValue(p: RowProps, key: string): (v: JsValue)
    ensures key == SelectRowKey ==> v == Bool(IsSelected(p))
    ensures key != SelectRowKey && p.row.MapLike? ==> v == p.row.get(key)
    ensures key != SelectRowKey && p.row.Plain? && key !in p.row.fields ==> v == Undefined
    ensures key != SelectRowKey && p.row.Plain? && key in p.row.fields ==> v == p.row.fields[key]
  {
    if key == SelectRowKey then Bool(IsSelected(p)) else ReadField(p.row, key)
  }

  /** The key a cell's value is looked up by: `column.key || column.idx.toString()`. */
  function CellKey(c: Column): (k: string)
    ensures k != ""
    ensures c.key != "" ==> k == c.key
    ensures c.key == "" ==> k == NatToString(c.idx)
  {
    if c.key != "" then c.key else NatToString(c.idx)
  }

  predicate HasChildren(d: SubRowDetails) {
    d.children.Some? && |d.children.value| > 0
  }

  /** `getExpandableOptions`: nothing without metadata; otherwise the column can expand iff
      it is the metadata's designated field and the row has children or is a group. */
  function GetExpandableOptions(details: Option<SubRowDetails>, columnKey: string): (r: Option<ExpandableOptions>)
    ensures r.None? <==> details.None?
    ensures r.Some? ==>
              (r.value.canExpand <==>
                details.value.field == Some(columnKey) && (HasChildren(details.value) || details.value.group == Some(true)))
    ensures r.Some? ==>
              && r.value.field == details.value.field
              && r.value.expanded == details.value.expanded
              && r.value.children == details.value.children
              && r.value.treeDepth == details.value.treeDepth
              && r.value.subRowDetails == details.value
  {
    match details
    case None => None
    case Some(d) =>
      Some(ExpandableOptions(
        d.field == Some(columnKey) && (HasChildren(d) || d.group == Some(true)),
        d.field, d.expanded, d.children, d.treeDepth, d))
  }

  /** `getCell`: the props of the cell for column `c`. The value is looked up by the key
      with its index fallback; the expansion metadata by the column's own key. */
  function GetCell(p: RowProps, c: Column): (cell: CellProps)
    ensures cell.column == c && cell.idx == c.idx && cell.rowIdx == p.idx
    ensures cell.height == GetRowHeight(p)
    ensures c.key == SelectRowKey ==> cell.value == Bool(IsSelected(p))
    ensures c.key != "" && c.key != SelectRowKey ==> cell.value == ReadField(p.row, c.key)
    ensures c.key == "" ==> cell.value == ReadField(p.row, NatToString(c.idx))
    ensures cell.expandableOptions == GetExpandableOptions(p.subRowDetails, c.key)
    ensures cell.isRowSelected == IsSelected(p)
    ensures cell.rowData == p.row
    ensures cell.isScrolling == p.isScrolling && cell.scrollLeft == p.scrollLeft
    ensures cell.lastFrozenColumnIndex == p.lastFrozenColumnIndex
  {
    CellValueOfColumn(p, c);
    CellProps(
      c.idx, p.idx, GetRowHeight(p), c,
      GetCellValue(p, CellKey(c)),
      p.row, IsSelected(p),
      GetExpandableOptions(p.subRowDetails, c.key),
      p.isScrolling, p.scrollLeft, p.lastFrozenColumnIndex)
  }

  /** The cells of one row, in rendering order (`getCells`). */
  function RenderCells(p: RowProps): (cells: seq<CellProps>)
    ensures var cs := GetCells(p.columns, p.colOverscanStartIdx, p.colOverscanEndIdx);
            && |cells| == |cs|
            && forall i :: 0 <= i < |cells| ==>
                 && cells[i].column == cs[i]
                 && cells[i].idx == cs[i].idx
                 && cells[i].rowIdx == p.idx
                 && cells[i].height == GetRowHeight(p)
                 && cells[i].value == GetCellValue(p, CellKey(cs[i]))
                 && cells[i].expandableOptions == GetExpandableOptions(p.subRowDetails, cs[i].key)
                 && cells[i].isRowSelected == IsSelected(p)
                 && cells[i].rowData == p.row
                 && cells[i].isScrolling == p.isScrolling
                 && cells[i].scrollLeft == p.scrollLeft
                 && cells[i].lastFrozenColumnIndex == p.lastFrozenColumnIndex
  {
    var cs := GetCells(p.columns, p.colOverscanStartIdx, p.colOverscanEndIdx);
    seq(|cs|, i requires 0 <= i < |cs| => GetCell(p, cs[i]))
  }

  /** The selection column shows the selection flag whatever the row holds; a column
      without a key shows the field named by its decimal index, which can never be the
      selection key. */
  lemma CellValueOfColumn(p: RowProps, c: Column)
    ensures c.key == SelectRowKey ==> GetCellValue(p, CellKey(c)) == Bool(IsSelected(p))
    ensures c.key == "" ==> GetCellValue(p, CellKey(c)) == ReadField(p.row, NatToString(c.idx))
    ensures c.key != "" && c.key != SelectRowKey ==> GetCellValue(p, CellKey(c)) == ReadField(p.row, c.key)
  {
    if c.key == "" {
      var s := NatToString(c.idx);
      assert IsDigit(s[0]) && !IsDigit(SelectRowKey[0]);
    }
  }

  /** Two key-less columns read the same field only if they have the same index. */
  lemma FallbackKeysDistinct(c: Column, d: Column)
    requires c.key == "" && d.key == ""
    ensures CellKey(c) == CellKey(d) ==> c.idx == d.idx
  {
    NatToStringInjective(c.idx, d.idx);
  }

  /** At most one column of a row, the designated field, offers expand and collapse. */
  lemma OneExpandableColumn(details: Option<SubRowDetails>, k1: string, k2: string)
    requires GetExpandableOptions(details, k1).Some? && GetExpandableOptions(details, k1).value.canExpand
    requires GetExpandableOptions(details, k2).Some? && GetExpandableOptions(details, k2).value.canExpand
    ensures k1 == k2
  {
  }

  /** Row 3 with override {3: 80} gets 80; row 5 gets the default 35; row 0 gets the
      default even when the overrides name it. */
  lemma RowHeightExamples(p: RowProps)
    requires p.height.None?
    requires p.expandedRows == Some(map[0 := ExpandedRow(80), 3 := ExpandedRow(80)])
    ensures p.idx == 3 ==> GetRowHeight(p) == 80
    ensures p.idx == 5 ==> GetRowHeight(p) == 35
    ensures p.idx == 0 ==> GetRowHeight(p) == 35
  {
  }
}
