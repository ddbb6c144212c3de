# Row of a virtualized data grid, modelled in Dafny

This project models the logic of the `Row` component of react-data-grid
(`packages/react-data-grid/src/Row.tsx`). The row renders one record of the grid.
It draws the cells of the columns inside the horizontal overscan window.
It always draws the frozen (pinned) columns after them.
It also pushes horizontal scroll offsets straight to the frozen cells it has rendered.

Modules:

- `Wrappers`: `Option`, for props and fields that may be absent.
- `NumberFormat`: `column.idx.toString()` for a non-negative index, with its inverse `ParseDecimal`.
- `ColumnWindow`: `getCells`. The window is `columns.slice(start, end + 1)`, with JavaScript's
  `slice` clamping and negative indices written out. The window is filtered to the non-frozen
  columns, and every frozen column of the grid is appended. `Column.frozen` stands for the
  external `isFrozen` classification.
- `CellResolution`: the props, and what `getCell` hands to each cell. That covers
  `getRowHeight` (with the `defaultProps` height 35), `getCellValue` (with the `'select-row'`
  special case and the `get`-or-field lookup), the `key || column.idx.toString()` fallback and
  `getExpandableOptions`.
- `RowComponent`: the component's mutable state. The `Row` class holds the props and the `cells`
  map from column key to cell handle (or null). `AttachCell` is the ref callback that fills the
  map. `SetScrollLeft` walks the columns in a loop and sets the offset on each non-null handle
  registered under a frozen column's key. A cell handle is a `CellHandle` object with a
  `scrollLeft` field.

A column that is both frozen and inside the window is rendered once, in the frozen tail,
because the window is filtered with `!isFrozen` (Row.tsx:73). `ColumnWindow.GetCellsDistinct`
proves that distinct columns give distinct cells.

## Model

| member | source | states |
|---|---|---|
| `NumberFormat.NatToString` | packages/react-data-grid/src/Row.tsx:58 | `idx.toString()` is a non-empty string of decimal digits with no leading zero (except for 0) |
| `NumberFormat.ParseNatToString` | packages/react-data-grid/src/Row.tsx:58 | reading the decimal string back gives the index: the rendering loses nothing |
| `NumberFormat.NatToStringInjective` | packages/react-data-grid/src/Row.tsx:58 | distinct column indices render to distinct strings |
| `ColumnWindow.SliceIndex` | packages/react-data-grid/src/Row.tsx:73 | a `slice` argument denotes a position within the list: an in-range non-negative argument is itself, one past the end is clamped to the length, a negative one counts from the end and is clamped to 0 |
| `ColumnWindow.JsSlice` | packages/react-data-grid/src/Row.tsx:73 | `slice(from, to)` has length max(to' - from', 0) over the clamped positions, and its j-th element is the list's element at from' + j |
| `ColumnWindow.Window` | packages/react-data-grid/src/Row.tsx:73 | the overscan window `slice(start, end + 1)` holds only grid columns, is no longer than the grid, and for 0 <= start <= end < n has exactly end - start + 1 columns |
| `ColumnWindow.FrozenOf` | packages/react-data-grid/src/Row.tsx:72 | the frozen filter holds only frozen columns, holds exactly the frozen members of the list, and has as many elements as the list has frozen ones |
| `ColumnWindow.NonFrozenOf` | packages/react-data-grid/src/Row.tsx:73 | the non-frozen filter holds only non-frozen columns, exactly the non-frozen members, and has as many elements as the list has non-frozen ones |
| `ColumnWindow.FiltersAreSubsequences` | packages/react-data-grid/src/Row.tsx:72-73 | both filters keep the columns in their original relative order |
| `ColumnWindow.FiltersKeepDistinct` | packages/react-data-grid/src/Row.tsx:72-73 | both filters keep a duplicate-free list duplicate-free |
| `ColumnWindow.NoneFrozenFilters` | packages/react-data-grid/src/Row.tsx:72-73 | on a list with no frozen column, the frozen filter is empty and the other filter is the identity |
| `ColumnWindow.GetCells` | packages/react-data-grid/src/Row.tsx:70-76 | the rendered column list holds only grid columns and has as many as the window's non-frozen columns plus the grid's frozen columns |
| `ColumnWindow.GetCellsLayout` | packages/react-data-grid/src/Row.tsx:70-76 | the output is k non-frozen columns (k = non-frozen count of the window), in window order, then all frozen columns of the grid in grid order; its length is k plus the frozen count |
| `ColumnWindow.FrozenRenderLast` | packages/react-data-grid/src/Row.tsx:72-74 | once a frozen column appears in the output, every later one is frozen, wherever the frozen columns sit in the grid |
| `ColumnWindow.GetCellsMembership` | packages/react-data-grid/src/Row.tsx:72-74 | a column is rendered iff it is a frozen column of the grid, or a non-frozen column at a position inside the clamped window |
| `ColumnWindow.GetCellsDistinct` | packages/react-data-grid/src/Row.tsx:72-74 | for distinct columns the output has no duplicates: a frozen column inside the window is rendered once |
| `ColumnWindow.WindowDistinct` | packages/react-data-grid/src/Row.tsx:73 | a window of distinct columns is duplicate-free |
| `ColumnWindow.DistinctAppend` | packages/react-data-grid/src/Row.tsx:74 | concatenating the non-frozen part and the frozen part cannot create a duplicate |
| `ColumnWindow.EmptyWindowRendersFrozen` | packages/react-data-grid/src/Row.tsx:73-74 | when start is past the last column, or start > end >= -1, exactly the frozen columns are rendered |
| `ColumnWindow.NaturalWindow` | packages/react-data-grid/src/Row.tsx:73 | for a natural start and end >= -1 the window is `columns[start..min(end + 1, n)]`, or empty when start > end or start >= n |
| `ColumnWindow.NoFrozenRendersWindow` | packages/react-data-grid/src/Row.tsx:72-74 | with no frozen column, the row renders exactly the window |
| `ColumnWindow.WindowExample` | packages/react-data-grid/src/Row.tsx:70-76 | columns [A, B, C, D, E, F] with only C frozen and window 2..4 render as [D, E, C] |
| `CellResolution.Height` | packages/react-data-grid/src/Row.tsx:12-16 | the row's height prop, or 35 when the caller passed none |
| `CellResolution.IsSelected` | packages/react-data-grid/src/Row.tsx:12-16 | the selection flag is set iff the caller passed `isSelected` true (default false) |
| `CellResolution.GetRowHeight` | packages/react-data-grid/src/Row.tsx:83-92 | the override `expandedRows[idx].height` when overrides exist, idx is non-zero and has an entry; otherwise the row's height (default 35); row 0 always gets the row's height |
| `CellResolution.RowHeightExamples` | packages/react-data-grid/src/Row.tsx:83-92 | with overrides {0: 80, 3: 80} and no height prop, row 3 gets 80 while rows 5 and 0 get 35 |
| `CellResolution.ReadField` | packages/react-data-grid/src/Row.tsx:99-103 | a map-like row answers through its `get`; a plain row gives its field, or undefined when the field is absent |
| `CellResolution.GetCellValue` | packages/react-data-grid/src/Row.tsx:94-105 | key `'select-row'` yields the selection flag whatever the row holds; otherwise `row.get(key)` for a map-like row, `row[key]` for a plain one, undefined when the field is absent |
| `CellResolution.CellKey` | packages/react-data-grid/src/Row.tsx:58 | the lookup key is never empty: the column's key when non-empty, else its index in decimal |
| `CellResolution.CellValueOfColumn` | packages/react-data-grid/src/Row.tsx:58 | the value looked up with the fallback key is the selection flag for the selection column; a key-less column reads the field named by its decimal index, which is never the selection key; any other key reads its own field |
| `CellResolution.FallbackKeysDistinct` | packages/react-data-grid/src/Row.tsx:58 | two key-less columns read the same field only if they have the same index |
| `CellResolution.GetExpandableOptions` | packages/react-data-grid/src/Row.tsx:107-119 | nothing iff no `subRowDetails`; otherwise `canExpand` iff field == column key and (non-empty children or group flag set), and every other field passes through unchanged |
| `CellResolution.OneExpandableColumn` | packages/react-data-grid/src/Row.tsx:113 | at most one column key of a row can expand |
| `CellResolution.GetCell` | packages/react-data-grid/src/Row.tsx:43-68 | the cell for a column carries the column and its index, the row index and height; its value is the selection flag for the selection column, the field named by the column's key, or for a key-less column the field named by its decimal index; its expansion options are looked up with the raw key; selection flag, row data, scrolling flag, scroll offset and last frozen index pass through |
| `CellResolution.RenderCells` | packages/react-data-grid/src/Row.tsx:43-76 | one cell per column of `getCells`, in the same order, each carrying its column, the column index, the row index, the row height, the value looked up with the fallback key, the expansion options looked up with the raw key, the selection flag and the passed-through props |
| `RowComponent.ScrollTargets` | packages/react-data-grid/src/Row.tsx:123-126 | the handles scroll forwarding reaches: never null, every non-null handle registered under a frozen column's key, and nothing not registered under a frozen column's key |
| `RowComponent.AttachCellTargets` | packages/react-data-grid/src/Row.tsx:50-52 | a ref-callback write under key k adds at most its handle to the scroll targets; a key no frozen column uses changes nothing; a non-null handle under a frozen column's key becomes a target |
| `RowComponent.CellHandle.SetScrollLeft` | packages/react-data-grid/src/Row.tsx:127 | the cell's offset becomes the given value, nothing else changes |
| `RowComponent.Row.constructor` | packages/react-data-grid/src/Row.tsx:19 | a new row has the given props and an empty handle registry |
| `RowComponent.Row.AttachCell` | packages/react-data-grid/src/Row.tsx:50-52 | the ref callback stores the handle (or null) under the column's key and changes nothing else |
| `RowComponent.Row.SetScrollLeft` | packages/react-data-grid/src/Row.tsx:122-130 | every non-null handle registered under a frozen column's key gets offset x; the row and every other object are unchanged; no key of the registry is required to exist; a call that finds every target at x changes nothing, so applying it twice equals applying it once |

## Left out

- `render`, the class-name composition and the even/odd, selected and scrolling classes: UI output, not logic.
- `handleDragEnter`, `handleDragOver`, `handleDrop`: DOM event plumbing.
- `getRowTop`: it reads the DOM `offsetTop` through a React ref.
- `shouldComponentUpdate`: it delegates to `rowComparer`, which is not part of this model.
- The `Cell` renderer and `isFrozen`: external collaborators. `isFrozen` is the `frozen` field of `Column`. A cell handle is an object whose `setScrollLeft` sets its `scrollLeft` field.
- `cellMetaData` and `cellRenderer`: callbacks and a component type passed through untouched.
- When React calls the ref callbacks: the model has `AttachCell` as the operation, not its timing.
- Cell values are undefined, null, booleans, integers and strings: object, array and `Date` values of a row field are not modelled, since the row only passes them through.
- JavaScript numbers are modelled as integers. Column indices are naturals, so `toString` never sees a fraction or a negative number.
- A plain row's `row[key]` ignores the prototype chain: a missing key is `undefined`.
- Holes in the `columns` array (the `column &&` guard in `setScrollLeft`) are not modelled. Every column is present.
- `RowComponent.Row.SetScrollLeft`: the `cells` registry is the object literal `{}`, so a lookup for a key such as `"toString"`, `"constructor"` or `"valueOf"` with no registered cell finds an inherited function; the source then calls `setScrollLeft` on it and throws a TypeError, and a `"__proto__"` write does not create an entry. The model's registry is a plain map without a prototype chain, so it skips such a column instead.
- `RowComponent.Row.SetScrollLeft` does not count how many times each setter is called: a frozen column listed twice sets the same offset twice, which the model does not distinguish.
