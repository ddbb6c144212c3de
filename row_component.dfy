/** The row component's state: its props and the `cells` registry of rendered cell
    handles, filled by the ref callbacks and used to push scroll offsets to frozen cells. */
module RowComponent {
  import opened ColumnWindow
  import opened CellResolution

  /** A rendered cell, as far as the row uses it: something whose horizontal scroll
      offset can be set. */
  class CellHandle {
    var scrollLeft: int

    constructor (scrollLeft: int)
      ensures this.scrollLeft == scrollLeft
    {
      this.scrollLeft := scrollLeft;
    }

    method SetScrollLeft(x: int)
      modifies this
      ensures scrollLeft == x
    {
      scrollLeft := x;
    }
  }

  /** The handles `setScrollLeft` reaches: those registered, non-null, under the key of a
      frozen column. */
  function ScrollTargets(columns: seq<Column>, cells: map<string, CellHandle?>): (t: set<CellHandle?>)
    ensures null !in t
    ensures forall c :: c in columns && c.frozen && c.key in cells && cells[c.key] != null ==> cells[c.key] in t
    ensures forall h | h in t :: exists c :: c in columns && c.frozen && c.key in cells && cells[c.key] == h
  {
    (set c | c in columns && c.frozen && c.key in cells :: cells[c.key]) - {null}
  }

  /** A ref callback for key `k` changes which handles scroll forwarding reaches only
      through `k`: a key no frozen column uses changes nothing, and a non-null handle
      registered under a frozen column's key is reached. */
  lemma AttachCellTargets(columns: seq<Column>, cells: map<string, CellHandle?>, k: string, h: CellHandle?)
    ensures ScrollTargets(columns, cells[k := h]) <= ScrollTargets(columns, cells) + {h}
    ensures (forall c :: c in columns && c.frozen ==> c.key != k) ==>
              ScrollTargets(columns, cells[k := h]) == ScrollTargets(columns, cells)
    ensures h != null && (exists c :: c in columns && c.frozen && c.key == k) ==>
              h in ScrollTargets(columns, cells[k := h])
  {
  }

  class Row {
    var props: RowProps
    /** Key to handle; a key maps to null once its cell has unmounted. */
    var cells: map<string, CellHandle?>

    constructor (props: RowProps)
      ensures this.props == props && cells == map[]
    {
      this.props := props;
      cells := map[];
    }

    /** The ref callback of the cell for the column keyed `key`. */
    method AttachCell(key: string, cell: CellHandle?)
      modifies this`cells
      ensures cells == old(cells)[key := cell]
    {
      cells := cells[key := cell];
    }

    /** `setScrollLeft`: every frozen column whose registered handle is non-null gets offset
        `x`; nothing else changes, and a call that finds every target already at `x`
        changes nothing at all. */
    method SetScrollLeft(x: int)
      modifies ScrollTargets(props.columns, cells)
      ensures unchanged(this)
      ensures forall h: CellHandle :: h in ScrollTargets(props.columns, cells) ==> h.scrollLeft == x
      ensures (forall h: CellHandle :: h in ScrollTargets(props.columns, cells) ==> old(h.scrollLeft) == x) ==>
                forall h: CellHandle :: h in ScrollTargets(props.columns, cells) ==> h.scrollLeft == old(h.scrollLeft)
    {
      var columns := props.columns;
      var i := 0;
      while i < |columns|
        invariant 0 <= i <= |columns|
        invariant forall h: CellHandle :: h in ScrollTargets(columns[..i], cells) ==> h.scrollLeft == x
      {
        var column := columns[i];
        if column.frozen && column.key in cells {
          var cell := cells[column.key];
          if cell != null {
            cell.SetScrollLeft(x);
          }
        }
        assert columns[..i + 1] == columns[..i] + [column];
        i := i + 1;
      }
      assert columns[..i] == columns;
    }
  }
}
