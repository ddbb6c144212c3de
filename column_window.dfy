/** The column windowing of `Row.getCells`: the non-frozen columns of the overscan window,
    followed by every frozen column of the grid. */
module ColumnWindow {

  /** A grid column as a row sees it. `frozen` stands for the external `isFrozen(column)`
      classification; `idx` is the column's position in the grid. */
  datatype Column = Column(key: string, idx: nat, frozen: bool)

  function Min(a: int, b: int): int { if a <= b then a else b }

  function Max(a: int, b: int): int { if a <= b then b else a }

  /** The position an argument `x` of `Array.prototype.slice` denotes in a list of length
      `len`: negative arguments count from the end, and both ends are clamped. */
  function SliceIndex(x: int, len: nat): (r: nat)
    ensures r <= len
    ensures 0 <= x <= len ==> r == x
    ensures x > len ==> r == len
    ensures x < 0 && len + x >= 0 ==> r == len + x
    ensures x < 0 && len + x < 0 ==> r == 0
  {
    if x < 0 then Max(len + x, 0) else Min(x, len)
  }

  /** `s.slice(from, to)`. */
  function JsSlice(s: seq<Column>, from: int, to: int): (r: seq<Column>)
    ensures |r| == Max(SliceIndex(to, |s|) - SliceIndex(from, |s|), 0)
    ensures forall j :: 0 <= j < |r| ==> r[j] == s[SliceIndex(from, |s|) + j]
  {
    var f, t := SliceIndex(from, |s|), SliceIndex(to, |s|);
    if f < t then s[f..t] else []
  }

  /** The inclusive overscan window `[start, end]`, taken as `columns.slice(start, end + 1)`. */
  function Window(columns: seq<Column>, start: int, end: int): (w: seq<Column>)
    ensures |w| <= |columns|
    ensures forall c :: c in w ==> c in columns
    ensures 0 <= start <= end < |columns| ==> |w| == end - start + 1
  {
    JsSlice(columns, start, end + 1)
  }

  function CountFrozen(s: seq<Column>): (n: nat)
    ensures n <= |s|
  {
    if s == [] then 0 else (if s[0].frozen then 1 else 0) + CountFrozen(s[1..])
  }

  /** `a` is `b` with some elements left out, the rest kept in order. */
  predicate IsSubsequence(a: seq<Column>, b: seq<Column>)
    decreases |b|
  {
    if a == [] then true
    else if b == [] then false
    else if a[0] == b[0] then IsSubsequence(a[1..], b[1..])
    else IsSubsequence(a, b[1..])
  }

  predicate Distinct(s: seq<Column>) {
    forall i, j :: 0 <= i < j < |s| ==> s[i] != s[j]
  }

  /** `s.filter(c => isFrozen(c))`. */
  function FrozenOf(s: seq<Column>): (r: seq<Column>)
    ensures forall i :: 0 <= i < |r| ==> r[i].frozen
    ensures forall c :: c in r <==> c in s && c.frozen
    ensures |r| == CountFrozen(s)
  {
    if s == [] then []
    else if s[0].frozen then [s[0]] + FrozenOf(s[1..])
    else FrozenOf(s[1..])
  }

  /** `s.filter(c => !isFrozen(c))`. */
  function NonFrozenOf(s: seq<Column>): (r: seq<Column>)
    ensures forall i :: 0 <= i < |r| ==> !r[i].frozen
    ensures forall c :: c in r <==> c in s && !c.frozen
    ensures |r| == |s| - CountFrozen(s)
  {
    if s == [] then []
    else if !s[0].frozen then [s[0]] + NonFrozenOf(s[1..])
    else NonFrozenOf(s[1..])
  }

  /** Both filters keep the columns they select in their original relative order. */
  lemma {:induction false} FiltersAreSubsequences(s: seq<Column>)
    ensures IsSubsequence(FrozenOf(s), s)
    ensures IsSubsequence(NonFrozenOf(s), s)
  {
    if s != [] {
      FiltersAreSubsequences(s[1..]);
    }
  }

  /** Both filters keep a list of distinct columns distinct. */
  lemma {:induction false} FiltersKeepDistinct(s: seq<Column>)
    requires Distinct(s)
    ensures Distinct(FrozenOf(s))
    ensures Distinct(NonFrozenOf(s))
  {
    if s != [] {
      assert Distinct(s[1..]) by {
        forall i, j | 0 <= i < j < |s| - 1
          ensures s[1..][i] != s[1..][j]
        {
          assert s[1..][i] == s[i + 1] && s[1..][j] == s[j + 1];
        }
      }
      FiltersKeepDistinct(s[1..]);
      assert s[0] !in s[1..] by {
        forall j | 0 <= j < |s| - 1
          ensures s[1..][j] != s[0]
        {
          assert s[1..][j] == s[j + 1];
        }
      }
      DistinctCons(s[0], FrozenOf(s[1..]));
      DistinctCons(s[0], NonFrozenOf(s[1..]));
    }
  }

  lemma DistinctCons(x: Column, t: seq<Column>)
    requires Distinct(t) && x !in t
    ensures Distinct([x] + t)
  {
  }

  /** On a list without frozen columns, the frozen filter is empty and the other keeps
      the list unchanged. */
  lemma {:induction false} NoneFrozenFilters(s: seq<Column>)
    requires forall i :: 0 <= i < |s| ==> !s[i].frozen
    ensures FrozenOf(s) == []
    ensures NonFrozenOf(s) == s
  {
    if s != [] {
      NoneFrozenFilters(s[1..]);
    }
  }

  /** The columns a row renders, in rendering order. */
  function GetCells(columns: seq<Column>, start: int, end: int): (r: seq<Column>)
    ensures |r| == |Window(columns, start, end)| - CountFrozen(Window(columns, start, end)) + CountFrozen(columns)
    ensures forall c :: c in r ==> c in columns
  {
    NonFrozenOf(Window(columns, start, end)) + FrozenOf(columns)
  }

  /** The output is the windowed non-frozen columns, in order, followed by every frozen
      column of the grid, in order: a block of k non-frozen columns, then only frozen ones. */
  lemma GetCellsLayout(columns: seq<Column>, start: int, end: int)
    ensures var r, w := GetCells(columns, start, end), Window(columns, start, end);
            var k := |w| - CountFrozen(w);
            && |r| == k + CountFrozen(columns)
            && (forall i :: 0 <= i < k ==> !r[i].frozen)
            && (forall i :: k <= i < |r| ==> r[i].frozen)
            && IsSubsequence(r[..k], w)
            && IsSubsequence(r[k..], columns)
  {
    var r, w := GetCells(columns, start, end), Window(columns, start, end);
    var k := |w| - CountFrozen(w);
    assert r[..k] == NonFrozenOf(w);
    assert r[k..] == FrozenOf(columns);
    FiltersAreSubsequences(w);
    FiltersAreSubsequences(columns);
  }

  /** Frozen columns always come after the scrollable ones, wherever they sit in the grid. */
  lemma FrozenRenderLast(columns: seq<Column>, start: int, end: int)
    ensures var r := GetCells(columns, start, end);
            forall i, j :: 0 <= i < j < |r| && r[i].frozen ==> r[j].frozen
  {
  }

  /** A column is rendered iff it is frozen, or it is not frozen and sits at a position
      inside the clamped window. */
  lemma GetCellsMembership(columns: seq<Column>, start: int, end: int, c: Column)
    ensures c in GetCells(columns, start, end) <==>
            (c.frozen && c in columns) ||
            (!c.frozen && exists i :: SliceIndex(start, |columns|) <= i < SliceIndex(end + 1, |columns|) && columns[i] == c)
  {
    var w := Window(columns, start, end);
    var f := SliceIndex(start, |columns|);
    if c in w {
      var j :| 0 <= j < |w| && w[j] == c;
      assert columns[f + j] == c;
    }
    if exists i :: f <= i < SliceIndex(end + 1, |columns|) && columns[i] == c {
      var i :| f <= i < SliceIndex(end + 1, |columns|) && columns[i] == c;
      assert w[i - f] == c;
    }
  }

  /** A frozen column inside the window is not rendered twice: distinct columns give
      distinct rendered cells. */
  lemma GetCellsDistinct(columns: seq<Column>, start: int, end: int)
    requires Distinct(columns)
    ensures Distinct(GetCells(columns, start, end))
  {
    var w := Window(columns, start, end);
    WindowDistinct(columns, start, end);
    FiltersKeepDistinct(w);
    FiltersKeepDistinct(columns);
    DistinctAppend(NonFrozenOf(w), FrozenOf(columns));
  }

  lemma WindowDistinct(columns: seq<Column>, start: int, end: int)
    requires Distinct(columns)
    ensures Distinct(Window(columns, start, end))
  {
  }

  /** Non-frozen columns followed by frozen ones never repeat across the seam. */
  lemma DistinctAppend(a: seq<Column>, b: seq<Column>)
    requires Distinct(a) && Distinct(b)
    requires forall i :: 0 <= i < |a| ==> !a[i].frozen
    requires forall i :: 0 <= i < |b| ==> b[i].frozen
    ensures Distinct(a + b)
  {
  }

  /** An empty window (start past the end of the grid, or start after end with end >= -1)
      renders exactly the frozen columns. */
  lemma EmptyWindowRendersFrozen(columns: seq<Column>, start: int, end: int)
    requires start >= |columns| || -1 <= end < start
    ensures GetCells(columns, start, end) == FrozenOf(columns)
  {
  }

  /** The window is the contiguous run `columns[start..min(end + 1, |columns|)]` for a
      natural start and an end of at least -1. */
  lemma NaturalWindow(columns: seq<Column>, start: nat, end: int)
    requires -1 <= end
    ensures Window(columns, start, end) ==
            if start <= end && start < |columns| then columns[start..Min(end + 1, |columns|)] else []
  {
  }

  /** With no frozen column, the row renders exactly the window. */
  lemma NoFrozenRendersWindow(columns: seq<Column>, start: int, end: int)
    requires forall i :: 0 <= i < |columns| ==> !columns[i].frozen
    ensures GetCells(columns, start, end) == Window(columns, start, end)
  {
    var w := Window(columns, start, end);
    assert forall i :: 0 <= i < |w| ==> w[i] == columns[SliceIndex(start, |columns|) + i];
    NoneFrozenFilters(columns);
    NoneFrozenFilters(w);
  }

  /** Columns [A, B, C, D, E, F] of which only C is frozen, with window 2..4, render as
      [D, E, C]. */
  lemma WindowExample(a: Column, b: Column, c: Column, d: Column, e: Column, f: Column)
    requires c.frozen && !a.frozen && !b.frozen && !d.frozen && !e.frozen && !f.frozen
    ensures GetCells([a, b, c, d, e, f], 2, 4) == [d, e, c]
  {
    var cols := [a, b, c, d, e, f];
    ExampleScrollable(cols);
    ExampleFrozen(cols);
  }

  lemma ExampleScrollable(cols: seq<Column>)
    requires |cols| == 6 && cols[2].frozen && !cols[3].frozen && !cols[4].frozen
    ensures NonFrozenOf(Window(cols, 2, 4)) == [cols[3], cols[4]]
  {
  }

  lemma ExampleFrozen(cols: seq<Column>)
    requires |cols| == 6 && cols[2].frozen
    requires !cols[0].frozen && !cols[1].frozen && !cols[3].frozen && !cols[4].frozen && !cols[5].frozen
    ensures FrozenOf(cols) == [cols[2]]
  {
    assert FrozenOf(cols[3..]) == [] by {
      assert cols[4..][1..] == cols[5..];
      assert cols[3..][1..] == cols[4..];
    }
    assert cols[2..][1..] == cols[3..];
    assert cols[1..][1..] == cols[2..];
    assert cols[1..] != [];
  }
}
