/*
 * What TwoWayGridView's vertical builder places: the grid lays its items
 * out in rows of numColumns cells, filling rows downwards from a position
 * and top edge or upwards from a position and bottom edge, and then
 * corrects the rows so that the grid neither shows a gap at an end it has
 * reached nor drifts away from its padding.
 *
 * The grid state the rows depend on is gathered in a Grid value, and each
 * loop of the builder has a function here saying what it places; the
 * loops themselves are the GridView methods proved against them. A placed
 * child shows the adapter position that is its view's id.
 */
module GridFill {
  import opened JavaLang
  import opened Recycling
  import opened GridGeometry
  import opened AbsList

  /**
   * The size the adapter's view for a position measures at, and the view
   * type the adapter gives it (the adapter and measuring are not
   * modelled, only their results).
   */
  datatype Measured = Measured(width: int, height: int, viewType: int)

  /** The view for `pos` as measured, given per position; past the ones given, an empty view of type 0. */
  function Measure(items: seq<Measured>, pos: int): (m: Measured)
    ensures 0 <= pos < |items| ==> m == items[pos]
    ensures !(0 <= pos < |items|) ==> m == Measured(0, 0, 0)
  {
    if 0 <= pos < |items| then items[pos] else Measured(0, 0, 0)
  }

  /** What the vertical builder reads while it places rows. */
  datatype Grid = Grid(
    numColumns: int, columnWidth: int, hSpacing: int, vSpacing: int,
    gravity: int, uniformSpacing: bool, stackFromBottom: bool, itemCount: int,
    left: int, top: int, end: int,
    selected: int, showsSelection: bool, items: seq<Measured>)

  /**
   * The outcome of a run of rows: the children made, in the order they end
   * up in, the position the loop stopped at, the edge the next row would
   * have started from, and how many rows were made.
   */
  datatype Fill = Fill(rows: seq<Child>, next: int, edge: int, rowCount: nat)

  /** The later of two outcomes, when there is one. */
  function Later<T>(later: Option<T>, earlier: Option<T>): Option<T> {
    if later.Some? then later else earlier
  }

  /** The last child of a run, if there is one. */
  function LastOf(cs: seq<Child>): Option<Child> {
    if |cs| == 0 then None else Some(cs[|cs| - 1])
  }

  /** A run ending in a non-empty one ends where that one ends. */
  lemma LastOfAppend(a: seq<Child>, b: seq<Child>)
    requires |b| > 0
    ensures LastOf(a + b) == LastOf(b)
  {
    assert (a + b)[|a + b| - 1] == b[|b| - 1];
  }

  /** The children show consecutive adapter positions, the first one `first`. */
  predicate Shows(cs: seq<Child>, first: int) {
    forall i {:trigger IdAt(cs, i)} :: 0 <= i < |cs| ==> IdAt(cs, i) == first + i
  }

  /** The position the child at index `i` shows. */
  function IdAt(cs: seq<Child>, i: int): int
    requires 0 <= i < |cs|
  {
    cs[i].view.id
  }

  // ---------------------------------------------------------------------
  // makeRow and setupChild

  /**
   * setupChild for position `pos`: the view keeps its measured size; its
   * top is at `y` when flowing down, its bottom at `y` otherwise; it sits
   * in its cell, starting at `cellLeft`, as the horizontal gravity says.
   */
  function Cell(g: Grid, pos: int, y: int, flow: bool, cellLeft: int): (c: Child)
    ensures c.view == View(pos, Some(Measure(g.items, pos).viewType))
    ensures c.bottom - c.top == Measure(g.items, pos).height && c.right - c.left == Measure(g.items, pos).width
    ensures flow ==> c.top == y
    ensures !flow ==> c.bottom == y
    ensures c.left == ChildLeft(g.gravity, cellLeft, g.columnWidth, Measure(g.items, pos).width)
  {
    var w := Measure(g.items, pos).width;
    var h := Measure(g.items, pos).height;
    var top := if flow then y else y - h;
    var left := ChildLeft(g.gravity, cellLeft, g.columnWidth, w);
    Child(View(pos, Some(Measure(g.items, pos).viewType)), left, top, left + w, top + h)
  }

  /** The left edge of the first cell: the padding, plus one spacing when spacing is stretched uniformly. */
  function RowLeft(g: Grid): int {
    g.left + (if g.uniformSpacing then g.hSpacing else 0)
  }

  /**
   * The cells makeRow places for `startPos`: from the top, the row that
   * starts there, cut short by the end of the data; stacked from the
   * bottom, the row that ends there, cut short by position 0 and then
   * pushed right so that it ends where a full row ends. The result is
   * the first position, the position after the last, and the left edge
   * of the first cell.
   */
  function RowSpan(g: Grid, startPos: int): (r: (int, int, int))
    requires g.numColumns >= 1
    ensures !g.stackFromBottom ==> r.0 == startPos && r.1 == Min(startPos + g.numColumns, g.itemCount)
    ensures g.stackFromBottom ==> r.1 == startPos + 1 && r.0 == Max(0, startPos - g.numColumns + 1)
    ensures 0 <= startPos < g.itemCount ==> r.0 <= startPos < r.1 && r.1 - r.0 <= g.numColumns
    ensures !g.stackFromBottom ==> r.2 == RowLeft(g)
  {
    var n := g.numColumns;
    if !g.stackFromBottom then (startPos, Min(startPos + n, g.itemCount), RowLeft(g))
    else
      var last := startPos + 1;
      var start := Max(0, startPos - n + 1);
      var shift := if last - start < n then (n - (last - start)) * (g.columnWidth + g.hSpacing) else 0;
      (start, last, RowLeft(g) + shift)
  }

  /** Stacked from the bottom, a row cut short by position 0 still ends where a full row would end. */
  lemma StackedRowEndsAligned(g: Grid, startPos: int)
    requires g.numColumns >= 1 && g.stackFromBottom && startPos >= 0
    ensures var r := RowSpan(g, startPos);
      r.2 + (r.1 - r.0) * (g.columnWidth + g.hSpacing) == RowLeft(g) + g.numColumns * (g.columnWidth + g.hSpacing)
  {
    var r := RowSpan(g, startPos);
    var n, step := g.numColumns, g.columnWidth + g.hSpacing;
    if r.1 - r.0 < n {
      assert (n - (r.1 - r.0)) * step + (r.1 - r.0) * step == n * step;
    }
  }

  /** The cells of positions `start` up to `last` (exclusive), the first one at `left`, each next one a column and a spacing further. */
  function Row(g: Grid, start: int, last: int, y: int, flow: bool, left: int): (r: seq<Child>)
    ensures |r| == Max(0, last - start)
  {
    seq(Max(0, last - start), k => Cell(g, start + k, y, flow, left + k * (g.columnWidth + g.hSpacing)))
  }

  /** The row makeRow places for an item shows consecutive positions, all of them items, up to the one it is called for or the end of its row. */
  lemma MadeRowShows(g: Grid, pos: int, y: int, flow: bool)
    requires g.numColumns >= 1 && 0 <= pos < g.itemCount
    ensures var row := MadeRow(g, pos, y, flow);
      && |row| == RowSpan(g, pos).1 - RowSpan(g, pos).0 > 0
      && ShowsItems(g, row, RowSpan(g, pos).0)
  {
    var (start, last, left) := RowSpan(g, pos);
    var row := MadeRow(g, pos, y, flow);
    forall i | 0 <= i < |row|
      ensures IdAt(row, i) == start + i
    {
    }
  }

  /** Where the row makeRow places flowing down from `nextTop` ends: the bottom of its last cell. */
  function RowBottom(g: Grid, pos: int, nextTop: int): int
    requires g.numColumns >= 1
  {
    nextTop + Measure(g.items, RowSpan(g, pos).1 - 1).height
  }

  /** Where the row makeRow places flowing up from `nextBottom` starts: the top of its last cell. */
  function RowTop(g: Grid, pos: int, nextBottom: int): int
    requires g.numColumns >= 1
  {
    nextBottom - Measure(g.items, RowSpan(g, pos).1 - 1).height
  }

  /** The last cell of a made row is where the next row is measured from. */
  lemma MadeRowEnds(g: Grid, pos: int, y: int, flow: bool)
    requires g.numColumns >= 1 && 0 <= pos < g.itemCount
    ensures var r := LastOf(MadeRow(g, pos, y, flow));
      && r.Some?
      && (flow ==> r.value.bottom == RowBottom(g, pos, y))
      && (!flow ==> r.value.top == RowTop(g, pos, y))
  {
    MadeRowShows(g, pos, y, flow);
  }

  /** The child makeRow returns: the last one showing the selected position, when the selection is shown. */
  function SelectedIn(g: Grid, cs: seq<Child>): Option<Child> {
    if |cs| == 0 then None
    else if g.showsSelection && cs[|cs| - 1].view.id == g.selected then Some(cs[|cs| - 1])
    else SelectedIn(g, cs[..|cs| - 1])
  }

  /** The row makeRow(startPos, y, flow) places. */
  function MadeRow(g: Grid, startPos: int, y: int, flow: bool): seq<Child>
    requires g.numColumns >= 1
  {
    var (start, last, left) := RowSpan(g, startPos);
    Row(g, start, last, y, flow, left)
  }

  /** A row grows by one cell at its end, a column and a spacing further than the one before. */
  lemma RowSnoc(g: Grid, start: int, pos: int, y: int, flow: bool, left: int)
    requires start <= pos
    ensures Row(g, start, pos + 1, y, flow, left)
      == Row(g, start, pos, y, flow, left) + [Cell(g, pos, y, flow, left + (pos - start) * (g.columnWidth + g.hSpacing))]
  {
    var a := Row(g, start, pos + 1, y, flow, left);
    var b := Row(g, start, pos, y, flow, left) + [Cell(g, pos, y, flow, left + (pos - start) * (g.columnWidth + g.hSpacing))];
    assert |a| == |b|;
    forall k | 0 <= k < |a|
      ensures a[k] == b[k]
    {
    }
  }

  /** The child makeRow returns for a row one cell longer. */
  lemma SelectedInSnoc(g: Grid, cs: seq<Child>, c: Child)
    ensures SelectedIn(g, cs + [c])
      == if g.showsSelection && c.view.id == g.selected then Some(c) else SelectedIn(g, cs)
  {
    assert (cs + [c])[..|cs|] == cs;
  }

  /**
   * What the fills return: a child showing the selected position when the
   * selection is shown and some child shows that position, none otherwise.
   */
  predicate Selects(g: Grid, cs: seq<Child>, sel: Option<Child>) {
    && (sel.Some? <==> g.showsSelection && exists i :: 0 <= i < |cs| && cs[i].view.id == g.selected)
    && (sel.Some? ==> sel.value in cs && sel.value.view.id == g.selected)
  }

  /** Two runs of children with their selected children: either way round, the later one found wins. */
  lemma SelectsJoin(g: Grid, a: seq<Child>, b: seq<Child>, sa: Option<Child>, sb: Option<Child>)
    requires Selects(g, a, sa) && Selects(g, b, sb)
    ensures Selects(g, a + b, Later(sa, sb)) && Selects(g, b + a, Later(sa, sb))
  {
    if sa.Some? {
      var i :| 0 <= i < |a| && a[i].view.id == g.selected;
      assert (a + b)[i] == a[i] && (b + a)[|b| + i] == a[i];
    } else if sb.Some? {
      var i :| 0 <= i < |b| && b[i].view.id == g.selected;
      assert (a + b)[|a| + i] == b[i] && (b + a)[i] == b[i];
    } else if g.showsSelection {
      forall i | 0 <= i < |a + b|
        ensures (a + b)[i].view.id != g.selected && (b + a)[i].view.id != g.selected
      {
        if i < |a| { assert (a + b)[i] == a[i]; } else { assert (a + b)[i] == b[i - |a|]; }
        if i < |b| { assert (b + a)[i] == b[i]; } else { assert (b + a)[i] == a[i - |b|]; }
      }
    }
  }

  /** makeRow's choice keeps the promise: the last child showing the selection, there exactly when one is shown. */
  lemma {:induction false} SelectedInSelects(g: Grid, cs: seq<Child>)
    ensures Selects(g, cs, SelectedIn(g, cs))
    decreases |cs|
  {
    if |cs| > 0 {
      var init, c := cs[..|cs| - 1], cs[|cs| - 1];
      SelectedInSelects(g, init);
      assert cs == init + [c];
      var sc := if g.showsSelection && c.view.id == g.selected then Some(c) else None;
      assert [c][0] == c;
      SelectsJoin(g, [c], init, sc, SelectedIn(g, init));
    }
  }

  /** makeRow's choice over two runs, one after the other: the later run's choice wins. */
  lemma {:induction false} SelectedInAppend(g: Grid, a: seq<Child>, b: seq<Child>)
    ensures SelectedIn(g, a + b) == Later(SelectedIn(g, b), SelectedIn(g, a))
    decreases |b|
  {
    if |b| == 0 {
      assert a + b == a;
    } else {
      var init, c := b[..|b| - 1], b[|b| - 1];
      SelectedInAppend(g, a, init);
      assert b == init + [c] && a + b == (a + init) + [c];
      SelectedInSnoc(g, a + init, c);
      SelectedInSnoc(g, init, c);
    }
  }

  // ---------------------------------------------------------------------
  // fillDown and fillUp

  /** Where `k` steps of `d` from `p` lead. */
  function Steps(p: int, d: int, k: nat): int
    decreases k
  {
    if k == 0 then p else Steps(p + d, d, k - 1)
  }

  /** `k` steps of `d` from `p` lead to `p + k * d`. */
  lemma {:induction false} StepsClosedForm(p: int, d: int, k: nat)
    ensures Steps(p, d, k) == p + k * d
    decreases k
  {
    if k > 0 {
      StepsClosedForm(p + d, d, k - 1);
      assert (k - 1) * d + d == k * d;
    }
  }

  /** The children show consecutive positions from `first`, and all of them are items. */
  predicate ShowsItems(g: Grid, cs: seq<Child>, first: int) {
    Shows(cs, first) && (|cs| > 0 ==> cs[|cs| - 1].view.id < g.itemCount)
  }

  /**
   * What fillDown(pos, nextTop) promises: it visits row starts
   * `numColumns` apart from `pos`, one per row made, and stops at the
   * first that is past the data or whose row would start at or below the
   * end of the list; the children show consecutive positions, all of
   * them items, from the first one of the row at `pos`.
   */
  predicate DownPromise(g: Grid, pos: int, nextTop: int, f: Fill)
    requires g.numColumns >= 1
  {
    && f.next == Steps(pos, g.numColumns, f.rowCount)
    && (|f.rows| == 0 <==> f.rowCount == 0)
    && (f.next >= g.itemCount || f.edge >= g.end)
    && ShowsItems(g, f.rows, RowSpan(g, pos).0)
  }

  /**
   * fillDown(pos, nextTop): rows for pos, pos + numColumns, ... each
   * starting a vertical spacing below the last child of the row before,
   * while the next row would start above the end of the list and its
   * position is an item.
   */
  function FilledDown(g: Grid, pos: int, nextTop: int): Fill
    requires g.numColumns >= 1 && pos >= 0
    decreases g.itemCount - pos
  {
    if nextTop >= g.end || pos >= g.itemCount then Fill([], pos, nextTop, 0)
    else
      var rest := FilledDown(g, pos + g.numColumns, RowBottom(g, pos, nextTop) + g.vSpacing);
      Fill(MadeRow(g, pos, nextTop, true) + rest.rows, rest.next, rest.edge, rest.rowCount + 1)
  }

  /**
   * Between two passes of fillDown's loop at `pos` and `nextTop`: the
   * children `cs` followed by the rows still to come are the children
   * `cs0` the loop started from followed by all its rows, `rows0`; once
   * the rows still to come are made, the reference view `ref` and the
   * selected child `sel` become `last0` and `sel0`.
   */
  predicate FillingDown(g: Grid, pos: int, nextTop: int, cs: seq<Child>, ref: Option<Child>, sel: Option<Child>,
                        cs0: seq<Child>, rows0: seq<Child>, last0: Option<Child>, sel0: Option<Child>)
    requires g.numColumns >= 1 && pos >= 0
  {
    var f := FilledDown(g, pos, nextTop);
    && cs + f.rows == cs0 + rows0
    && Later(LastOf(f.rows), ref) == last0
    && Later(SelectedIn(g, f.rows), sel) == sel0
  }

  /**
   * A pass of fillDown's loop, which makes the row at `pos` and moves on
   * to `pos'` and `nextTop'`, takes the children, reference view and
   * selected child from `cs`, `ref`, `sel` to `cs'`, `ref'`, `sel'` and
   * keeps FillingDown.
   */
  lemma FillingDownStep(g: Grid, pos: int, nextTop: int, cs: seq<Child>, sel: Option<Child>,
                        pos': int, nextTop': int, cs': seq<Child>, ref': Option<Child>, sel': Option<Child>,
                        ref: Option<Child>, cs0: seq<Child>, rows0: seq<Child>, last0: Option<Child>, sel0: Option<Child>)
    requires g.numColumns >= 1 && 0 <= pos < g.itemCount && nextTop < g.end
    requires FillingDown(g, pos, nextTop, cs, ref, sel, cs0, rows0, last0, sel0)
    requires pos' == pos + g.numColumns && nextTop' == RowBottom(g, pos, nextTop) + g.vSpacing
    requires var row := MadeRow(g, pos, nextTop, true);
      cs' == cs + row && ref' == LastOf(row) && sel' == Later(SelectedIn(g, row), sel)
    ensures FillingDown(g, pos', nextTop', cs', ref', sel', cs0, rows0, last0, sel0)
  {
    var row := MadeRow(g, pos, nextTop, true);
    var rest := FilledDown(g, pos', nextTop');
    assert FilledDown(g, pos, nextTop).rows == row + rest.rows;
    MadeRowEnds(g, pos, nextTop, true);
    RowThenRest(g, cs, ref, sel, cs', ref', sel', row, rest.rows, cs0, rows0, last0, sel0);
  }

  /**
   * The children, reference view and selected child that a row `row`
   * takes on from `cs`, `ref` and `sel` reach `cs0 + rows0`, `last0` and
   * `sel0` through the rows `rest` after the row when they reached them
   * through the row and those rows.
   */
  lemma RowThenRest(g: Grid, cs: seq<Child>, ref: Option<Child>, sel: Option<Child>,
                    cs': seq<Child>, ref': Option<Child>, sel': Option<Child>, row: seq<Child>, rest: seq<Child>,
                    cs0: seq<Child>, rows0: seq<Child>, last0: Option<Child>, sel0: Option<Child>)
    requires |row| > 0
    requires cs + (row + rest) == cs0 + rows0
    requires Later(LastOf(row + rest), ref) == last0 && Later(SelectedIn(g, row + rest), sel) == sel0
    requires cs' == cs + row && ref' == LastOf(row) && sel' == Later(SelectedIn(g, row), sel)
    ensures cs' + rest == cs0 + rows0
    ensures Later(LastOf(rest), ref') == last0 && Later(SelectedIn(g, rest), sel') == sel0
  {
    assert cs + row + rest == cs + (row + rest);
    SelectedInAppend(g, row, rest);
    if |rest| > 0 {
      LastOfAppend(row, rest);
    } else {
      assert row + rest == row;
    }
  }

  /** When fillDown's loop stops, the children, reference view and selected child are the final ones. */
  lemma FillingDownDone(g: Grid, pos: int, nextTop: int, cs: seq<Child>, ref: Option<Child>, sel: Option<Child>,
                        cs0: seq<Child>, rows0: seq<Child>, last0: Option<Child>, sel0: Option<Child>)
    requires g.numColumns >= 1 && pos >= 0 && (nextTop >= g.end || pos >= g.itemCount)
    requires FillingDown(g, pos, nextTop, cs, ref, sel, cs0, rows0, last0, sel0)
    ensures cs == cs0 + rows0 && ref == last0 && sel == sel0
  {
    assert FilledDown(g, pos, nextTop).rows == [];
    assert cs + [] == cs;
  }

  /** fillDown keeps its promise, row by row. */
  lemma {:induction false} FilledDownKeepsPromise(g: Grid, pos: int, nextTop: int)
    requires g.numColumns >= 1 && pos >= 0
    ensures DownPromise(g, pos, nextTop, FilledDown(g, pos, nextTop))
    decreases g.itemCount - pos
  {
    if !(nextTop >= g.end || pos >= g.itemCount) {
      FilledDownKeepsPromise(g, pos + g.numColumns, RowBottom(g, pos, nextTop) + g.vSpacing);
      DownStepAt(g, pos, nextTop);
    }
  }

  /** The rows fillDown places from a row whose successors keep the promise keep it. */
  lemma DownStepAt(g: Grid, pos: int, nextTop: int)
    requires g.numColumns >= 1 && 0 <= pos < g.itemCount && nextTop < g.end
    requires DownPromise(g, pos + g.numColumns, RowBottom(g, pos, nextTop) + g.vSpacing,
      FilledDown(g, pos + g.numColumns, RowBottom(g, pos, nextTop) + g.vSpacing))
    ensures DownPromise(g, pos, nextTop, FilledDown(g, pos, nextTop))
  {
    var row := MadeRow(g, pos, nextTop, true);
    MadeRowShows(g, pos, nextTop, true);
    var rest := FilledDown(g, pos + g.numColumns, RowBottom(g, pos, nextTop) + g.vSpacing);
    var f := Fill(row + rest.rows, rest.next, rest.edge, rest.rowCount + 1);
    assert FilledDown(g, pos, nextTop) == f;
    DownStep(g, pos, nextTop, row, rest, f);
  }

  /** A row in front of a run of rows that keeps fillDown's promise keeps it. */
  lemma DownStep(g: Grid, pos: int, nextTop: int, row: seq<Child>, rest: Fill, f: Fill)
    requires g.numColumns >= 1 && 0 <= pos < g.itemCount
    requires |row| == RowSpan(g, pos).1 - RowSpan(g, pos).0 > 0 && ShowsItems(g, row, RowSpan(g, pos).0)
    requires DownPromise(g, pos + g.numColumns, RowBottom(g, pos, nextTop) + g.vSpacing, rest)
    requires f == Fill(row + rest.rows, rest.next, rest.edge, rest.rowCount + 1)
    ensures DownPromise(g, pos, nextTop, f)
  {
    var n := g.numColumns;
    if |rest.rows| > 0 {
      assert IdAt(rest.rows, 0) == RowSpan(g, pos + n).0;
      assert IdAt(rest.rows, |rest.rows| - 1) == RowSpan(g, pos + n).0 + |rest.rows| - 1;
      assert RowSpan(g, pos + n).0 == RowSpan(g, pos).0 + |row|;
    }
    ShowsAppend(row, rest.rows, RowSpan(g, pos).0);
  }

  /**
   * What fillUp(pos, nextBottom) promises: it visits row starts
   * `numColumns` apart going back from `pos`, one per row made, and stops
   * at the first that is negative or whose row would end at or above the
   * top of the list; the children show consecutive positions, all of
   * them items, from the first one of the row after the position the
   * loop stopped at to the last one of the row at `pos`.
   */
  predicate UpPromise(g: Grid, pos: int, nextBottom: int, f: Fill)
    requires g.numColumns >= 1
  {
    && f.next == Steps(pos, -g.numColumns, f.rowCount)
    && (|f.rows| == 0 <==> f.rowCount == 0)
    && (f.next < 0 || f.edge <= g.top)
    && ShowsItems(g, f.rows, RowSpan(g, f.next + g.numColumns).0)
    && (|f.rows| > 0 ==> pos >= 0 && IdAt(f.rows, |f.rows| - 1) == RowSpan(g, pos).1 - 1)
  }

  /**
   * fillUp(pos, nextBottom): rows for pos, pos - numColumns, ... each
   * ending a vertical spacing above the last child of the row placed
   * before, while the next row would end below the top of the list and
   * its position is not negative; each row goes in front of the others.
   */
  function FilledUp(g: Grid, pos: int, nextBottom: int): Fill
    requires g.numColumns >= 1 && pos < g.itemCount
    decreases pos + 1
  {
    if nextBottom <= g.top || pos < 0 then Fill([], pos, nextBottom, 0)
    else
      var rest := FilledUp(g, pos - g.numColumns, RowTop(g, pos, nextBottom) - g.vSpacing);
      Fill(rest.rows + MadeRow(g, pos, nextBottom, false), rest.next, rest.edge, rest.rowCount + 1)
  }

  /** fillUp keeps its promise, row by row. */
  lemma {:induction false} FilledUpKeepsPromise(g: Grid, pos: int, nextBottom: int)
    requires g.numColumns >= 1 && pos < g.itemCount
    ensures UpPromise(g, pos, nextBottom, FilledUp(g, pos, nextBottom))
    decreases pos + 1
  {
    if !(nextBottom <= g.top || pos < 0) {
      FilledUpKeepsPromise(g, pos - g.numColumns, RowTop(g, pos, nextBottom) - g.vSpacing);
      UpStepAt(g, pos, nextBottom);
    }
  }

  /** The rows fillUp places from a row whose predecessors keep the promise keep it. */
  lemma UpStepAt(g: Grid, pos: int, nextBottom: int)
    requires g.numColumns >= 1 && 0 <= pos < g.itemCount && nextBottom > g.top
    requires UpPromise(g, pos - g.numColumns, RowTop(g, pos, nextBottom) - g.vSpacing,
      FilledUp(g, pos - g.numColumns, RowTop(g, pos, nextBottom) - g.vSpacing))
    ensures UpPromise(g, pos, nextBottom, FilledUp(g, pos, nextBottom))
  {
    var row := MadeRow(g, pos, nextBottom, false);
    MadeRowShows(g, pos, nextBottom, false);
    var rest := FilledUp(g, pos - g.numColumns, RowTop(g, pos, nextBottom) - g.vSpacing);
    var f := Fill(rest.rows + row, rest.next, rest.edge, rest.rowCount + 1);
    assert FilledUp(g, pos, nextBottom) == f;
    UpStep(g, pos, nextBottom, row, rest, f);
  }

  /** A row behind a run of rows that keeps fillUp's promise keeps it. */
  lemma UpStep(g: Grid, pos: int, nextBottom: int, row: seq<Child>, rest: Fill, f: Fill)
    requires g.numColumns >= 1 && 0 <= pos < g.itemCount
    requires |row| == RowSpan(g, pos).1 - RowSpan(g, pos).0 > 0 && ShowsItems(g, row, RowSpan(g, pos).0)
    requires UpPromise(g, pos - g.numColumns, RowTop(g, pos, nextBottom) - g.vSpacing, rest)
    requires f == Fill(rest.rows + row, rest.next, rest.edge, rest.rowCount + 1)
    ensures UpPromise(g, pos, nextBottom, f)
  {
    var n := g.numColumns;
    assert |rest.rows| == 0 ==> rest.next == pos - n;
    RowsJoinBehind(g, pos, row, rest.rows, rest.next);
    assert IdAt(f.rows, |f.rows| - 1) == IdAt(row, |row| - 1) == RowSpan(g, pos).1 - 1;
  }

  /** A row behind a run of rows ending just before it shows one run with it. */
  lemma RowsJoinBehind(g: Grid, pos: int, row: seq<Child>, rest: seq<Child>, restNext: int)
    requires g.numColumns >= 1 && 0 <= pos < g.itemCount
    requires |row| == RowSpan(g, pos).1 - RowSpan(g, pos).0 > 0 && ShowsItems(g, row, RowSpan(g, pos).0)
    requires |rest| == 0 ==> restNext == pos - g.numColumns
    requires ShowsItems(g, rest, RowSpan(g, restNext + g.numColumns).0)
    requires |rest| > 0 ==> pos - g.numColumns >= 0 && IdAt(rest, |rest| - 1) == RowSpan(g, pos - g.numColumns).1 - 1
    ensures ShowsItems(g, rest + row, RowSpan(g, restNext + g.numColumns).0)
    ensures (rest + row)[|rest + row| - 1] == row[|row| - 1]
  {
    var s := RowSpan(g, restNext + g.numColumns).0;
    if |rest| > 0 {
      assert RowSpan(g, pos - g.numColumns).1 == RowSpan(g, pos).0;
      assert IdAt(rest, |rest| - 1) == s + |rest| - 1;
    }
    ShowsAppend(rest, row, s);
  }

  /**
   * The reference view fillUp leaves: the last child of the row made
   * last, which is the row it put in front; none when no row is made.
   */
  function FilledUpReference(g: Grid, pos: int, nextBottom: int): Option<Child>
    requires g.numColumns >= 1 && pos < g.itemCount
    decreases pos + 1
  {
    if nextBottom <= g.top || pos < 0 then None
    else Later(FilledUpReference(g, pos - g.numColumns, RowTop(g, pos, nextBottom) - g.vSpacing),
               LastOf(MadeRow(g, pos, nextBottom, false)))
  }

  /** The child fillUp returns: the one makeRow returned last. */
  function FilledUpSelected(g: Grid, pos: int, nextBottom: int): Option<Child>
    requires g.numColumns >= 1 && pos < g.itemCount
    decreases pos + 1
  {
    if nextBottom <= g.top || pos < 0 then None
    else Later(FilledUpSelected(g, pos - g.numColumns, RowTop(g, pos, nextBottom) - g.vSpacing),
               SelectedIn(g, MadeRow(g, pos, nextBottom, false)))
  }

  /** One row of fillUp: the rows before the row at `pos`, then that row. */
  lemma FilledUpRow(g: Grid, pos: int, nextBottom: int)
    requires g.numColumns >= 1 && 0 <= pos < g.itemCount && nextBottom > g.top
    ensures var nb := RowTop(g, pos, nextBottom) - g.vSpacing;
      var rest := FilledUp(g, pos - g.numColumns, nb);
      var row := MadeRow(g, pos, nextBottom, false);
      && FilledUp(g, pos, nextBottom).rows == rest.rows + row
      && FilledUp(g, pos, nextBottom).next == rest.next
      && FilledUpReference(g, pos, nextBottom) == Later(FilledUpReference(g, pos - g.numColumns, nb), LastOf(row))
      && FilledUpSelected(g, pos, nextBottom) == Later(FilledUpSelected(g, pos - g.numColumns, nb), SelectedIn(g, row))
  {
  }

  /**
   * Between two passes of fillUp's loop at `pos` and `nextBottom`: the
   * rows still to come followed by the children `cs` are all the loop's
   * rows, `rows0`, followed by the children `cs0` it started from; the
   * loop stops at `next0`; once the rows still to come are made, the
   * reference view `ref` and the selected child `sel` become `last0` and
   * `sel0`.
   */
  predicate FillingUp(g: Grid, pos: int, nextBottom: int, cs: seq<Child>, ref: Option<Child>, sel: Option<Child>,
                      cs0: seq<Child>, rows0: seq<Child>, next0: int, last0: Option<Child>, sel0: Option<Child>)
    requires g.numColumns >= 1 && pos < g.itemCount
  {
    var f := FilledUp(g, pos, nextBottom);
    && f.rows + cs == rows0 + cs0
    && f.next == next0
    && Later(FilledUpReference(g, pos, nextBottom), ref) == last0
    && Later(FilledUpSelected(g, pos, nextBottom), sel) == sel0
  }

  /**
   * A pass of fillUp's loop, which makes the row at `pos` and moves on to
   * `pos'` and `nextBottom'`, takes the children, reference view and
   * selected child from `cs`, `ref`, `sel` to `cs'`, `ref'`, `sel'` and
   * keeps FillingUp.
   */
  lemma FillingUpStep(g: Grid, pos: int, nextBottom: int, cs: seq<Child>, sel: Option<Child>,
                      pos': int, nextBottom': int, cs': seq<Child>, ref': Option<Child>, sel': Option<Child>,
                      ref: Option<Child>, cs0: seq<Child>, rows0: seq<Child>, next0: int, last0: Option<Child>, sel0: Option<Child>)
    requires g.numColumns >= 1 && 0 <= pos < g.itemCount && nextBottom > g.top
    requires FillingUp(g, pos, nextBottom, cs, ref, sel, cs0, rows0, next0, last0, sel0)
    requires pos' == pos - g.numColumns && nextBottom' == RowTop(g, pos, nextBottom) - g.vSpacing
    requires var row := MadeRow(g, pos, nextBottom, false);
      cs' == row + cs && ref' == LastOf(row) && sel' == Later(SelectedIn(g, row), sel)
    ensures FillingUp(g, pos', nextBottom', cs', ref', sel', cs0, rows0, next0, last0, sel0)
  {
    var row := MadeRow(g, pos, nextBottom, false);
    var rest := FilledUp(g, pos', nextBottom');
    FilledUpRow(g, pos, nextBottom);
    MadeRowEnds(g, pos, nextBottom, false);
    assert rest.rows + (row + cs) == rest.rows + row + cs;
  }

  /** When fillUp's loop stops, the children, reference view and selected child are the final ones. */
  lemma FillingUpDone(g: Grid, pos: int, nextBottom: int, cs: seq<Child>, ref: Option<Child>, sel: Option<Child>,
                      cs0: seq<Child>, rows0: seq<Child>, next0: int, last0: Option<Child>, sel0: Option<Child>)
    requires g.numColumns >= 1 && pos < g.itemCount && (nextBottom <= g.top || pos < 0)
    requires FillingUp(g, pos, nextBottom, cs, ref, sel, cs0, rows0, next0, last0, sel0)
    ensures cs == rows0 + cs0 && pos == next0 && ref == last0 && sel == sel0
  {
    assert FilledUp(g, pos, nextBottom).rows == [];
    assert [] + cs == cs;
  }

  /**
   * The reference view a run of rows made upwards leaves: there exactly
   * when a row was made, one of the children placed, and showing the last
   * position of the front row, the row of the position after the one the
   * loop stopped at.
   */
  predicate ReferencesFront(g: Grid, f: Fill, r: Option<Child>)
    requires g.numColumns >= 1
  {
    && (r.Some? <==> |f.rows| > 0)
    && (r.Some? ==> r.value in f.rows && r.value.view.id == RowSpan(g, f.next + g.numColumns).1 - 1)
  }

  /** fillUp's reference view is the last child of its front row. */
  lemma {:induction false} FilledUpReferenceFront(g: Grid, pos: int, nextBottom: int)
    requires g.numColumns >= 1 && pos < g.itemCount
    ensures ReferencesFront(g, FilledUp(g, pos, nextBottom), FilledUpReference(g, pos, nextBottom))
    decreases pos + 1
  {
    if !(nextBottom <= g.top || pos < 0) {
      var nb := RowTop(g, pos, nextBottom) - g.vSpacing;
      FilledUpReferenceFront(g, pos - g.numColumns, nb);
      FilledUpNone(g, pos - g.numColumns, nb);
      UpReferenceStep(g, pos, nextBottom);
    }
  }

  /** fillUp makes no row exactly when it stops where it starts. */
  lemma FilledUpNone(g: Grid, pos: int, nextBottom: int)
    requires g.numColumns >= 1 && pos < g.itemCount
    ensures |FilledUp(g, pos, nextBottom).rows| == 0 ==> FilledUp(g, pos, nextBottom).next == pos
  {
    if !(nextBottom <= g.top || pos < 0) {
      MadeRowShows(g, pos, nextBottom, false);
    }
  }

  /** One row of fillUp's reference view: a new front row, or the front row made before. */
  lemma UpReferenceStep(g: Grid, pos: int, nextBottom: int)
    requires g.numColumns >= 1 && 0 <= pos < g.itemCount && nextBottom > g.top
    requires var f := FilledUp(g, pos - g.numColumns, RowTop(g, pos, nextBottom) - g.vSpacing);
      |f.rows| == 0 ==> f.next == pos - g.numColumns
    requires ReferencesFront(g, FilledUp(g, pos - g.numColumns, RowTop(g, pos, nextBottom) - g.vSpacing),
      FilledUpReference(g, pos - g.numColumns, RowTop(g, pos, nextBottom) - g.vSpacing))
    ensures ReferencesFront(g, FilledUp(g, pos, nextBottom), FilledUpReference(g, pos, nextBottom))
  {
    var nb := RowTop(g, pos, nextBottom) - g.vSpacing;
    var row := MadeRow(g, pos, nextBottom, false);
    MadeRowShows(g, pos, nextBottom, false);
    var rest := FilledUp(g, pos - g.numColumns, nb);
    var rr := FilledUpReference(g, pos - g.numColumns, nb);
    assert FilledUp(g, pos, nextBottom) == Fill(rest.rows + row, rest.next, rest.edge, rest.rowCount + 1);
    assert FilledUpReference(g, pos, nextBottom) == Later(rr, LastOf(row));
    ReferenceJoin(g, pos, row, rest, rr);
  }

  /** A row made behind a run of rows made upwards: the run's reference stands, or the row's last child when the run is empty. */
  lemma ReferenceJoin(g: Grid, pos: int, row: seq<Child>, rest: Fill, rr: Option<Child>)
    requires g.numColumns >= 1 && 0 <= pos < g.itemCount
    requires |row| == RowSpan(g, pos).1 - RowSpan(g, pos).0 > 0 && Shows(row, RowSpan(g, pos).0)
    requires |rest.rows| == 0 ==> rest.next == pos - g.numColumns
    requires ReferencesFront(g, rest, rr)
    ensures ReferencesFront(g, Fill(rest.rows + row, rest.next, rest.edge, rest.rowCount + 1), Later(rr, LastOf(row)))
  {
    if rr.None? {
      assert IdAt(row, |row| - 1) == RowSpan(g, pos).1 - 1;
      assert row[|row| - 1] == (rest.rows + row)[|rest.rows| + |row| - 1];
    } else {
      assert rr.value in rest.rows + row;
    }
  }

  /**
   * The child fillUp returns shows the selected position, and there is
   * one exactly when the selection is shown and some placed child shows
   * that position.
   */
  lemma {:induction false} FilledUpSelects(g: Grid, pos: int, nextBottom: int)
    requires g.numColumns >= 1 && pos < g.itemCount
    ensures Selects(g, FilledUp(g, pos, nextBottom).rows, FilledUpSelected(g, pos, nextBottom))
    decreases pos + 1
  {
    if !(nextBottom <= g.top || pos < 0) {
      var nb := RowTop(g, pos, nextBottom) - g.vSpacing;
      var row := MadeRow(g, pos, nextBottom, false);
      var rest := FilledUp(g, pos - g.numColumns, nb);
      FilledUpSelects(g, pos - g.numColumns, nb);
      SelectedInSelects(g, row);
      assert FilledUp(g, pos, nextBottom).rows == rest.rows + row;
      SelectsJoin(g, rest.rows, row, FilledUpSelected(g, pos - g.numColumns, nb), SelectedIn(g, row));
    }
  }

  /** Two runs of consecutive positions, the second starting where the first ends, make one. */
  lemma ShowsAppend(a: seq<Child>, b: seq<Child>, first: int)
    requires Shows(a, first) && Shows(b, first + |a|)
    ensures Shows(a + b, first)
  {
    forall i | 0 <= i < |a + b|
      ensures IdAt(a + b, i) == first + i
    {
      if i >= |a| {
        assert (a + b)[i] == b[i - |a|] && IdAt(b, i - |a|) == first + i;
      } else {
        assert (a + b)[i] == a[i] && IdAt(a, i) == first + i;
      }
    }
  }

  /**
   * mFirstPosition after fillUp(pos, ...) stopped at `next`: stacked from
   * the bottom, the position after `next` (at least 0); otherwise the last
   * row start placed, or what it was when no row was placed.
   */
  function FirstAfterUp(g: Grid, pos: int, next: int, first: int): int {
    if g.stackFromBottom then Max(0, next + 1)
    else if next == pos then first
    else next + g.numColumns
  }

  /**
   * The first position fillUp leaves in mFirstPosition is the one its
   * front child shows, in either stacking; with no row made it is what it
   * was, or, stacked from the bottom, the position after `pos`.
   */
  lemma FilledUpFront(g: Grid, pos: int, nextBottom: int, first: int)
    requires g.numColumns >= 1 && pos < g.itemCount
    ensures var f := FilledUp(g, pos, nextBottom);
      && (|f.rows| > 0 ==> f.rows[0].view.id == FirstAfterUp(g, pos, f.next, first))
      && (|f.rows| == 0 ==> FirstAfterUp(g, pos, f.next, first) == if g.stackFromBottom then Max(0, pos + 1) else first)
  {
    var f := FilledUp(g, pos, nextBottom);
    FilledUpKeepsPromise(g, pos, nextBottom);
    if |f.rows| > 0 {
      assert IdAt(f.rows, 0) == RowSpan(g, f.next + g.numColumns).0;
      assert IdAt(f.rows, |f.rows| - 1) == IdAt(f.rows, 0) + |f.rows| - 1;
    }
  }

  // ---------------------------------------------------------------------
  // Corrections after a fill

  /** Moving the children along the scrolling axis keeps the positions they show. */
  lemma OffsetShows(cs: seq<Child>, delta: int, first: int)
    ensures Shows(Offset(cs, delta), first) <==> Shows(cs, first)
  {
    forall i | 0 <= i < |cs|
      ensures IdAt(Offset(cs, delta), i) == IdAt(cs, i)
    {
      OffsetAt(cs, delta, i);
    }
  }

  /**
   * adjustViewsUpOrDown's move, as a distance to move up (negative moves
   * down). From the top, the first child comes up to the top of the list,
   * a vertical spacing lower when rows are hidden above it, and never
   * goes down; stacked from the bottom, the last child comes down to the
   * end of the list, a spacing higher when items are hidden below it, and
   * never goes up.
   */
  function AdjustDelta(g: Grid, cs: seq<Child>, first: int): int
  {
    if |cs| == 0 then 0
    else if !g.stackFromBottom then
      var delta := cs[0].top - g.top;
      var delta' := if first != 0 then delta - g.vSpacing else delta;
      if delta' < 0 then 0 else delta'
    else
      var delta := cs[|cs| - 1].bottom - g.end;
      var delta' := if first + |cs| < g.itemCount then delta + g.vSpacing else delta;
      if delta' > 0 then 0 else delta'
  }
  /**
   * adjustViewsUpOrDown's move brings the first child up to the top of
   * the list (a spacing lower when rows are hidden above it) and never
   * down; stacked from the bottom, it brings the last child down to the
   * end (a spacing higher when items are hidden below it) and never up.
   */
  lemma AdjustDeltaMoves(g: Grid, cs: seq<Child>, first: int)
    ensures |cs| == 0 ==> AdjustDelta(g, cs, first) == 0
    ensures |cs| > 0 && !g.stackFromBottom ==>
      AdjustDelta(g, cs, first) >= 0 && cs[0].top - AdjustDelta(g, cs, first) == Min(cs[0].top, g.top + (if first != 0 then g.vSpacing else 0))
    ensures |cs| > 0 && g.stackFromBottom ==>
      AdjustDelta(g, cs, first) <= 0
      && cs[|cs| - 1].bottom - AdjustDelta(g, cs, first)
         == Max(cs[|cs| - 1].bottom, g.end - (if first + |cs| < g.itemCount then g.vSpacing else 0))
  {
  }

  /**
   * correctTooHigh's move down: only when the last item is on screen with
   * its bottom above the end of the list, and there is more above (rows
   * hidden above, or a first child cut by the top). The last child then
   * comes down to the end, unless, with nothing hidden above, that would
   * pull the first child below the top: then it stops when the first
   * child reaches the top.
   */
  function TooHighShift(g: Grid, cs: seq<Child>, first: int): int
  {
    var lastPosition := first + |cs| - 1;
    if lastPosition == g.itemCount - 1 && |cs| > 0 then
      var bottomOffset := g.end - cs[|cs| - 1].bottom;
      if bottomOffset > 0 && (first > 0 || cs[0].top < g.top) then
        if first == 0 then Min(bottomOffset, g.top - cs[0].top) else bottomOffset
      else 0
    else 0
  }
  /**
   * correctTooHigh's move is down or nothing; it happens only with the
   * last item on screen, brings the last child to the end with rows
   * hidden above, and with none hidden stops at the first of the top
   * or the end; and it always happens when the last item ends above the
   * end with more above.
   */
  lemma TooHighShiftMoves(g: Grid, cs: seq<Child>, first: int)
    ensures var s := TooHighShift(g, cs, first);
      && s >= 0
      && (s > 0 ==> |cs| > 0 && first + |cs| == g.itemCount && cs[|cs| - 1].bottom + s <= g.end)
      && (s > 0 && first != 0 ==> cs[|cs| - 1].bottom + s == g.end)
      && (s > 0 && first == 0 ==> cs[0].top + s <= g.top && (cs[0].top + s == g.top || cs[|cs| - 1].bottom + s == g.end))
      && (|cs| > 0 && first + |cs| == g.itemCount && cs[|cs| - 1].bottom < g.end && (first > 0 || cs[0].top < g.top) ==> s > 0)
  {
  }

  /**
   * correctTooLow's move up: only when the first item is on screen with
   * its top below the top of the list, and there is more below (items
   * hidden below, or a last child cut by the end). The first child then
   * goes up to the top, unless, with nothing hidden below, that would
   * pull the last child above the end: then it stops when the last child
   * reaches the end.
   */
  function TooLowShift(g: Grid, cs: seq<Child>, first: int): int
  {
    if first == 0 && |cs| > 0 then
      var topOffset := cs[0].top - g.top;
      var lastBottom := cs[|cs| - 1].bottom;
      var lastPosition := first + |cs| - 1;
      if topOffset > 0 && (lastPosition < g.itemCount - 1 || lastBottom > g.end) then
        if lastPosition == g.itemCount - 1 then Min(topOffset, lastBottom - g.end) else topOffset
      else 0
    else 0
  }
  /**
   * correctTooLow's move is up or nothing; it happens only with the first
   * item on screen, brings the first child to the top with items hidden
   * below, and with none hidden stops at the first of the top or the
   * end; and it always happens when the first item starts below the top
   * with more below.
   */
  lemma TooLowShiftMoves(g: Grid, cs: seq<Child>, first: int)
    ensures var s := TooLowShift(g, cs, first);
      && s >= 0
      && (s > 0 ==> first == 0 && |cs| > 0 && cs[0].top - s >= g.top)
      && (s > 0 && |cs| != g.itemCount ==> cs[0].top - s == g.top)
      && (s > 0 && |cs| == g.itemCount ==> cs[|cs| - 1].bottom - s >= g.end && (cs[0].top - s == g.top || cs[|cs| - 1].bottom - s == g.end))
      && (first == 0 && |cs| > 0 && cs[0].top > g.top && (|cs| < g.itemCount || cs[|cs| - 1].bottom > g.end) ==> s > 0)
  {
  }

  /**
   * correctTooHigh(numColumns, verticalSpacing, childCount) on children
   * `cs` from `first`: the children, the first position and the
   * reference view afterwards. The children move down by the shift; with
   * rows hidden above, the rows that now fit are filled in above and the
   * whole is brought back up by adjustViewsUpOrDown.
   */
  function CorrectedTooHigh(g: Grid, cs: seq<Child>, first: int, reference: Option<Child>): (r: (seq<Child>, int, Option<Child>))
    requires g.numColumns >= 1
  {
    var s := TooHighShift(g, cs, first);
    if s == 0 then (cs, first, reference)
    else
      var moved := Offset(cs, s);
      if first <= 0 then (moved, first, reference)
      else
        var pos := first - (if g.stackFromBottom then 1 else g.numColumns);
        var f := FilledUp(g, pos, cs[0].top + s - g.vSpacing);
        var all := f.rows + moved;
        var first' := FirstAfterUp(g, pos, f.next, first);
        (Offset(all, -AdjustDelta(g, all, first')), first', Later(FilledUpReference(g, pos, cs[0].top + s - g.vSpacing), reference))
  }

  /**
   * correctTooLow(numColumns, verticalSpacing, childCount) on children
   * `cs` from `first`: the children move up by the shift; with items
   * hidden below, the rows that now fit are filled in below and the whole
   * is brought back down by adjustViewsUpOrDown.
   */
  function CorrectedTooLow(g: Grid, cs: seq<Child>, first: int, reference: Option<Child>): (r: (seq<Child>, int, Option<Child>))
    requires g.numColumns >= 1
    ensures r.1 == first
  {
    var s := TooLowShift(g, cs, first);
    if s == 0 then (cs, first, reference)
    else
      var moved := Offset(cs, -s);
      var lastPosition := first + |cs| - 1;
      if lastPosition < g.itemCount - 1 then
        var pos := lastPosition + (if !g.stackFromBottom then 1 else g.numColumns);
        var f := FilledDown(g, pos, cs[|cs| - 1].bottom - s + g.vSpacing);
        var all := moved + f.rows;
        (Offset(all, -AdjustDelta(g, all, first)), first, Later(LastOf(f.rows), reference))
      else (moved, first, reference)
  }

  /** Without a shift correctTooHigh changes nothing; with a shift and nothing hidden above, it only moves the children. */
  lemma TooHighWithoutFill(g: Grid, cs: seq<Child>, first: int, reference: Option<Child>)
    requires g.numColumns >= 1
    ensures TooHighShift(g, cs, first) == 0 ==> CorrectedTooHigh(g, cs, first, reference) == (cs, first, reference)
    ensures first <= 0 ==> CorrectedTooHigh(g, cs, first, reference) == (Offset(cs, TooHighShift(g, cs, first)), first, reference)
  {
    OffsetZero(cs);
  }

  /** Without a shift correctTooLow changes nothing; with a shift and nothing hidden below, it only moves the children. */
  lemma TooLowWithoutFill(g: Grid, cs: seq<Child>, first: int, reference: Option<Child>)
    requires g.numColumns >= 1
    ensures TooLowShift(g, cs, first) == 0 ==> CorrectedTooLow(g, cs, first, reference) == (cs, first, reference)
    ensures first + |cs| - 1 >= g.itemCount - 1 ==>
      CorrectedTooLow(g, cs, first, reference) == (Offset(cs, -TooLowShift(g, cs, first)), first, reference)
  {
    OffsetZero(cs);
  }



  /**
   * correctTooHigh's steps with rows hidden above (move down by the shift,
   * fill up above the moved first child, adjust) make CorrectedTooHigh.
   */
  lemma CorrectedTooHighFills(g: Grid, cs: seq<Child>, first: int, reference: Option<Child>, s: int, pos: int, nextBottom: int,
                              all: seq<Child>, first': int, ref': Option<Child>, cs': seq<Child>)
    requires g.numColumns >= 1 && s == TooHighShift(g, cs, first) && s > 0 && first > 0
    requires pos == first - (if g.stackFromBottom then 1 else g.numColumns) && nextBottom == cs[0].top + s - g.vSpacing
    requires all == FilledUp(g, pos, nextBottom).rows + Offset(cs, s)
    requires first' == FirstAfterUp(g, pos, FilledUp(g, pos, nextBottom).next, first)
    requires ref' == Later(FilledUpReference(g, pos, nextBottom), reference)
    requires cs' == Offset(all, -AdjustDelta(g, all, first'))
    ensures (cs', first', ref') == CorrectedTooHigh(g, cs, first, reference)
  {
  }

  /**
   * correctTooLow's steps with items hidden below (move up by the shift,
   * fill down below the moved last child, adjust) make CorrectedTooLow.
   */
  lemma CorrectedTooLowFills(g: Grid, cs: seq<Child>, first: int, reference: Option<Child>, s: int, pos: int, nextTop: int,
                             all: seq<Child>, ref': Option<Child>, cs': seq<Child>)
    requires g.numColumns >= 1 && s == TooLowShift(g, cs, first) && s > 0 && first + |cs| - 1 < g.itemCount - 1
    requires pos == first + |cs| - 1 + (if !g.stackFromBottom then 1 else g.numColumns)
    requires nextTop == cs[|cs| - 1].bottom - s + g.vSpacing
    requires all == Offset(cs, -s) + FilledDown(g, pos, nextTop).rows
    requires ref' == Later(LastOf(FilledDown(g, pos, nextTop).rows), reference)
    requires cs' == Offset(all, -AdjustDelta(g, all, first))
    ensures (cs', first, ref') == CorrectedTooLow(g, cs, first, reference)
  {
    var f := FilledDown(g, pos, nextTop);
    assert CorrectedTooLow(g, cs, first, reference)
      == (Offset(Offset(cs, -s) + f.rows, -AdjustDelta(g, Offset(cs, -s) + f.rows, first)), first, Later(LastOf(f.rows), reference));
  }

  /** fillGap(true)'s steps (fill down after the run, then correct too high) make GapFilled. */
  lemma GapFilledDown(g: Grid, cs: seq<Child>, first: int, reference: Option<Child>, pos: int, nextTop: int,
                      cs1: seq<Child>, ref1: Option<Child>, r: (seq<Child>, int, Option<Child>))
    requires g.numColumns >= 1 && 0 <= first <= g.itemCount
    requires pos == first + |cs| + (if g.stackFromBottom then g.numColumns - 1 else 0)
    requires nextTop == if |cs| > 0 then cs[|cs| - 1].bottom + g.vSpacing else g.top
    requires cs1 == cs + FilledDown(g, pos, nextTop).rows && ref1 == Later(LastOf(FilledDown(g, pos, nextTop).rows), reference)
    requires r == CorrectedTooHigh(g, cs1, first, ref1)
    ensures r == GapFilled(g, true, cs, first, reference)
  {
  }

  /** fillGap(false)'s steps (fill up before the run, then correct too low) make GapFilled. */
  lemma GapFilledUp(g: Grid, cs: seq<Child>, first: int, reference: Option<Child>, pos: int, nextBottom: int,
                    cs1: seq<Child>, first1: int, ref1: Option<Child>, r: (seq<Child>, int, Option<Child>))
    requires g.numColumns >= 1 && 0 <= first <= g.itemCount
    requires pos == first - (if g.stackFromBottom then 1 else g.numColumns)
    requires nextBottom == if |cs| > 0 then cs[0].top - g.vSpacing else g.end
    requires cs1 == FilledUp(g, pos, nextBottom).rows + cs && first1 == FirstAfterUp(g, pos, FilledUp(g, pos, nextBottom).next, first)
    requires ref1 == Later(FilledUpReference(g, pos, nextBottom), reference)
    requires r == CorrectedTooLow(g, cs1, first1, ref1)
    ensures r == GapFilled(g, false, cs, first, reference)
  {
  }

  /**
   * The rows fillDown places from the row after a run of children continue
   * the run (stacked from the bottom, that row is named by its last
   * position).
   */
  lemma DownFillJoins(g: Grid, cs: seq<Child>, first: int, pos: int, nextTop: int, f: Fill)
    requires g.numColumns >= 1 && first >= 0
    requires pos == first + |cs| + (if g.stackFromBottom then g.numColumns - 1 else 0)
    requires f == FilledDown(g, pos, nextTop)
    ensures Shows(cs, first) ==> Shows(cs + f.rows, first)
  {
    FilledDownKeepsPromise(g, pos, nextTop);
    if Shows(cs, first) {
      assert RowSpan(g, pos).0 == first + |cs|;
      ShowsAppend(cs, f.rows, first);
    }
  }

  /**
   * The rows fillUp places from the row before a run of children lead
   * into it, and the first position fillUp leaves is the one the front
   * child shows.
   */
  lemma UpFillJoins(g: Grid, cs: seq<Child>, first: int, pos: int, nextBottom: int, f: Fill)
    requires g.numColumns >= 1 && 0 <= first <= g.itemCount
    requires pos == first - (if g.stackFromBottom then 1 else g.numColumns)
    requires f == FilledUp(g, pos, nextBottom)
    ensures Shows(cs, first) ==> Shows(f.rows + cs, FirstAfterUp(g, pos, f.next, first))
  {
    FilledUpKeepsPromise(g, pos, nextBottom);
    var n := g.numColumns;
    var first' := FirstAfterUp(g, pos, f.next, first);
    if Shows(cs, first) {
      assert RowSpan(g, pos).1 == first;
      if |f.rows| > 0 {
        assert IdAt(f.rows, |f.rows| - 1) == IdAt(f.rows, 0) + |f.rows| - 1;
        assert first' == RowSpan(g, f.next + n).0;
        assert IdAt(f.rows, |f.rows| - 1) == first' + |f.rows| - 1;
      }
      ShowsAppend(f.rows, cs, first');
    }
  }

  /** The rows fillUp adds above the moved children continue their run backwards. */
  lemma FilledAboveShowsRun(g: Grid, cs: seq<Child>, first: int, s: int, pos: int, nextBottom: int, f: Fill)
    requires g.numColumns >= 1 && first > 0 && first + |cs| == g.itemCount
    requires pos == first - (if g.stackFromBottom then 1 else g.numColumns)
    requires f == FilledUp(g, pos, nextBottom)
    ensures var first' := FirstAfterUp(g, pos, f.next, first);
      var all := f.rows + Offset(cs, s);
      Shows(cs, first) ==> Shows(Offset(all, -AdjustDelta(g, all, first')), first')
  {
    var first' := FirstAfterUp(g, pos, f.next, first);
    var all := f.rows + Offset(cs, s);
    OffsetShows(cs, s, first);
    UpFillJoins(g, Offset(cs, s), first, pos, nextBottom, f);
    OffsetShows(all, -AdjustDelta(g, all, first'), first');
  }

  /** The rows fillDown adds below the moved children continue their run. */
  lemma FilledBelowShowsRun(g: Grid, cs: seq<Child>, first: int, s: int, pos: int, nextTop: int, f: Fill)
    requires g.numColumns >= 1 && |cs| > 0 && first >= 0
    requires pos == first + |cs| - 1 + (if !g.stackFromBottom then 1 else g.numColumns)
    requires f == FilledDown(g, pos, nextTop)
    ensures var all := Offset(cs, -s) + f.rows;
      Shows(cs, first) ==> Shows(Offset(all, -AdjustDelta(g, all, first)), first)
  {
    var all := Offset(cs, -s) + f.rows;
    OffsetShows(cs, -s, first);
    DownFillJoins(g, Offset(cs, -s), first, pos, nextTop, f);
    OffsetShows(all, -AdjustDelta(g, all, first), first);
  }

  /**
   * fillGap(down) on children `cs` from `first`: downwards, rows are
   * filled in below the last child (or from the top padding) starting with
   * the row after the last position, and correctTooHigh follows; upwards,
   * rows are filled in above the first child (or from the bottom padding)
   * ending with the row before the first position, and correctTooLow
   * follows. The children stay a run of consecutive items.
   */
  function GapFilled(g: Grid, down: bool, cs: seq<Child>, first: int, reference: Option<Child>): (r: (seq<Child>, int, Option<Child>))
    requires g.numColumns >= 1 && 0 <= first <= g.itemCount
  {
    if down then
      var pos := first + |cs| + (if g.stackFromBottom then g.numColumns - 1 else 0);
      var f := FilledDown(g, pos, if |cs| > 0 then cs[|cs| - 1].bottom + g.vSpacing else g.top);
      CorrectedTooHigh(g, cs + f.rows, first, Later(LastOf(f.rows), reference))
    else
      var pos := first - (if g.stackFromBottom then 1 else g.numColumns);
      var f := FilledUp(g, pos, if |cs| > 0 then cs[0].top - g.vSpacing else g.end);
      CorrectedTooLow(g, f.rows + cs, FirstAfterUp(g, pos, f.next, first), Later(FilledUpReference(g, pos, if |cs| > 0 then cs[0].top - g.vSpacing else g.end), reference))
  }
  /**
   * Upwards, fillGap leaves the first position where the rows filled in
   * above the run begin: correctTooLow does not move it.
   */
  lemma GapFilledFirst(g: Grid, cs: seq<Child>, first: int, reference: Option<Child>)
    requires g.numColumns >= 1 && 0 <= first <= g.itemCount
    ensures var pos := first - (if g.stackFromBottom then 1 else g.numColumns);
      GapFilled(g, false, cs, first, reference).1
      == FirstAfterUp(g, pos, FilledUp(g, pos, if |cs| > 0 then cs[0].top - g.vSpacing else g.end).next, first)
  {
  }

  /** correctTooHigh keeps the children a run of consecutive items, from the first position it leaves. */
  lemma CorrectedTooHighShows(g: Grid, cs: seq<Child>, first: int, reference: Option<Child>)
    requires g.numColumns >= 1
    ensures var r := CorrectedTooHigh(g, cs, first, reference); Shows(cs, first) ==> Shows(r.0, r.1)
  {
    var s := TooHighShift(g, cs, first);
    if s != 0 {
      OffsetShows(cs, s, first);
      if first > 0 {
        var pos := first - (if g.stackFromBottom then 1 else g.numColumns);
        FilledAboveShowsRun(g, cs, first, s, pos, cs[0].top + s - g.vSpacing, FilledUp(g, pos, cs[0].top + s - g.vSpacing));
      }
    }
  }

  /** correctTooLow keeps the children a run of consecutive items from the same first position. */
  lemma CorrectedTooLowShows(g: Grid, cs: seq<Child>, first: int, reference: Option<Child>)
    requires g.numColumns >= 1
    ensures var r := CorrectedTooLow(g, cs, first, reference); Shows(cs, first) ==> Shows(r.0, first)
  {
    var s := TooLowShift(g, cs, first);
    if s == 0 {
      assert CorrectedTooLow(g, cs, first, reference).0 == cs;
    } else if first + |cs| - 1 < g.itemCount - 1 {
      var pos := first + |cs| - 1 + (if !g.stackFromBottom then 1 else g.numColumns);
      var nextTop := cs[|cs| - 1].bottom - s + g.vSpacing;
      CorrectedTooLowFillShows(g, cs, first, reference, s, pos, nextTop);
    } else {
      assert CorrectedTooLow(g, cs, first, reference).0 == Offset(cs, -s);
      OffsetShows(cs, -s, first);
    }
  }

  /** The same, where correctTooLow fills rows in below the moved children. */
  lemma CorrectedTooLowFillShows(g: Grid, cs: seq<Child>, first: int, reference: Option<Child>, s: int, pos: int, nextTop: int)
    requires g.numColumns >= 1 && |cs| > 0 && first >= 0
    requires s == TooLowShift(g, cs, first) && s != 0 && first + |cs| - 1 < g.itemCount - 1
    requires pos == first + |cs| - 1 + (if !g.stackFromBottom then 1 else g.numColumns)
    requires nextTop == cs[|cs| - 1].bottom - s + g.vSpacing
    ensures Shows(cs, first) ==> Shows(CorrectedTooLow(g, cs, first, reference).0, first)
  {
    var all := Offset(cs, -s) + FilledDown(g, pos, nextTop).rows;
    assert CorrectedTooLow(g, cs, first, reference).0 == Offset(all, -AdjustDelta(g, all, first));
    FilledBelowShowsRun(g, cs, first, s, pos, nextTop, FilledDown(g, pos, nextTop));
  }


  /** fillGap keeps the children a run of consecutive items, from the first position it leaves. */
  lemma GapFilledShows(g: Grid, down: bool, cs: seq<Child>, first: int, reference: Option<Child>)
    requires g.numColumns >= 1 && 0 <= first <= g.itemCount
    ensures var r := GapFilled(g, down, cs, first, reference); Shows(cs, first) ==> Shows(r.0, r.1)
  {
    if down {
      var pos := first + |cs| + (if g.stackFromBottom then g.numColumns - 1 else 0);
      var nextTop := if |cs| > 0 then cs[|cs| - 1].bottom + g.vSpacing else g.top;
      var f := FilledDown(g, pos, nextTop);
      var ref := Later(LastOf(f.rows), reference);
      assert GapFilled(g, down, cs, first, reference) == CorrectedTooHigh(g, cs + f.rows, first, ref);
      DownFillJoins(g, cs, first, pos, nextTop, f);
      CorrectedTooHighShows(g, cs + f.rows, first, ref);
    } else {
      var pos := first - (if g.stackFromBottom then 1 else g.numColumns);
      var nextBottom := if |cs| > 0 then cs[0].top - g.vSpacing else g.end;
      var f := FilledUp(g, pos, nextBottom);
      var first1, ref := FirstAfterUp(g, pos, f.next, first), Later(FilledUpReference(g, pos, nextBottom), reference);
      assert GapFilled(g, down, cs, first, reference) == CorrectedTooLow(g, f.rows + cs, first1, ref);
      UpFillJoins(g, cs, first, pos, nextBottom, f);
      CorrectedTooLowShows(g, f.rows + cs, first1, ref);
    }
  }


  /**
   * fillFromTop's first position: the first position, pulled back to the
   * selection and to the last item and up to 0, then back to the start of
   * its row. It is the start of a row, an item when there are items, not
   * after a valid selection, and the start of the row that holds the
   * clamped position (0 when there is no selection or no item).
   */
  function TopRowStart(first: int, selected: int, itemCount: int, n: int): (r: int)
    requires n >= 1
    ensures 0 <= r && r % n == 0
    ensures itemCount >= 1 ==> r < itemCount
    ensures selected >= 0 ==> r <= selected
    ensures first >= 0 ==> r <= first
    ensures r <= Max(0, Min(Min(first, selected), itemCount - 1)) < r + n
  {
    var c := Max(0, Min(Min(first, selected), itemCount - 1));
    RowStartOf(c, n);
    c - JRem(c, n)
  }

  /** Taking a non-negative position back to the start of its row of `n` lands on a multiple of `n` less than a row before it. */
  lemma RowStartOf(c: int, n: int)
    requires n >= 1 && c >= 0
    ensures var r := c - JRem(c, n); 0 <= r <= c < r + n && r % n == 0
  {
    QuotientFacts(c, n);
    assert c - JRem(c, n) == JDiv(c, n) * n;
  }

  /**
   * fillFromBottom's row end: the last position, pushed on to the
   * selection and back to the last item, then on to the end of its row
   * counted from the last item. It is at most the last item, a whole
   * number of rows before it, and less than a row after the clamped
   * position.
   */
  function BottomRowEnd(lastPosition: int, selected: int, itemCount: int, n: int): (r: int)
    requires n >= 1
    ensures r <= itemCount - 1 && (itemCount - 1 - r) % n == 0
    ensures Min(Max(lastPosition, selected), itemCount - 1) <= r < Min(Max(lastPosition, selected), itemCount - 1) + n
  {
    var c := Min(Max(lastPosition, selected), itemCount - 1);
    var inverted := itemCount - 1 - c;
    RowStartOf(inverted, n);
    itemCount - 1 - (inverted - JRem(inverted, n))
  }

  /**
   * pinToTop(childrenTop)'s move: when the first item is on screen, a
   * first child that starts below `childrenTop` comes up to it and one
   * at or above it stays; otherwise nothing moves.
   */
  function PinTopOffset(cs: seq<Child>, first: int, childrenTop: int): (offset: int)
    requires first == 0 ==> |cs| > 0
    ensures offset <= 0
    ensures first == 0 ==> cs[0].top + offset == Min(cs[0].top, childrenTop)
    ensures first != 0 ==> offset == 0
  {
    if first == 0 then
      var offset := childrenTop - cs[0].top;
      if offset < 0 then offset else 0
    else 0
  }

  /**
   * pinToBottom(childrenBottom)'s move: when the last item is on screen, a
   * last child above `childrenBottom` comes down to it; otherwise nothing
   * moves.
   */
  function PinBottomOffset(cs: seq<Child>, first: int, itemCount: int, childrenBottom: int): (offset: int)
    requires first + |cs| == itemCount ==> |cs| > 0
    ensures offset >= 0
    ensures first + |cs| == itemCount ==> cs[|cs| - 1].bottom + offset == Max(cs[|cs| - 1].bottom, childrenBottom)
    ensures first + |cs| != itemCount ==> offset == 0
  {
    if first + |cs| == itemCount then
      var offset := childrenBottom - cs[|cs| - 1].bottom;
      if offset > 0 then offset else 0
    else 0
  }
}
