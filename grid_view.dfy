/*
 * TwoWayGridView: the grid's own state (the requested and the determined
 * columns, rows, sizes and spacings, the gravity and the stretch mode)
 * over the list state it extends, and the vertical builder's operations
 * on it. The fill loops place children one row at a time and are proved
 * against the GridFill functions; the corrections move the children as
 * those functions say; keyboard navigation moves the selection.
 */
module GridViewing {
  import opened JavaLang
  import opened Recycling
  import opened GridGeometry
  import opened AbsList
  import opened GridFill

  /** A multiple of `n` is followed by no other multiple before the next one. */
  lemma NextMultiple(i: int, n: int)
    requires n >= 1 && i >= 0 && i % n == 0
    ensures (i + n) % n == 0
    ensures forall j :: i < j < i + n ==> j % n != 0
  {
    var q := i / n;
    assert i == q * n;
    MultipleFacts(q + 1, n);
    assert (q + 1) * n == i + n;
    forall j | i < j < i + n
      ensures j % n != 0
    {
      if j % n == 0 {
        var k := j / n;
        assert j == k * n;
        if k <= q {
          MulLe(k, q, n);
        } else {
          MulLe(q + 1, k, n);
        }
        assert false;
      }
    }
  }

  /** One more step of `step` is `step` further. */
  lemma MulSucc(k: int, step: int)
    ensures (k + 1) * step == k * step + step
  {
  }

  /** The children with a row appended after them (flowing down) or put in front of them. */
  function WithRow(cs: seq<Child>, row: seq<Child>, flow: bool): seq<Child> {
    if flow then cs + row else row + cs
  }

  /**
   * One step of makeRow's loop: the cell placed `pos - start` steps from
   * `left` extends the row, going in at the row's length when the row is
   * put in front of the children; it becomes the selected child when it
   * shows the selection; the next cell starts a column and a spacing
   * further.
   */
  lemma RowGrows(g: Grid, start: int, pos: int, y: int, flow: bool, left: int, cellLeft: int, c: Child, cs: seq<Child>)
    requires start <= pos
    requires cellLeft == Steps(left, g.columnWidth + g.hSpacing, pos - start)
    requires c == Cell(g, pos, y, flow, cellLeft)
    ensures var row := Row(g, start, pos, y, flow, left);
      && Row(g, start, pos + 1, y, flow, left) == row + [c]
      && WithRow(cs, row + [c], flow)
        == (if flow then WithRow(cs, row, flow) + [c]
            else WithRow(cs, row, flow)[..pos - start] + [c] + WithRow(cs, row, flow)[pos - start..])
      && SelectedIn(g, row + [c]) == (if g.showsSelection && c.view.id == g.selected then Some(c) else SelectedIn(g, row))
    ensures Steps(left, g.columnWidth + g.hSpacing, pos + 1 - start) == cellLeft + g.columnWidth + g.hSpacing
  {
    var row := Row(g, start, pos, y, flow, left);
    var step := g.columnWidth + g.hSpacing;
    StepsClosedForm(left, step, pos - start);
    StepsClosedForm(left, step, pos + 1 - start);
    MulSucc(pos - start, step);
    RowSnoc(g, start, pos, y, flow, left);
    SelectedInSnoc(g, row, c);
    assert (row + cs)[..pos - start] == row && (row + cs)[pos - start..] == cs;
  }

  /** A child's far edge along the scrolling axis: its bottom, or its right edge across. */
  function FarEdge(c: Child, vertical: bool): int {
    if vertical then c.bottom else c.right
  }

  /** A child's near edge along the scrolling axis: its top, or its left edge across. */
  function NearEdge(c: Child, vertical: bool): int {
    if vertical then c.top else c.left
  }

  /**
   * From the top: child `i` starts a line (every `n`-th child from the
   * first) and is the first line start whose far edge reaches `v`.
   */
  predicate FirstLineReaching(cs: seq<Child>, n: int, v: int, vertical: bool, i: int)
    requires n >= 1
  {
    && 0 <= i < |cs| && i % n == 0 && v <= FarEdge(cs[i], vertical)
    && forall j :: 0 <= j < i && j % n == 0 ==> v > FarEdge(cs[j], vertical)
  }

  /** From the top: no line start's far edge reaches `v`. */
  predicate NoLineReaching(cs: seq<Child>, n: int, v: int, vertical: bool)
    requires n >= 1
  {
    forall j :: 0 <= j < |cs| && j % n == 0 ==> v > FarEdge(cs[j], vertical)
  }

  /**
   * Stacked from the bottom: child `i` ends a line (every `n`-th child
   * back from the last) and is the last line end whose near edge is at
   * or before `v`.
   */
  predicate LastLineReached(cs: seq<Child>, n: int, v: int, vertical: bool, i: int)
    requires n >= 1
  {
    && 0 <= i < |cs| && (|cs| - 1 - i) % n == 0 && v >= NearEdge(cs[i], vertical)
    && forall j :: i < j < |cs| && (|cs| - 1 - j) % n == 0 ==> v < NearEdge(cs[j], vertical)
  }

  /** Stacked from the bottom: no line end's near edge is at or before `v`. */
  predicate NoLineReached(cs: seq<Child>, n: int, v: int, vertical: bool)
    requires n >= 1
  {
    forall j :: 0 <= j < |cs| && (|cs| - 1 - j) % n == 0 ==> v < NearEdge(cs[j], vertical)
  }

  /** A child whose view type has a pile, added among children that all do, leaves them all fitting. */
  lemma ViewsFitInsert(typeCount: int, cs: seq<Child>, c: Child, where: int)
    requires ViewsFit(typeCount, cs) && TypeInRange(typeCount, c.view) && 0 <= where <= |cs|
    ensures ViewsFit(typeCount, cs[..where] + [c] + cs[where..])
    ensures ViewsFit(typeCount, cs + [c])
  {
    var all := cs[..where] + [c] + cs[where..];
    forall i | 0 <= i < |all|
      ensures TypeInRange(typeCount, all[i].view)
    {
      if i > where {
        assert all[i] == cs[i - 1];
      }
    }
    assert cs + [c] == cs[..|cs|] + [c] + cs[|cs|..];
    forall i | 0 <= i < |cs| + 1
      ensures TypeInRange(typeCount, (cs + [c])[i].view)
    {
    }
  }

  /** The layout modes whose layout pass places the selection itself rather than defaulting it. */
  predicate PlacesSelection(layoutMode: int) {
    layoutMode in {LAYOUT_SET_SELECTION, LAYOUT_FORCE_TOP, LAYOUT_FORCE_BOTTOM, LAYOUT_SPECIFIC, LAYOUT_SYNC,
                   LAYOUT_MOVE_SELECTION}
  }

  /**
   * The selection layoutChildren commits when the data has not changed,
   * for a pending selection `next`, the layout mode and the number of
   * children before the pass: none when there are no items; the first
   * (or, stacked from the bottom, the last) item when a normal layout
   * starts with no children and a selection can be shown; otherwise the
   * pending selection.
   */
  function LaidOutSelection(next: int, itemCount: int, layoutMode: int, childCount: int, hasAdapter: bool,
                            inTouchMode: bool, stackFromBottom: bool): (s: int)
    ensures itemCount == 0 ==> s == INVALID_POSITION
    ensures itemCount != 0 && (PlacesSelection(layoutMode) || childCount != 0) ==> s == next
    ensures itemCount > 0 && s != next ==> s == INVALID_POSITION || 0 <= s < itemCount
    ensures itemCount > 0 && !PlacesSelection(layoutMode) && childCount == 0 && hasAdapter && !inTouchMode ==>
      0 <= s < itemCount && (s == 0 || s == itemCount - 1)
  {
    if itemCount == 0 then INVALID_POSITION
    else if !PlacesSelection(layoutMode) && childCount == 0 then
      (if !hasAdapter || inTouchMode then INVALID_POSITION else if stackFromBottom then itemCount - 1 else 0)
    else next
  }

  class GridView {
    /** The list state the grid extends. */
    const list: ListView
    /** What the adapter's views measure and which view type each has. */
    const items: seq<Measured>

    /**
     * The grid's invariant, which holds once the adapter has set the view
     * type count: the list's own, and every view the adapter measures for
     * an item has a type the recycler keeps a pile for, so the children
     * the grid places can go to the scrap heap.
     */
    ghost predicate Valid()
      reads list`children, list`scrollStateEvents, list`lastScrollState, list.recycler, list.recycler.active
    {
      && list.Valid()
      && forall m :: m in items ==> TypeInRange(list.recycler.viewTypeCount, View(0, Some(m.viewType)))
    }

    var hasFocus: bool
    var gravity: int
    var stretchMode: int

    var requestedNumColumns: int
    var requestedColumnWidth: int
    var requestedHorizontalSpacing: int
    var requestedVerticalSpacing: int
    var requestedNumRows: int
    var requestedRowHeight: int

    var numColumns: int
    var columnWidth: int
    var horizontalSpacing: int
    var verticalSpacing: int
    var numRows: int
    var rowHeight: int

    /** mReferenceView: the last child of the row made last. */
    var referenceView: Option<Child>

    /** The grid as the field initialisers leave it: columns and rows to be determined, columns stretched, gravity LEFT. */
    constructor(list: ListView, items: seq<Measured>)
      ensures this.list == list && this.items == items
      ensures numColumns == AUTO_FIT && numRows == AUTO_FIT
      ensures horizontalSpacing == 0 && verticalSpacing == 0
      ensures stretchMode == STRETCH_COLUMN_WIDTH && gravity == GRAVITY_LEFT && referenceView == None
    {
      this.list := list;
      this.items := items;
      numColumns := AUTO_FIT;
      numRows := AUTO_FIT;
      horizontalSpacing := 0;
      verticalSpacing := 0;
      stretchMode := STRETCH_COLUMN_WIDTH;
      gravity := GRAVITY_LEFT;
      referenceView := None;
    }

    /** What the vertical builder reads while it places rows. */
    function Snapshot(): Grid
      reads this`numColumns, this`columnWidth, this`horizontalSpacing, this`verticalSpacing, this`gravity,
        this`stretchMode, this`hasFocus
      reads list`stackFromBottom, list`itemCount, list`selectedPosition, list`inTouchMode, list`touchMode
    {
      Grid(numColumns, columnWidth, horizontalSpacing, verticalSpacing, gravity, stretchMode == STRETCH_SPACING_UNIFORM,
           list.stackFromBottom, list.itemCount, list.listPaddingLeft, list.listPaddingTop,
           list.height - list.listPaddingBottom, list.selectedPosition,
           (hasFocus && !list.inTouchMode) || DrawsInPressedState(list.touchMode), items)
    }

    // -------------------------------------------------------------------
    // determineColumns and determineRows

    /**
     * determineColumns(availableSpace): the vertical spacing is the
     * requested one; the number of columns is the one CellsPerLine picks
     * and the column width and horizontal spacing are stretched as the
     * mode says. When the picked count would divide by zero (a requested
     * spacing of minus the requested width) nothing else changes and
     * `ok` is false.
     */
    method DetermineColumns(availableSpace: int) returns (ok: bool)
      modifies this`numColumns, this`columnWidth, this`horizontalSpacing, this`verticalSpacing
      ensures verticalSpacing == requestedVerticalSpacing
      ensures ok <==> CellsPerLine(requestedNumColumns, requestedColumnWidth, requestedHorizontalSpacing, availableSpace).Some?
      ensures ok ==> numColumns == CellsPerLine(requestedNumColumns, requestedColumnWidth, requestedHorizontalSpacing, availableSpace).value
      ensures ok ==> (columnWidth, horizontalSpacing) == Stretch(stretchMode, numColumns, availableSpace,
        requestedColumnWidth, requestedHorizontalSpacing, old(columnWidth), old(horizontalSpacing))
      ensures !ok ==> numColumns == old(numColumns) && columnWidth == old(columnWidth) && horizontalSpacing == old(horizontalSpacing)
    {
      verticalSpacing := requestedVerticalSpacing;
      var count := CellsPerLine(requestedNumColumns, requestedColumnWidth, requestedHorizontalSpacing, availableSpace);
      if count.None? {
        return false;
      }
      numColumns := count.value;
      var stretched := Stretch(stretchMode, numColumns, availableSpace, requestedColumnWidth, requestedHorizontalSpacing,
                               columnWidth, horizontalSpacing);
      columnWidth, horizontalSpacing := stretched.0, stretched.1;
      ok := true;
    }

    /**
     * determineRows(availableSpace), the horizontal builder's mirror: the
     * horizontal spacing is the requested one; the number of rows is the
     * one CellsPerLine picks and the row height and vertical spacing are
     * stretched as the mode says.
     */
    method DetermineRows(availableSpace: int) returns (ok: bool)
      modifies this`numRows, this`rowHeight, this`horizontalSpacing, this`verticalSpacing
      ensures horizontalSpacing == requestedHorizontalSpacing
      ensures ok <==> CellsPerLine(requestedNumRows, requestedRowHeight, requestedVerticalSpacing, availableSpace).Some?
      ensures ok ==> numRows == CellsPerLine(requestedNumRows, requestedRowHeight, requestedVerticalSpacing, availableSpace).value
      ensures ok ==> (rowHeight, verticalSpacing) == Stretch(stretchMode, numRows, availableSpace,
        requestedRowHeight, requestedVerticalSpacing, old(rowHeight), old(verticalSpacing))
      ensures !ok ==> numRows == old(numRows) && rowHeight == old(rowHeight) && verticalSpacing == old(verticalSpacing)
    {
      horizontalSpacing := requestedHorizontalSpacing;
      var count := CellsPerLine(requestedNumRows, requestedRowHeight, requestedVerticalSpacing, availableSpace);
      if count.None? {
        return false;
      }
      numRows := count.value;
      var stretched := Stretch(stretchMode, numRows, availableSpace, requestedRowHeight, requestedVerticalSpacing,
                               rowHeight, verticalSpacing);
      rowHeight, verticalSpacing := stretched.0, stretched.1;
      ok := true;
    }

    // -------------------------------------------------------------------
    // makeAndAddView, makeRow, fillDown, fillUp

    /**
     * makeAndAddView(position, y, flow, childrenLeft, selected, where):
     * the view for `position` is set up as the cell `Cell` describes and
     * added at the end of the children (`where` is -1) or at index
     * `where`; `g` is any grid agreeing with this one on what a cell
     * depends on.
     */
    method MakeAndAddView(position: int, y: int, flow: bool, childrenLeft: int, where: int, ghost g: Grid) returns (child: Child)
      requires where == -1 || 0 <= where <= |list.children|
      requires g.items == items && g.gravity == gravity && g.columnWidth == columnWidth
      requires Valid()
      modifies list`children
      ensures Valid()
      ensures child == Cell(g, position, y, flow, childrenLeft)
      ensures where == -1 ==> list.children == old(list.children) + [child]
      ensures where != -1 ==> list.children == old(list.children)[..where] + [child] + old(list.children)[where..]
    {
      var measured := Measure(items, position);
      var w := measured.width;
      var h := measured.height;
      var childTop := if flow then y else y - h;
      var childLeft := ChildLeft(gravity, childrenLeft, columnWidth, w);
      child := Child(View(position, Some(measured.viewType)), childLeft, childTop, childLeft + w, childTop + h);
      assert TypeInRange(list.recycler.viewTypeCount, child.view) by {
        if 0 <= position < |items| {
          assert items[position] in items;
        }
      }
      ViewsFitInsert(list.recycler.viewTypeCount, list.children, child, if where == -1 then 0 else where);
      if where == -1 {
        list.children := list.children + [child];
      } else {
        list.children := list.children[..where] + [child] + list.children[where..];
      }
    }

    /**
     * makeRow(startPos, y, flow): the cells of the row MadeRow describes,
     * left to right, appended after the children when flowing down and put
     * in front of them otherwise; the reference view becomes the last cell
     * made (none when the row is empty), and the result is the cell
     * showing the selected position when the selection is shown. `g` is
     * the grid as it stands, which making the row leaves unchanged.
     */
    method MakeRow(startPos: int, y: int, flow: bool, ghost g: Grid) returns (selectedView: Option<Child>)
      requires numColumns >= 1 && g == Snapshot()
      requires Valid()
      modifies list`children, this`referenceView
      ensures Valid()
      ensures flow ==> list.children == old(list.children) + MadeRow(g, startPos, y, flow)
      ensures !flow ==> list.children == MadeRow(g, startPos, y, flow) + old(list.children)
      ensures referenceView == LastOf(MadeRow(g, startPos, y, flow))
      ensures selectedView == SelectedIn(g, MadeRow(g, startPos, y, flow))
    {
      ghost var cs0 := list.children;
      var columnWidth, horizontalSpacing := columnWidth, horizontalSpacing;
      // The first position, the position after the last, and where the
      // first cell starts, as RowSpan works them out.
      var span := RowSpan(Snapshot(), startPos);
      var start, last, nextLeft := span.0, span.1, span.2;
      ghost var left := nextLeft;
      selectedView := None;
      var showSelector := (hasFocus && !list.inTouchMode) || DrawsInPressedState(list.touchMode);
      var selectedPosition := list.selectedPosition;
      assert showSelector == g.showsSelection && selectedPosition == g.selected;
      var child: Option<Child> := None;
      var pos := start;
      ghost var row: seq<Child> := [];
      assert row == Row(g, start, pos, y, flow, left);
      while pos < last
        invariant start <= pos <= Max(start, last)
        invariant Valid()
        invariant g.items == items && g.gravity == gravity && g.columnWidth == columnWidth
        invariant row == Row(g, start, pos, y, flow, left) && |row| == pos - start
        invariant list.children == WithRow(cs0, row, flow)
        invariant child == LastOf(row)
        invariant selectedView == SelectedIn(g, row)
        invariant pos < last ==> nextLeft == Steps(left, columnWidth + horizontalSpacing, pos - start)
        decreases last - pos
      {
        var selected := pos == selectedPosition;
        var where := if flow then -1 else pos - start;
        var c := MakeAndAddView(pos, y, flow, nextLeft, where, g);
        RowGrows(g, start, pos, y, flow, left, nextLeft, c, cs0);
        nextLeft := nextLeft + columnWidth;
        if pos < last - 1 {
          nextLeft := nextLeft + horizontalSpacing;
        }
        if selected && showSelector {
          selectedView := Some(c);
        }
        child := Some(c);
        row := row + [c];
        pos := pos + 1;
      }
      assert MadeRow(g, startPos, y, flow) == row;
      referenceView := child;
    }

    /**
     * One pass of fillDown's loop: the row at `pos` made from `nextTop`
     * down, and the top of the row after it, a vertical spacing below the
     * reference view the row leaves.
     */
    method FillDownRow(pos: int, nextTop: int, ghost g: Grid) returns (selectedView: Option<Child>, next: int)
      requires numColumns >= 1 && g == Snapshot() && 0 <= pos < g.itemCount
      requires Valid()
      modifies list`children, this`referenceView
      ensures Valid()
      ensures list.children == old(list.children) + MadeRow(g, pos, nextTop, true)
      ensures referenceView == LastOf(MadeRow(g, pos, nextTop, true))
      ensures selectedView == SelectedIn(g, MadeRow(g, pos, nextTop, true))
      ensures next == RowBottom(g, pos, nextTop) + g.vSpacing
    {
      selectedView := MakeRow(pos, nextTop, true, g);
      MadeRowEnds(g, pos, nextTop, true);
      next := referenceView.value.bottom + verticalSpacing;
    }

    /**
     * One pass of fillUp's loop: the row at `pos` made from `nextBottom`
     * up, the bottom of the row before it, a vertical spacing above the
     * reference view the row leaves, and `pos` as the first position.
     */
    method FillUpRow(pos: int, nextBottom: int, ghost g: Grid) returns (selectedView: Option<Child>, next: int)
      requires numColumns >= 1 && g == Snapshot() && 0 <= pos < g.itemCount
      requires Valid()
      modifies list`children, this`referenceView, list`firstPosition
      ensures Valid()
      ensures list.firstPosition == pos
      ensures list.children == MadeRow(g, pos, nextBottom, false) + old(list.children)
      ensures referenceView == LastOf(MadeRow(g, pos, nextBottom, false))
      ensures selectedView == SelectedIn(g, MadeRow(g, pos, nextBottom, false))
      ensures next == RowTop(g, pos, nextBottom) - g.vSpacing
    {
      selectedView := MakeRow(pos, nextBottom, false, g);
      MadeRowEnds(g, pos, nextBottom, false);
      next := referenceView.value.top - verticalSpacing;
      list.firstPosition := pos;
    }

    /**
     * fillDown(pos, nextTop): the rows FilledDown describes are appended
     * after the children; the reference view is the last child placed, or
     * stays what it was when no row is made; the result is the child the
     * last makeRow that found one returned, which is makeRow's choice over
     * all the children placed.
     */
    method FillDown(pos: int, nextTop: int) returns (selectedView: Option<Child>)
      requires numColumns >= 1 && pos >= 0
      requires Valid()
      modifies list`children, this`referenceView
      ensures Valid()
      ensures list.children == old(list.children) + FilledDown(Snapshot(), pos, nextTop).rows
      ensures referenceView == Later(LastOf(FilledDown(Snapshot(), pos, nextTop).rows), old(referenceView))
      ensures selectedView == SelectedIn(Snapshot(), FilledDown(Snapshot(), pos, nextTop).rows)
    {
      var g := Snapshot();
      ghost var rows0 := FilledDown(g, pos, nextTop).rows;
      ghost var cs0, last0, sel0 := list.children, Later(LastOf(rows0), referenceView), SelectedIn(g, rows0);
      selectedView := None;
      var end := list.height - list.listPaddingBottom;
      var pos, nextTop := pos, nextTop;
      while nextTop < end && pos < list.itemCount
        invariant pos >= 0 && g == Snapshot() && Valid()
        invariant FillingDown(g, pos, nextTop, list.children, referenceView, selectedView, cs0, rows0, last0, sel0)
        decreases list.itemCount - pos
      {
        ghost var cs, ref, sel, pos1, nextTop1 := list.children, referenceView, selectedView, pos, nextTop;
        var temp;
        temp, nextTop := FillDownRow(pos, nextTop, g);
        if temp.Some? {
          selectedView := temp;
        }
        pos := pos + numColumns;
        FillingDownStep(g, pos1, nextTop1, cs, sel, pos, nextTop, list.children, referenceView, selectedView,
                        ref, cs0, rows0, last0, sel0);
      }
      FillingDownDone(g, pos, nextTop, list.children, referenceView, selectedView, cs0, rows0, last0, sel0);
    }

    /**
     * fillUp(pos, nextBottom): the rows FilledUp describes are put in
     * front of the children; the reference view is the last child of the
     * row made last, or stays what it was; the first position becomes the
     * one FirstAfterUp gives; the result is the child the last makeRow
     * that found one returned.
     */
    method FillUp(pos: int, nextBottom: int) returns (selectedView: Option<Child>)
      requires numColumns >= 1 && pos < list.itemCount
      requires Valid()
      modifies list`children, this`referenceView, list`firstPosition
      ensures Valid()
      ensures list.children == FilledUp(Snapshot(), pos, nextBottom).rows + old(list.children)
      ensures referenceView == Later(FilledUpReference(Snapshot(), pos, nextBottom), old(referenceView))
      ensures list.firstPosition == FirstAfterUp(Snapshot(), pos, FilledUp(Snapshot(), pos, nextBottom).next, old(list.firstPosition))
      ensures selectedView == FilledUpSelected(Snapshot(), pos, nextBottom)
    {
      var g := Snapshot();
      ghost var total := FilledUp(g, pos, nextBottom);
      ghost var cs0, first0, pos0 := list.children, list.firstPosition, pos;
      ghost var last0 := Later(FilledUpReference(g, pos, nextBottom), referenceView);
      ghost var sel0 := FilledUpSelected(g, pos, nextBottom);
      selectedView := None;
      var end := list.listPaddingTop;
      var pos, nextBottom := pos, nextBottom;
      while nextBottom > end && pos >= 0
        invariant pos <= pos0 && pos < list.itemCount && g == Snapshot() && Valid()
        invariant FillingUp(g, pos, nextBottom, list.children, referenceView, selectedView, cs0, total.rows, total.next, last0, sel0)
        invariant pos == pos0 ==> list.firstPosition == first0
        invariant pos != pos0 ==> list.firstPosition == pos + numColumns
        decreases pos + 1
      {
        ghost var cs, ref, sel, pos1, nextBottom1 := list.children, referenceView, selectedView, pos, nextBottom;
        var temp;
        temp, nextBottom := FillUpRow(pos, nextBottom, g);
        if temp.Some? {
          selectedView := temp;
        }
        pos := pos - numColumns;
        FillingUpStep(g, pos1, nextBottom1, cs, sel, pos, nextBottom, list.children, referenceView, selectedView,
                      ref, cs0, total.rows, total.next, last0, sel0);
      }
      FillingUpDone(g, pos, nextBottom, list.children, referenceView, selectedView, cs0, total.rows, total.next, last0, sel0);
      if list.stackFromBottom {
        list.firstPosition := Max(0, pos + 1);
      }
    }

    /**
     * fillFromTop(nextTop): the first position is pulled back to the
     * selection and to the last item, up to 0, and back to the start of its
     * row, as TopRowStart says; the rows are then filled down from there.
     */
    method FillFromTop(nextTop: int) returns (selectedView: Option<Child>)
      requires numColumns >= 1
      requires Valid()
      modifies list`firstPosition, list`children, this`referenceView
      ensures Valid()
      ensures list.firstPosition == TopRowStart(old(list.firstPosition), list.selectedPosition, list.itemCount, numColumns)
      ensures list.children == old(list.children) + FilledDown(Snapshot(), list.firstPosition, nextTop).rows
      ensures referenceView == Later(LastOf(FilledDown(Snapshot(), list.firstPosition, nextTop).rows), old(referenceView))
      ensures selectedView == SelectedIn(Snapshot(), FilledDown(Snapshot(), list.firstPosition, nextTop).rows)
    {
      var first := Min(list.firstPosition, list.selectedPosition);
      first := Min(first, list.itemCount - 1);
      if first < 0 {
        first := 0;
      }
      first := first - JRem(first, numColumns);
      assert first == TopRowStart(list.firstPosition, list.selectedPosition, list.itemCount, numColumns);
      list.firstPosition := first;
      selectedView := FillDown(first, nextTop);
    }

    /**
     * fillFromBottom(lastPosition, nextBottom): the last position is pushed
     * on to the selection and back to the last item, then on to the end of
     * its row, as BottomRowEnd says; the rows are then filled up from there.
     */
    method FillFromBottom(lastPosition: int, nextBottom: int) returns (selectedView: Option<Child>)
      requires numColumns >= 1
      requires Valid()
      modifies list`children, this`referenceView, list`firstPosition
      ensures Valid()
      ensures var last := BottomRowEnd(lastPosition, list.selectedPosition, list.itemCount, numColumns);
        list.children == FilledUp(Snapshot(), last, nextBottom).rows + old(list.children)
      ensures var last := BottomRowEnd(lastPosition, list.selectedPosition, list.itemCount, numColumns);
        referenceView == Later(FilledUpReference(Snapshot(), last, nextBottom), old(referenceView))
      ensures var last := BottomRowEnd(lastPosition, list.selectedPosition, list.itemCount, numColumns);
        list.firstPosition == FirstAfterUp(Snapshot(), last, FilledUp(Snapshot(), last, nextBottom).next, old(list.firstPosition))
      ensures var last := BottomRowEnd(lastPosition, list.selectedPosition, list.itemCount, numColumns);
        selectedView == FilledUpSelected(Snapshot(), last, nextBottom)
    {
      var last := Max(lastPosition, list.selectedPosition);
      last := Min(last, list.itemCount - 1);
      var invertedPosition := list.itemCount - 1 - last;
      last := list.itemCount - 1 - (invertedPosition - JRem(invertedPosition, numColumns));
      assert last == BottomRowEnd(lastPosition, list.selectedPosition, list.itemCount, numColumns);
      selectedView := FillUp(last, nextBottom);
    }

    // -------------------------------------------------------------------
    // Corrections after a fill

    /** offsetChildrenTopAndBottom(offset): every child moves by `offset` along the scrolling axis. */
    method OffsetChildrenTopAndBottom(offset: int)
      requires Valid()
      modifies list`children
      ensures Valid()
      ensures list.children == Offset(old(list.children), offset)
    {
      ViewsFitOffset(list.recycler.viewTypeCount, list.children, offset);
      list.children := Offset(list.children, offset);
    }

    /**
     * pinToTop(childrenTop): the children move by PinTopOffset, so that a
     * first item below `childrenTop` comes up to it. The source reads the
     * first child whenever the first item is on screen.
     */
    method PinToTop(childrenTop: int)
      requires list.firstPosition == 0 ==> |list.children| > 0
      requires Valid()
      modifies list`children
      ensures Valid()
      ensures list.children == Offset(old(list.children), PinTopOffset(old(list.children), list.firstPosition, childrenTop))
    {
      OffsetZero(list.children);
      if list.firstPosition == 0 {
        var top := list.children[0].top;
        var offset := childrenTop - top;
        if offset < 0 {
          OffsetChildrenTopAndBottom(offset);
        }
      }
    }

    /**
     * pinToBottom(childrenBottom): the children move by PinBottomOffset, so
     * that a last item above `childrenBottom` comes down to it.
     */
    method PinToBottom(childrenBottom: int)
      requires list.firstPosition + |list.children| == list.itemCount ==> |list.children| > 0
      requires Valid()
      modifies list`children
      ensures Valid()
      ensures list.children
        == Offset(old(list.children), PinBottomOffset(old(list.children), list.firstPosition, list.itemCount, childrenBottom))
    {
      OffsetZero(list.children);
      var count := |list.children|;
      if list.firstPosition + count == list.itemCount {
        var bottom := list.children[count - 1].bottom;
        var offset := childrenBottom - bottom;
        if offset > 0 {
          OffsetChildrenTopAndBottom(offset);
        }
      }
    }

    /** adjustViewsUpOrDown(): the children move up by AdjustDelta. */
    method AdjustViewsUpOrDown()
      requires Valid()
      modifies list`children
      ensures Valid()
      ensures list.children == Offset(old(list.children), -AdjustDelta(Snapshot(), old(list.children), list.firstPosition))
    {
      OffsetZero(list.children);
      var childCount := |list.children|;
      if childCount > 0 {
        var delta;
        if !list.stackFromBottom {
          delta := list.children[0].top - list.listPaddingTop;
          if list.firstPosition != 0 {
            delta := delta - verticalSpacing;
          }
          if delta < 0 {
            delta := 0;
          }
        } else {
          delta := list.children[childCount - 1].bottom - (list.height - list.listPaddingBottom);
          if list.firstPosition + childCount < list.itemCount {
            delta := delta + verticalSpacing;
          }
          if delta > 0 {
            delta := 0;
          }
        }
        if delta != 0 {
          OffsetChildrenTopAndBottom(-delta);
        }
      }
    }

    /**
     * correctTooHigh(numColumns, verticalSpacing, getChildCount()): the
     * children, first position and reference view become those
     * CorrectedTooHigh gives.
     */
    method CorrectTooHigh()
      requires numColumns >= 1
      requires Valid()
      modifies list`children, list`firstPosition, this`referenceView
      ensures Valid()
      ensures (list.children, list.firstPosition, referenceView)
        == CorrectedTooHigh(Snapshot(), old(list.children), old(list.firstPosition), old(referenceView))
    {
      var g := Snapshot();
      ghost var cs, first, reference := list.children, list.firstPosition, referenceView;
      var bottomOffset := TooHighShift(g, list.children, list.firstPosition);
      if bottomOffset > 0 {
        OffsetChildrenTopAndBottom(bottomOffset);
        if list.firstPosition > 0 {
          FillAboveMoved(cs, reference, bottomOffset, g);
          return;
        }
      }
      TooHighWithoutFill(g, cs, first, reference);
    }

    /**
     * correctTooLow(numColumns, verticalSpacing, getChildCount()): the
     * children and reference view become those CorrectedTooLow gives; the
     * first position stays.
     */
    method CorrectTooLow()
      requires numColumns >= 1
      requires Valid()
      modifies list`children, this`referenceView
      ensures Valid()
      ensures (list.children, list.firstPosition, referenceView)
        == CorrectedTooLow(Snapshot(), old(list.children), list.firstPosition, old(referenceView))
    {
      var g := Snapshot();
      ghost var cs, first, reference := list.children, list.firstPosition, referenceView;
      var topOffset := TooLowShift(g, list.children, list.firstPosition);
      if topOffset > 0 {
        var childCount := |list.children|;
        var lastPosition := list.firstPosition + childCount - 1;
        OffsetChildrenTopAndBottom(-topOffset);
        if lastPosition < list.itemCount - 1 {
          FillBelowMoved(cs, reference, topOffset, g);
          return;
        }
      }
      TooLowWithoutFill(g, cs, first, reference);
    }

    /**
     * correctTooHigh once the children `cs` have moved down by the shift
     * and items are hidden above: the row before the first child is filled
     * in up from above it, and the children are adjusted.
     */
    method FillAboveMoved(ghost cs: seq<Child>, ghost reference: Option<Child>, bottomOffset: int, ghost g: Grid)
      requires Valid() && numColumns >= 1 && g == Snapshot() && referenceView == reference
      requires bottomOffset == TooHighShift(g, cs, list.firstPosition) && bottomOffset > 0 && list.firstPosition > 0
      requires list.children == Offset(cs, bottomOffset)
      modifies list`children, list`firstPosition, this`referenceView
      ensures Valid()
      ensures (list.children, list.firstPosition, referenceView) == CorrectedTooHigh(g, cs, old(list.firstPosition), reference)
    {
      ghost var first := list.firstPosition;
      OffsetAt(cs, bottomOffset, 0);
      var pos := list.firstPosition - (if list.stackFromBottom then 1 else numColumns);
      var nextBottom := list.children[0].top - verticalSpacing;
      ghost var moved := list.children;
      FillAboveAndAdjust(pos, nextBottom, g);
      CorrectedTooHighFills(g, cs, first, reference, bottomOffset, pos, nextBottom,
                            FilledUp(g, pos, nextBottom).rows + moved, list.firstPosition, referenceView, list.children);
    }

    /**
     * correctTooLow once the children `cs` have moved up by the shift and
     * items are hidden below: the row after the last child is filled in
     * down from below it, and the children are adjusted.
     */
    method FillBelowMoved(ghost cs: seq<Child>, ghost reference: Option<Child>, topOffset: int, ghost g: Grid)
      requires Valid() && numColumns >= 1 && g == Snapshot() && referenceView == reference
      requires topOffset == TooLowShift(g, cs, list.firstPosition) && topOffset > 0
      requires list.firstPosition + |cs| - 1 < list.itemCount - 1
      requires list.children == Offset(cs, -topOffset)
      modifies list`children, this`referenceView
      ensures Valid()
      ensures (list.children, list.firstPosition, referenceView) == CorrectedTooLow(g, cs, list.firstPosition, reference)
    {
      var childCount := |list.children|;
      var lastPosition := list.firstPosition + childCount - 1;
      OffsetAt(cs, -topOffset, childCount - 1);
      var pos := lastPosition + (if !list.stackFromBottom then 1 else numColumns);
      var nextTop := list.children[childCount - 1].bottom + verticalSpacing;
      ghost var moved := list.children;
      FillBelowAndAdjust(pos, nextTop, g);
      CorrectedTooLowFills(g, cs, list.firstPosition, reference, topOffset, pos, nextTop,
                           moved + FilledDown(g, pos, nextTop).rows, referenceView, list.children);
    }

    /** The tail of correctTooHigh: rows filled in above the children, then adjustViewsUpOrDown. */
    method FillAboveAndAdjust(pos: int, nextBottom: int, ghost g: Grid)
      requires numColumns >= 1 && pos < list.itemCount && g == Snapshot()
      requires Valid()
      modifies list`children, this`referenceView, list`firstPosition
      ensures Valid()
      ensures list.firstPosition == FirstAfterUp(g, pos, FilledUp(g, pos, nextBottom).next, old(list.firstPosition))
      ensures var all := FilledUp(g, pos, nextBottom).rows + old(list.children);
        list.children == Offset(all, -AdjustDelta(g, all, list.firstPosition))
      ensures referenceView == Later(FilledUpReference(g, pos, nextBottom), old(referenceView))
    {
      ghost var cs := list.children;
      var _ := FillUp(pos, nextBottom);
      assert Snapshot() == g && list.children == FilledUp(g, pos, nextBottom).rows + cs;
      AdjustViewsUpOrDown();
    }

    /** The tail of correctTooLow: rows filled in below the children, then adjustViewsUpOrDown. */
    method FillBelowAndAdjust(pos: int, nextTop: int, ghost g: Grid)
      requires numColumns >= 1 && pos >= 0 && g == Snapshot()
      requires Valid()
      modifies list`children, this`referenceView
      ensures Valid()
      ensures var all := old(list.children) + FilledDown(g, pos, nextTop).rows;
        list.children == Offset(all, -AdjustDelta(g, all, list.firstPosition))
      ensures referenceView == Later(LastOf(FilledDown(g, pos, nextTop).rows), old(referenceView))
    {
      ghost var cs := list.children;
      var _ := FillDown(pos, nextTop);
      assert Snapshot() == g && list.children == cs + FilledDown(g, pos, nextTop).rows;
      AdjustViewsUpOrDown();
    }

    /**
     * fillGap(down): rows are filled in after the last child (or from the
     * top padding) and correctTooHigh follows, or before the first child
     * (or from the bottom padding) and correctTooLow follows, as GapFilled
     * says.
     */
    method FillGap(down: bool)
      requires numColumns >= 1 && 0 <= list.firstPosition <= list.itemCount
      requires Valid()
      modifies list`children, list`firstPosition, this`referenceView
      ensures Valid()
      ensures (list.children, list.firstPosition, referenceView)
        == GapFilled(Snapshot(), down, old(list.children), old(list.firstPosition), old(referenceView))
    {
      ghost var g, cs, first, reference := Snapshot(), list.children, list.firstPosition, referenceView;
      var count := |list.children|;
      if down {
        var startOffset := if count > 0 then list.children[count - 1].bottom + verticalSpacing else list.listPaddingTop;
        var position := list.firstPosition + count;
        if list.stackFromBottom {
          position := position + numColumns - 1;
        }
        var _ := FillDown(position, startOffset);
        assert Snapshot() == g;
        ghost var cs1, ref1 := list.children, referenceView;
        CorrectTooHigh();
        assert Snapshot() == g;
        GapFilledDown(g, cs, first, reference, position, startOffset, cs1, ref1, (list.children, list.firstPosition, referenceView));
        assert down;
      } else {
        var startOffset := if count > 0 then list.children[0].top - verticalSpacing else list.height - list.listPaddingBottom;
        var position := list.firstPosition;
        if !list.stackFromBottom {
          position := position - numColumns;
        } else {
          position := position - 1;
        }
        var _ := FillUp(position, startOffset);
        assert Snapshot() == g;
        ghost var cs1, first1, ref1 := list.children, list.firstPosition, referenceView;
        CorrectTooLow();
        assert Snapshot() == g;
        GapFilledUp(g, cs, first, reference, position, startOffset, cs1, first1, ref1, (list.children, list.firstPosition, referenceView));
      }
    }

    // -------------------------------------------------------------------
    // findMotionRowY and findMotionRowX

    /**
     * findMotionRowY(y): from the top, the position of the first line
     * start whose bottom is at or below `y`; stacked from the bottom, the
     * position of the last line end whose top is at or above `y`;
     * INVALID_POSITION when there is none.
     */
    method FindMotionRowY(y: int) returns (r: int)
      requires numColumns >= 1
      ensures var cs, first, n := list.children, list.firstPosition, numColumns;
        && (!list.stackFromBottom ==>
              FirstLineReaching(cs, n, y, true, r - first) || (NoLineReaching(cs, n, y, true) && r == INVALID_POSITION))
        && (list.stackFromBottom ==>
              LastLineReached(cs, n, y, true, r - first) || (NoLineReached(cs, n, y, true) && r == INVALID_POSITION))
    {
      var childCount := |list.children|;
      if childCount > 0 {
        var numColumns := numColumns;
        if !list.stackFromBottom {
          var i := 0;
          while i < childCount
            invariant 0 <= i && i % numColumns == 0
            invariant forall j :: 0 <= j < i && j < childCount && j % numColumns == 0 ==> y > FarEdge(list.children[j], true)
            decreases childCount - i
          {
            if y <= list.children[i].bottom {
              return list.firstPosition + i;
            }
            NextMultiple(i, numColumns);
            i := i + numColumns;
          }
        } else {
          var i := childCount - 1;
          while i >= 0
            invariant i < childCount && (childCount - 1 - i) % numColumns == 0
            invariant forall j :: i < j < childCount && 0 <= j && (childCount - 1 - j) % numColumns == 0 ==> y < NearEdge(list.children[j], true)
            decreases i + 1
          {
            if y >= list.children[i].top {
              return list.firstPosition + i;
            }
            NextMultiple(childCount - 1 - i, numColumns);
            i := i - numColumns;
          }
        }
      }
      return INVALID_POSITION;
    }

    /**
     * findMotionRowX(x): the horizontal builder's mirror, with columns of
     * numRows children: from the left, the position of the first column
     * start whose right edge is at or after `x`; stacked from the bottom,
     * the position of the last column end whose left edge is at or before
     * `x`; INVALID_POSITION when there is none.
     */
    method FindMotionRowX(x: int) returns (r: int)
      requires numRows >= 1
      ensures var cs, first, n := list.children, list.firstPosition, numRows;
        && (!list.stackFromBottom ==>
              FirstLineReaching(cs, n, x, false, r - first) || (NoLineReaching(cs, n, x, false) && r == INVALID_POSITION))
        && (list.stackFromBottom ==>
              LastLineReached(cs, n, x, false, r - first) || (NoLineReached(cs, n, x, false) && r == INVALID_POSITION))
    {
      var childCount := |list.children|;
      if childCount > 0 {
        var numRows := numRows;
        if !list.stackFromBottom {
          var i := 0;
          while i < childCount
            invariant 0 <= i && i % numRows == 0
            invariant forall j :: 0 <= j < i && j < childCount && j % numRows == 0 ==> x > FarEdge(list.children[j], false)
            decreases childCount - i
          {
            if x <= list.children[i].right {
              return list.firstPosition + i;
            }
            NextMultiple(i, numRows);
            i := i + numRows;
          }
        } else {
          var i := childCount - 1;
          while i >= 0
            invariant i < childCount && (childCount - 1 - i) % numRows == 0
            invariant forall j :: i < j < childCount && 0 <= j && (childCount - 1 - j) % numRows == 0 ==> x < NearEdge(list.children[j], false)
            decreases i + 1
          {
            if x >= list.children[i].left {
              return list.firstPosition + i;
            }
            NextMultiple(childCount - 1 - i, numRows);
            i := i - numRows;
          }
        }
      }
      return INVALID_POSITION;
    }

    // -------------------------------------------------------------------
    // Keyboard navigation

    /**
     * What setSelectionInt leaves once its layout pass is over, for the
     * requested `position` and the layout mode `mode` the pass starts
     * with: no sync and no data change pending, and the pending selection
     * equal to the selection. With no items the list is reset: no
     * selection, no children, the first position 0, and the layout mode
     * handleDataChanged forced when the data changed. With items the
     * layout mode is back to normal and the children are the layout's
     * own (not modelled). When the data had not changed the selection is
     * LaidOutSelection's; after a change it is the position asked for,
     * handleDataChanged's choice, or none.
     */
    twostate predicate SelectionLaidOut(position: int, mode: int)
      reads list
    {
      && !list.dataChanged && !list.needSync && list.nextSelectedPosition == list.selectedPosition
      && (list.itemCount == 0 ==>
            && list.selectedPosition == INVALID_POSITION && list.firstPosition == 0 && list.children == []
            && list.selectedTop == 0
            && list.layoutMode == if !old(list.dataChanged) then mode
                                  else if list.stackFromBottom then LAYOUT_FORCE_BOTTOM else LAYOUT_FORCE_TOP)
      && (list.itemCount != 0 ==>
            && list.layoutMode == LAYOUT_NORMAL && list.firstPosition == old(list.firstPosition)
            && list.children == old(list.children) && list.selectedTop == old(list.selectedTop))
      && (!old(list.dataChanged) ==>
            && list.syncPosition == old(list.syncPosition)
            && list.selectedPosition == LaidOutSelection(position, list.itemCount, mode, |old(list.children)|,
                                                         list.hasAdapter, list.inTouchMode, list.stackFromBottom))
      && (old(list.dataChanged) && list.itemCount > 0 ==>
            list.selectedPosition == position || list.selectedPosition == INVALID_POSITION
            || 0 <= list.selectedPosition < list.itemCount)
    }

    /**
     * The handleDataChanged step of a layout pass, by what it does to the
     * selection: with no items the mode is forced to an end and nothing
     * is selected or pending; otherwise a pending selection it changes
     * becomes none or an item.
     */
    method HandleDataChangedInLayout(foundSyncPosition: int)
      modifies list`needSync, list`layoutMode, list`syncPosition, list`nextSelectedPosition, list`selectedPosition
      ensures list.itemCount == 0 ==>
        && list.layoutMode == (if list.stackFromBottom then LAYOUT_FORCE_BOTTOM else LAYOUT_FORCE_TOP)
        && list.nextSelectedPosition == INVALID_POSITION
      ensures list.itemCount > 0 ==>
        list.nextSelectedPosition == old(list.nextSelectedPosition) || list.nextSelectedPosition == INVALID_POSITION
        || 0 <= list.nextSelectedPosition < list.itemCount
    {
      list.HandleDataChanged(foundSyncPosition);
    }

    /**
     * setSelectionInt(position): the position becomes the next selected
     * one and layoutChildren runs. Of that pass the model keeps what it
     * does to the selection: after a data change it first runs
     * handleDataChanged (`foundSyncPosition` is what the adapter view's
     * findSyncPosition returns); with no items it resets the list
     * (resetList); otherwise it commits the pending selection, which a
     * normal layout starting with no children replaces by the first or
     * last item (none in touch mode or without an adapter); at the end
     * the layout mode is normal, nothing is pending and the pending
     * selection is the selection.
     */
    method SetSelectionInt(position: int, foundSyncPosition: int)
      requires Valid()
      modifies list`nextSelectedPosition, list`selectedPosition, list`dataChanged, list`needSync, list`layoutMode,
        list`syncPosition, list`firstPosition, list`children, list`selectedTop
      ensures Valid()
      ensures SelectionLaidOut(position, old(list.layoutMode))
    {
      list.nextSelectedPosition := position;
      var childCount := |list.children|;
      if list.dataChanged {
        HandleDataChangedInLayout(foundSyncPosition);
      }
      if list.itemCount == 0 {
        list.ResetList();
        return;
      }
      CommitSelection(childCount);
    }

    /**
     * The end of a layout pass over items: the pending selection becomes
     * the selection, except that a normal layout that started with
     * `childCount` zero selects the first item (the last stacked from the
     * bottom), or nothing in touch mode or without an adapter; then the
     * layout mode is normal, nothing is pending and the pending selection
     * is the selection.
     */
    method CommitSelection(childCount: int)
      requires list.itemCount != 0
      modifies list`selectedPosition, list`layoutMode, list`dataChanged, list`needSync, list`nextSelectedPosition
      ensures list.layoutMode == LAYOUT_NORMAL && !list.dataChanged && !list.needSync
      ensures list.nextSelectedPosition == list.selectedPosition
      ensures list.selectedPosition == LaidOutSelection(old(list.nextSelectedPosition), list.itemCount, old(list.layoutMode),
                                                        childCount, list.hasAdapter, list.inTouchMode, list.stackFromBottom)
    {
      list.selectedPosition := list.nextSelectedPosition;
      if !PlacesSelection(list.layoutMode) && childCount == 0 {
        list.selectedPosition :=
          if !list.hasAdapter || list.inTouchMode then INVALID_POSITION
          else if list.stackFromBottom then list.itemCount - 1
          else 0;
      }
      list.layoutMode := LAYOUT_NORMAL;
      list.dataChanged := false;
      list.needSync := false;
      list.nextSelectedPosition := list.selectedPosition;
    }

    /**
     * How arrowScroll moves the selection to `target`: the layout mode
     * becomes LAYOUT_MOVE_SELECTION and setSelectionInt runs, so with
     * items and unchanged data the target is selected.
     */
    method MoveSelectionTo(target: int, foundSyncPosition: int)
      requires Valid()
      modifies list`layoutMode, list`nextSelectedPosition, list`selectedPosition, list`dataChanged, list`needSync,
        list`syncPosition, list`firstPosition, list`children, list`selectedTop
      ensures Valid()
      ensures SelectionLaidOut(target, LAYOUT_MOVE_SELECTION)
      ensures !old(list.dataChanged) && list.itemCount != 0 ==> list.selectedPosition == target
    {
      list.layoutMode := LAYOUT_MOVE_SELECTION;
      SetSelectionInt(target, foundSyncPosition);
    }

    /**
     * The vertical builder's arrowScroll(direction): it moves exactly when
     * ArrowTarget names a position, and then sets the layout mode to
     * LAYOUT_MOVE_SELECTION and selects that position; otherwise nothing
     * changes.
     */
    method ArrowScroll(direction: int, foundSyncPosition: int) returns (moved: bool)
      requires numColumns >= 1 && Valid()
      modifies list`layoutMode, list`nextSelectedPosition, list`selectedPosition, list`dataChanged, list`needSync,
        list`syncPosition, list`firstPosition, list`children, list`selectedTop
      ensures Valid()
      ensures var t := ArrowTarget(old(list.selectedPosition), numColumns, list.itemCount, list.stackFromBottom, direction);
        && (moved <==> t.Some?)
        && (moved ==> SelectionLaidOut(t.value, LAYOUT_MOVE_SELECTION))
        && (moved && !old(list.dataChanged) && list.itemCount != 0 ==> list.selectedPosition == t.value)
        && (!moved ==> unchanged(list`layoutMode, list`nextSelectedPosition, list`selectedPosition, list`dataChanged, list`needSync,
                               list`syncPosition, list`firstPosition, list`children, list`selectedTop))
    {
      var target;
      moved, target := ArrowMove(direction);
      if moved {
        MoveSelectionTo(target, foundSyncPosition);
      }
    }

    /** arrowScroll's choice, before anything changes: whether the selection moves in `direction` and to which position. */
    method ArrowMove(direction: int) returns (moved: bool, target: int)
      requires numColumns >= 1
      ensures var t := ArrowTarget(list.selectedPosition, numColumns, list.itemCount, list.stackFromBottom, direction);
        (moved <==> t.Some?) && (moved ==> target == t.value)
    {
      var selectedPosition := list.selectedPosition;
      var numColumns := numColumns;
      var startOfRowPos, endOfRowPos;
      if !list.stackFromBottom {
        startOfRowPos := JDiv(selectedPosition, numColumns) * numColumns;
        endOfRowPos := Min(startOfRowPos + numColumns - 1, list.itemCount - 1);
      } else {
        var invertedSelection := list.itemCount - 1 - selectedPosition;
        endOfRowPos := list.itemCount - 1 - JDiv(invertedSelection, numColumns) * numColumns;
        startOfRowPos := Max(0, endOfRowPos - numColumns + 1);
      }
      assert (startOfRowPos, endOfRowPos) == LineBounds(selectedPosition, numColumns, list.itemCount, list.stackFromBottom);
      // the branch that applies decides whether to move and to which position
      target := selectedPosition;
      moved := false;
      if direction == FOCUS_UP {
        if startOfRowPos > 0 {
          target := Max(0, selectedPosition - numColumns);
          moved := true;
        }
      } else if direction == FOCUS_DOWN {
        if endOfRowPos < list.itemCount - 1 {
          target := Min(selectedPosition + numColumns, list.itemCount - 1);
          moved := true;
        }
      } else if direction == FOCUS_LEFT {
        if selectedPosition > startOfRowPos {
          target := Max(0, selectedPosition - 1);
          moved := true;
        }
      } else if direction == FOCUS_RIGHT {
        if selectedPosition < endOfRowPos {
          target := Min(selectedPosition + 1, list.itemCount - 1);
          moved := true;
        }
      }
    }

    /**
     * The horizontal builder's arrowScroll(direction), with RIGHT testing
     * the end of the selected column against the last item, as the
     * vertical builder's DOWN does: it moves exactly when
     * ArrowTargetHorizontal names a position, and then sets the layout
     * mode to LAYOUT_MOVE_SELECTION and selects that position; otherwise
     * nothing changes.
     */
    method ArrowScrollHorizontal(direction: int, foundSyncPosition: int) returns (moved: bool)
      requires numRows >= 1 && Valid()
      modifies list`layoutMode, list`nextSelectedPosition, list`selectedPosition, list`dataChanged, list`needSync,
        list`syncPosition, list`firstPosition, list`children, list`selectedTop
      ensures Valid()
      ensures var t := ArrowTargetHorizontal(old(list.selectedPosition), numRows, list.itemCount, list.stackFromBottom, direction);
        && (moved <==> t.Some?)
        && (moved ==> SelectionLaidOut(t.value, LAYOUT_MOVE_SELECTION))
        && (moved && !old(list.dataChanged) && list.itemCount != 0 ==> list.selectedPosition == t.value)
        && (!moved ==> unchanged(list`layoutMode, list`nextSelectedPosition, list`selectedPosition, list`dataChanged, list`needSync,
                               list`syncPosition, list`firstPosition, list`children, list`selectedTop))
    {
      var target;
      moved, target := ArrowMoveHorizontal(direction);
      if moved {
        MoveSelectionTo(target, foundSyncPosition);
      }
    }

    /** The horizontal builder's arrowScroll choice, with the corrected RIGHT test. */
    method ArrowMoveHorizontal(direction: int) returns (moved: bool, target: int)
      requires numRows >= 1
      ensures var t := ArrowTargetHorizontal(list.selectedPosition, numRows, list.itemCount, list.stackFromBottom, direction);
        (moved <==> t.Some?) && (moved ==> target == t.value)
    {
      var selectedPosition := list.selectedPosition;
      var numRows := numRows;
      var startOfColumnPos, endOfColumnPos;
      if !list.stackFromBottom {
        startOfColumnPos := JDiv(selectedPosition, numRows) * numRows;
        endOfColumnPos := Min(startOfColumnPos + numRows - 1, list.itemCount - 1);
      } else {
        var invertedSelection := list.itemCount - 1 - selectedPosition;
        endOfColumnPos := list.itemCount - 1 - JDiv(invertedSelection, numRows) * numRows;
        startOfColumnPos := Max(0, endOfColumnPos - numRows + 1);
      }
      assert (startOfColumnPos, endOfColumnPos) == LineBounds(selectedPosition, numRows, list.itemCount, list.stackFromBottom);
      // the branch that applies decides whether to move and to which position
      target := selectedPosition;
      moved := false;
      if direction == FOCUS_LEFT {
        if startOfColumnPos > 0 {
          target := Max(0, selectedPosition - numRows);
          moved := true;
        }
      } else if direction == FOCUS_RIGHT {
        if endOfColumnPos < list.itemCount - 1 {
          target := Min(selectedPosition + numRows, list.itemCount - 1);
          moved := true;
        }
      } else if direction == FOCUS_UP {
        if selectedPosition > startOfColumnPos {
          target := Max(0, selectedPosition - 1);
          moved := true;
        }
      } else if direction == FOCUS_DOWN {
        if selectedPosition < endOfColumnPos {
          target := Min(selectedPosition + 1, list.itemCount - 1);
          moved := true;
        }
      }
    }

    /**
     * pageScroll(direction): it moves exactly when PageTarget is a
     * position, which it then selects; the layout mode stays.
     */
    method PageScroll(direction: int, foundSyncPosition: int) returns (moved: bool)
      requires Valid()
      modifies list`layoutMode, list`nextSelectedPosition, list`selectedPosition, list`dataChanged, list`needSync,
        list`syncPosition, list`firstPosition, list`children, list`selectedTop
      ensures Valid()
      ensures var t := PageTarget(old(list.selectedPosition), |old(list.children)|, list.itemCount, direction);
        && (moved <==> t >= 0)
        && (moved ==> SelectionLaidOut(t, old(list.layoutMode)))
        && (!moved ==> unchanged(list`layoutMode, list`nextSelectedPosition, list`selectedPosition, list`dataChanged, list`needSync,
                               list`syncPosition, list`firstPosition, list`children, list`selectedTop))
    {
      var nextPage := -1;
      if direction == FOCUS_UP {
        nextPage := Max(0, list.selectedPosition - |list.children| - 1);
      } else if direction == FOCUS_DOWN {
        nextPage := Min(list.itemCount - 1, list.selectedPosition + |list.children| - 1);
      }
      if nextPage >= 0 {
        SetSelectionInt(nextPage, foundSyncPosition);
        return true;
      }
      return false;
    }

    /**
     * fullScroll(direction): UP selects the first item and DOWN the last,
     * with the layout mode set to LAYOUT_SET_SELECTION; any other direction
     * changes nothing and reports no move.
     */
    method FullScroll(direction: int, foundSyncPosition: int) returns (moved: bool)
      requires Valid()
      modifies list`layoutMode, list`nextSelectedPosition, list`selectedPosition, list`dataChanged, list`needSync,
        list`syncPosition, list`firstPosition, list`children, list`selectedTop
      ensures Valid()
      ensures moved <==> direction == FOCUS_UP || direction == FOCUS_DOWN
      ensures var t := if direction == FOCUS_UP then 0 else list.itemCount - 1;
        && (moved ==> SelectionLaidOut(t, LAYOUT_SET_SELECTION))
        && (moved && !old(list.dataChanged) && list.itemCount != 0 ==> list.selectedPosition == t)
      ensures !moved ==> unchanged(list`layoutMode, list`nextSelectedPosition, list`selectedPosition, list`dataChanged, list`needSync,
                             list`syncPosition, list`firstPosition, list`children, list`selectedTop)
    {
      moved := false;
      if direction == FOCUS_UP {
        list.layoutMode := LAYOUT_SET_SELECTION;
        SetSelectionInt(0, foundSyncPosition);
        moved := true;
      } else if direction == FOCUS_DOWN {
        list.layoutMode := LAYOUT_SET_SELECTION;
        SetSelectionInt(list.itemCount - 1, foundSyncPosition);
        moved := true;
      }
    }
  }
}
