/*
 * The integer arithmetic of TwoWayGridView that does not depend on the
 * children on screen: how many columns (rows) fit and how the leftover
 * space is shared, the measured size under an AT_MOST constraint, the
 * scroll range, the edges a selection may be drawn between, gravity
 * inside a cell, and keyboard navigation over item positions.
 *
 * The vertical grid lays items out row by row, `perLine` = numColumns to a
 * row; the horizontal grid column by column, `perLine` = numRows to a
 * column. "Stack from bottom" aligns the rows to the last item instead of
 * the first: a row is then counted from the end, through the inverted
 * position count - 1 - position.
 */
module GridGeometry {
  import opened JavaLang

  const INVALID_POSITION: int := -1

  // android.view.View focus directions
  const FOCUS_BACKWARD: int := 1
  const FOCUS_FORWARD: int := 2
  const FOCUS_LEFT: int := 17
  const FOCUS_UP: int := 33
  const FOCUS_RIGHT: int := 66
  const FOCUS_DOWN: int := 130

  // android.view.Gravity
  const GRAVITY_CENTER_HORIZONTAL: int := 0x01
  const GRAVITY_LEFT: int := 0x03
  const GRAVITY_RIGHT: int := 0x05
  const GRAVITY_CENTER_VERTICAL: int := 0x10
  const GRAVITY_TOP: int := 0x30
  const GRAVITY_BOTTOM: int := 0x50

  const AUTO_FIT: int := -1
  const NO_STRETCH: int := 0
  const STRETCH_SPACING: int := 1
  const STRETCH_COLUMN_WIDTH: int := 2
  const STRETCH_SPACING_UNIFORM: int := 3

  /** `gravity & Gravity.HORIZONTAL_GRAVITY_MASK` (0x07) on a two's complement int. */
  function HorizontalGravity(gravity: int): int { gravity % 8 }

  /** `gravity & Gravity.VERTICAL_GRAVITY_MASK` (0x70) on a two's complement int. */
  function VerticalGravity(gravity: int): (r: int)
    ensures 0 <= r < 128 && r % 16 == 0
  {
    var k := gravity % 128 / 16;
    assert 0 <= k < 8;
    k * 16
  }

  /**
   * lookForSelectablePosition: every item of a grid is selectable, so a
   * position is kept when it is an item's and the grid is attached to an
   * adapter and not in touch mode; anything else is INVALID_POSITION.
   */
  function LookForSelectablePosition(position: int, hasAdapter: bool, inTouchMode: bool, itemCount: int): (r: int)
    ensures hasAdapter && !inTouchMode && 0 <= position < itemCount ==> r == position
    ensures !(hasAdapter && !inTouchMode && 0 <= position < itemCount) ==> r == INVALID_POSITION
  {
    if !hasAdapter || inTouchMode then INVALID_POSITION
    else if position < 0 || position >= itemCount then INVALID_POSITION
    else position
  }

  // ---------------------------------------------------------------------
  // determineColumns / determineRows

  /**
   * How many cells go on a line. AUTO_FIT with a positive requested cell
   * size fits as many cells (with their spacing) as the space allows;
   * AUTO_FIT without one picks 2; otherwise the requested count is used.
   * Anything below one becomes one. `None` is the ArithmeticException of
   * a zero divisor (a spacing equal to minus the cell size).
   */
  function CellsPerLine(requested: int, cellSize: int, spacing: int, available: int): (r: Option<int>)
    ensures r.None? <==> requested == AUTO_FIT && cellSize > 0 && cellSize + spacing == 0
    ensures r.Some? ==> r.value >= 1
    ensures requested != AUTO_FIT ==> r == Some(if requested <= 0 then 1 else requested)
    ensures requested == AUTO_FIT && cellSize <= 0 ==> r == Some(2)
    ensures requested == AUTO_FIT && cellSize > 0 && cellSize + spacing > 0 && r.Some? ==>
      (r.value == 1 || r.value * cellSize + (r.value - 1) * spacing <= available)
      && (r.value + 1) * cellSize + r.value * spacing > available
  {
    var n :=
      if requested == AUTO_FIT then
        if cellSize > 0 then
          if cellSize + spacing == 0 then None
          else Some(FitCount(available, cellSize, spacing))
        else Some(2)
      else Some(requested);
    if n.Some? && n.value <= 0 then Some(1) else n
  }

  /** `(available + spacing) / (cellSize + spacing)` in Java's arithmetic. */
  function FitCount(available: int, cellSize: int, spacing: int): (q: int)
    requires cellSize + spacing != 0
    ensures cellSize + spacing > 0 && q >= 1 ==> q * cellSize + (q - 1) * spacing <= available
    ensures cellSize + spacing > 0 ==> (Max(q, 1) + 1) * cellSize + Max(q, 1) * spacing > available
  {
    var q := JDiv(available + spacing, cellSize + spacing);
    FitCountBounds(available, cellSize, spacing, q);
    q
  }

  lemma FitCountBounds(available: int, cellSize: int, spacing: int, q: int)
    requires cellSize + spacing != 0 && q == JDiv(available + spacing, cellSize + spacing)
    ensures cellSize + spacing > 0 && q >= 1 ==> q * cellSize + (q - 1) * spacing <= available
    ensures cellSize + spacing > 0 ==> (Max(q, 1) + 1) * cellSize + Max(q, 1) * spacing > available
  {
    var s := cellSize + spacing;
    if s > 0 {
      var m := Max(q, 1);
      LineSpan(q, cellSize, spacing);
      LineSpan(m, cellSize, spacing);
      if q >= 1 {
        MulLe(1, q, s);
      } else {
        MulLe(q, 0, s);
      }
    }
  }

  /** `k` cells with a spacing between each two, and one cell more. */
  lemma LineSpan(k: int, cellSize: int, spacing: int)
    ensures k * cellSize + (k - 1) * spacing == (cellSize + spacing) * k - spacing
    ensures (k + 1) * cellSize + k * spacing == (cellSize + spacing) * k + cellSize
  {
  }

  /**
   * The cell size and spacing after stretching `n` cells over `available`
   * pixels. The leftover space is what the requested sizes leave; Java
   * divides it truncating toward zero, so the line misses the available
   * space by less than one pixel per share. An unknown mode keeps the
   * previous size and spacing.
   */
  function Stretch(mode: int, n: int, available: int, cellSize: int, spacing: int,
                   oldCellSize: int, oldSpacing: int): (r: (int, int))
    requires n >= 1
    ensures mode == NO_STRETCH ==> r == (cellSize, spacing)
    ensures mode == STRETCH_COLUMN_WIDTH ==>
      var used := n * r.0 + (n - 1) * spacing;
      && r.1 == spacing
      && Abs(available - used) < n
      && (n * cellSize + (n - 1) * spacing <= available ==> used <= available)
      && (n * cellSize + (n - 1) * spacing >= available ==> used >= available)
    ensures mode == STRETCH_SPACING ==>
      && r.0 == cellSize
      && (n > 1 ==> Abs(available - (n * cellSize + (n - 1) * r.1)) < n - 1)
      && (n == 1 ==> r.1 == spacing + available - cellSize)
    ensures mode == STRETCH_SPACING_UNIFORM ==>
      && r.0 == cellSize
      && (n > 1 ==> Abs(available - (n * cellSize + (n + 1) * r.1)) < n + 1)
      && (n == 1 ==> Abs((available - cellSize) - 2 * r.1) < 2)
    ensures mode !in {NO_STRETCH, STRETCH_SPACING, STRETCH_COLUMN_WIDTH, STRETCH_SPACING_UNIFORM} ==>
      r == (oldCellSize, oldSpacing)
  {
    if mode == NO_STRETCH then (cellSize, spacing)
    else if mode == STRETCH_COLUMN_WIDTH then
      (StretchedCell(n, available, cellSize, spacing), spacing)
    else if mode == STRETCH_SPACING then
      (cellSize, StretchedGaps(n, n - 1, available - n * cellSize, spacing))
    else if mode == STRETCH_SPACING_UNIFORM then
      (cellSize, StretchedGaps(n, n + 1, available - n * cellSize, spacing))
    else (oldCellSize, oldSpacing)
  }

  /** STRETCH_COLUMN_WIDTH: the leftover space shared among the `n` cells. */
  function StretchedCell(n: int, available: int, cellSize: int, spacing: int): (w: int)
    requires n >= 1
    ensures var used := n * w + (n - 1) * spacing;
      && Abs(available - used) < n
      && (n * cellSize + (n - 1) * spacing <= available ==> used <= available)
      && (n * cellSize + (n - 1) * spacing >= available ==> used >= available)
  {
    var leftOver := available - n * cellSize - (n - 1) * spacing;
    var q := JDiv(leftOver, n);
    assert n * (cellSize + q) == n * cellSize + n * q;
    cellSize + q
  }

  /**
   * STRETCH_SPACING (`gaps` = n - 1) and STRETCH_SPACING_UNIFORM (`gaps`
   * = n + 1): the space the cells leave shared among the gaps. A single
   * cell takes the whole leftover as spacing, or, spread uniformly, half
   * of it.
   */
  function StretchedGaps(n: int, gaps: int, room: int, spacing: int): (g: int)
    requires n >= 1 && (gaps == n - 1 || gaps == n + 1)
    ensures n > 1 ==> Abs(room - gaps * g) < gaps
    ensures n == 1 && gaps == n - 1 ==> g == spacing + room
    ensures n == 1 && gaps == n + 1 ==> Abs(room - 2 * g) < 2
  {
    var leftOver := room - gaps * spacing;
    if n > 1 then
      var q := JDiv(leftOver, gaps);
      ShareLeftOver(room, gaps, spacing, q);
      spacing + q
    else if gaps == n - 1 then spacing + leftOver
    else
      assert spacing * 2 + leftOver == room;
      JDiv(spacing * 2 + leftOver, 2)
  }

  /** What is left over after `gaps` spacings, less `gaps` shares of it, is what the room leaves after `gaps` spacings of one share more. */
  lemma ShareLeftOver(room: int, gaps: int, spacing: int, q: int)
    ensures room - gaps * (spacing + q) == (room - gaps * spacing) - gaps * q
  {
  }

  // ---------------------------------------------------------------------
  // onMeasure under MeasureSpec.AT_MOST

  /** Number of lines `count` items take, `perLine` to a line. */
  function LineCount(count: nat, perLine: int): (lines: nat)
    requires perLine >= 1
    ensures lines * perLine >= count
    ensures lines == 0 || (lines - 1) * perLine < count
  {
    var lines := (count + perLine - 1) / perLine;
    assert lines * perLine + (count + perLine - 1) % perLine == count + perLine - 1;
    lines
  }

  /**
   * The size of the lines that hold the items from `i` on, laid end to
   * end with spacing between lines.
   */
  function LinesFrom(i: int, count: nat, perLine: int, lineSize: int, spacing: int): (r: int)
    requires perLine >= 1
    ensures lineSize >= 0 && spacing >= 0 ==> r >= 0
    decreases count - i
  {
    if i >= count then 0
    else lineSize + (if i + perLine < count then spacing else 0) + LinesFrom(i + perLine, count, perLine, lineSize, spacing)
  }

  /** The size of every line of the grid inside the padding. */
  function FullSize(count: nat, perLine: int, lineSize: int, spacing: int, padding: int): int
    requires perLine >= 1
  {
    padding + LinesFrom(0, count, perLine, lineSize, spacing)
  }

  /** The lines from `i` on: one per `perLine` items, with one spacing fewer than lines. */
  lemma {:induction false} LinesFromClosedForm(i: nat, count: nat, perLine: int, lineSize: int, spacing: int)
    requires perLine >= 1 && i < count
    ensures var lines := LineCount(count - i, perLine);
      LinesFrom(i, count, perLine, lineSize, spacing) == lines * lineSize + (lines - 1) * spacing
    decreases count - i
  {
    if i + perLine < count {
      LinesFromClosedForm(i + perLine, count, perLine, lineSize, spacing);
      LinesFromStep(i, count, perLine, lineSize, spacing);
    } else {
      LineOfMultiple(1, perLine, count - i + perLine - 1);
    }
  }

  /** The lines from `i` on are one line and a spacing more than the lines from the next line on. */
  lemma LinesFromStep(i: nat, count: nat, perLine: int, lineSize: int, spacing: int)
    requires perLine >= 1 && i + perLine < count
    requires var lines := LineCount(count - i - perLine, perLine);
      LinesFrom(i + perLine, count, perLine, lineSize, spacing) == lines * lineSize + (lines - 1) * spacing
    ensures var lines := LineCount(count - i, perLine);
      LinesFrom(i, count, perLine, lineSize, spacing) == lines * lineSize + (lines - 1) * spacing
  {
    var rest := LineCount(count - i - perLine, perLine);
    LineCountStep(count - i, perLine);
    LineSpan(rest, lineSize, spacing);
    LineSpan(rest + 1, lineSize, spacing);
  }

  /** One more line holds `perLine` more items. */
  lemma LineCountStep(c: nat, perLine: int)
    requires perLine >= 1 && c > perLine
    ensures LineCount(c, perLine) == LineCount(c - perLine, perLine) + 1
  {
    var x := c - perLine + perLine - 1;
    var q := x / perLine;
    assert x == q * perLine + x % perLine;
    assert (q + 1) * perLine == q * perLine + perLine;
    LineOfMultiple(q + 1, perLine, x + perLine);
  }

  /** With at least one item, the full size is the number of lines times the line size plus the spacing between them. */
  lemma FullSizeClosedForm(count: nat, perLine: int, lineSize: int, spacing: int, padding: int)
    requires perLine >= 1 && count >= 1
    ensures var lines := LineCount(count, perLine);
      FullSize(count, perLine, lineSize, spacing, padding) == padding + lines * lineSize + (lines - 1) * spacing
  {
    LinesFromClosedForm(0, count, perLine, lineSize, spacing);
  }

  /**
   * The AT_MOST measurement of onMeasure: lines are added one at a time
   * (with spacing when another line follows) and the total is cut to
   * `limit` as soon as it reaches it. With at least one item the result
   * never exceeds the limit; it is the full size when that stays below
   * the limit and sizes are non-negative, and the limit otherwise.
   */
  method MeasureAtMost(count: nat, perLine: int, lineSize: int, spacing: int, padding: int, limit: int)
    returns (ourSize: int)
    requires perLine >= 1
    ensures count >= 1 ==> ourSize <= limit
    ensures ourSize == limit || ourSize == FullSize(count, perLine, lineSize, spacing, padding)
    ensures count >= 1 && FullSize(count, perLine, lineSize, spacing, padding) >= limit ==> ourSize == limit
    ensures lineSize >= 0 && spacing >= 0 && FullSize(count, perLine, lineSize, spacing, padding) < limit ==>
      ourSize == FullSize(count, perLine, lineSize, spacing, padding)
  {
    ourSize := padding;
    var i := 0;
    while i < count
      invariant i >= 0
      invariant ourSize + LinesFrom(i, count, perLine, lineSize, spacing) == FullSize(count, perLine, lineSize, spacing, padding)
      invariant i > 0 ==> ourSize < limit
      decreases count - i
    {
      ourSize := ourSize + lineSize;
      if i + perLine < count {
        ourSize := ourSize + spacing;
      }
      if ourSize >= limit {
        ourSize := limit;
        return;
      }
      i := i + perLine;
    }
  }

  // ---------------------------------------------------------------------
  // computeVerticalScrollRange / computeHorizontalScrollRange

  /**
   * 100 units per line of items along the scrolling axis, or 0 when the
   * grid does not scroll along that axis: exactly enough lines for every
   * item, and no more.
   */
  function ScrollRange(scrollsAlong: bool, itemCount: nat, perLine: int): (r: int)
    requires perLine >= 1
    ensures r >= 0 && r % 100 == 0
    ensures !scrollsAlong ==> r == 0
    ensures scrollsAlong ==> (r / 100) * perLine >= itemCount
    ensures scrollsAlong ==> r == 0 || (r / 100 - 1) * perLine < itemCount
  {
    if !scrollsAlong then 0
    else
      var lines := LineCount(itemCount, perLine);
      Max(lines * 100, 0)
  }

  // ---------------------------------------------------------------------
  // Selection pixels and fading edges

  /** The top-most pixel the selection may use: a fading edge is kept above it when rows precede its row. */
  function TopSelectionPixel(childrenTop: int, fadingEdgeLength: int, rowStart: int): (r: int)
    ensures rowStart > 0 ==> r == childrenTop + fadingEdgeLength
    ensures rowStart <= 0 ==> r == childrenTop
  {
    if rowStart > 0 then childrenTop + fadingEdgeLength else childrenTop
  }

  /** The bottom-most pixel the selection may use: a fading edge is kept below it when items follow its row. */
  function BottomSelectionPixel(childrenBottom: int, fadingEdgeLength: int, perLine: int, rowStart: int, itemCount: int): (r: int)
    ensures rowStart + perLine - 1 < itemCount - 1 ==> r == childrenBottom - fadingEdgeLength
    ensures rowStart + perLine - 1 >= itemCount - 1 ==> r == childrenBottom
  {
    if rowStart + perLine - 1 < itemCount - 1 then childrenBottom - fadingEdgeLength else childrenBottom
  }

  /**
   * adjustForBottomFadingEdge: how far to move every child up so that
   * the selected row clears the bottom fading edge. The move never
   * overshoots: it stops when the row's bottom reaches the edge or its
   * top reaches the top selection pixel, whichever comes first. When the
   * row's top is already above the top selection pixel the shift is
   * negative and the children move down instead.
   */
  function BottomFadingEdgeShift(rowTop: int, rowBottom: int, topPixel: int, bottomPixel: int): (up: int)
    ensures rowBottom <= bottomPixel ==> up == 0
    ensures rowBottom > bottomPixel ==>
      && rowBottom - up >= bottomPixel
      && rowTop - up >= topPixel
      && (rowBottom - up == bottomPixel || rowTop - up == topPixel)
      && up <= rowBottom - bottomPixel
      && (up < 0 <==> rowTop < topPixel)
  {
    if rowBottom > bottomPixel then Min(rowTop - topPixel, rowBottom - bottomPixel) else 0
  }

  /**
   * adjustForTopFadingEdge: how far to move every child down so that the
   * selected row clears the top fading edge, stopping when its top
   * reaches the edge or its bottom reaches the bottom selection pixel.
   * When the row's bottom is already below the bottom selection pixel the
   * shift is negative and the children move up instead.
   */
  function TopFadingEdgeShift(rowTop: int, rowBottom: int, topPixel: int, bottomPixel: int): (down: int)
    ensures rowTop >= topPixel ==> down == 0
    ensures rowTop < topPixel ==>
      && rowTop + down <= topPixel
      && rowBottom + down <= bottomPixel
      && (rowTop + down == topPixel || rowBottom + down == bottomPixel)
      && down <= topPixel - rowTop
      && (down < 0 <==> rowBottom > bottomPixel)
  {
    if rowTop < topPixel then Min(topPixel - rowTop, bottomPixel - rowBottom) else 0
  }

  // ---------------------------------------------------------------------
  // Gravity inside a cell

  /**
   * setupChild of the vertical grid: the left edge of a child `w` pixels
   * wide in a column `columnWidth` wide that starts at `cellLeft`.
   */
  function ChildLeft(gravity: int, cellLeft: int, columnWidth: int, w: int): (left: int)
    ensures HorizontalGravity(gravity) == GRAVITY_RIGHT ==> left + w == cellLeft + columnWidth
    ensures HorizontalGravity(gravity) == GRAVITY_CENTER_HORIZONTAL ==>
      Abs((left - cellLeft) - (cellLeft + columnWidth - (left + w))) <= 1
    ensures HorizontalGravity(gravity) !in {GRAVITY_RIGHT, GRAVITY_CENTER_HORIZONTAL} ==> left == cellLeft
  {
    var g := HorizontalGravity(gravity);
    if g == GRAVITY_LEFT then cellLeft
    else if g == GRAVITY_CENTER_HORIZONTAL then cellLeft + JDiv(columnWidth - w, 2)
    else if g == GRAVITY_RIGHT then cellLeft + columnWidth - w
    else cellLeft
  }

  /**
   * setupChild of the horizontal grid as written: it masks the gravity
   * with the vertical mask but compares the result with TOP and with the
   * horizontal constants CENTER_HORIZONTAL and RIGHT.
   */
  function ChildTopAsWritten(gravity: int, cellTop: int, rowHeight: int, h: int): int
  {
    var g := VerticalGravity(gravity);
    if g == GRAVITY_TOP then cellTop
    else if g == GRAVITY_CENTER_HORIZONTAL then cellTop + JDiv(rowHeight - h, 2)
    else if g == GRAVITY_RIGHT then cellTop + rowHeight - h
    else cellTop
  }

  /** The masked value is a multiple of 16, so only the TOP and default cases can be taken. */
  lemma ChildTopAsWrittenIgnoresGravity(gravity: int, cellTop: int, rowHeight: int, h: int)
    ensures ChildTopAsWritten(gravity, cellTop, rowHeight, h) == cellTop
  {
  }

  /** Centring a short child vertically: as written it stays at the top of its row. */
  lemma ChildTopAsWrittenCounterexample()
    ensures ChildTopAsWritten(GRAVITY_CENTER_VERTICAL, 0, 10, 4) == 0
    ensures ChildTop(GRAVITY_CENTER_VERTICAL, 0, 10, 4) == 3
  {
  }

  /** The vertical-gravity placement the horizontal grid evidently means, mirroring ChildLeft. */
  function ChildTop(gravity: int, cellTop: int, rowHeight: int, h: int): (top: int)
    ensures VerticalGravity(gravity) == GRAVITY_BOTTOM ==> top + h == cellTop + rowHeight
    ensures VerticalGravity(gravity) == GRAVITY_CENTER_VERTICAL ==>
      Abs((top - cellTop) - (cellTop + rowHeight - (top + h))) <= 1
    ensures VerticalGravity(gravity) !in {GRAVITY_BOTTOM, GRAVITY_CENTER_VERTICAL} ==> top == cellTop
  {
    var g := VerticalGravity(gravity);
    if g == GRAVITY_TOP then cellTop
    else if g == GRAVITY_CENTER_VERTICAL then cellTop + JDiv(rowHeight - h, 2)
    else if g == GRAVITY_BOTTOM then cellTop + rowHeight - h
    else cellTop
  }

  // ---------------------------------------------------------------------
  // Lines and keyboard navigation

  /**
   * First and last position of the line holding `position`. From the top
   * a line starts at a multiple of `perLine`; stacked from the bottom a
   * line ends where the inverted position is a multiple of `perLine`, so
   * the short line is the first one.
   */
  function LineBounds(position: int, perLine: int, count: int, stackFromBottom: bool): (int, int)
    requires perLine >= 1
  {
    if !stackFromBottom then
      var start := JDiv(position, perLine) * perLine;
      (start, Min(start + perLine - 1, count - 1))
    else
      var end := count - 1 - JDiv(count - 1 - position, perLine) * perLine;
      (Max(0, end - perLine + 1), end)
  }

  /**
   * The line of an item holds it, lies among the items and is at most
   * `perLine` long; from the top it starts at a multiple of `perLine`
   * and only the last line is short, stacked from the bottom it ends a
   * multiple of `perLine` before the last item and only the first line
   * is short.
   */
  lemma LineBoundsHold(position: int, perLine: int, count: int, stackFromBottom: bool)
    requires perLine >= 1
    ensures var b := LineBounds(position, perLine, count, stackFromBottom);
      && (0 <= position < count ==> 0 <= b.0 <= position <= b.1 < count && b.1 - b.0 < perLine)
      && (0 <= position < count && !stackFromBottom ==> b.0 % perLine == 0 && (b.1 == count - 1 || b.1 - b.0 == perLine - 1))
      && (0 <= position < count && stackFromBottom ==> (count - 1 - b.1) % perLine == 0 && (b.0 == 0 || b.1 - b.0 == perLine - 1))
  {
    if !stackFromBottom {
      QuotientFacts(position, perLine);
      var start := JDiv(position, perLine) * perLine;
      assert LineBounds(position, perLine, count, stackFromBottom) == (start, Min(start + perLine - 1, count - 1));
    } else {
      var inverted := count - 1 - position;
      QuotientFacts(inverted, perLine);
      var end := count - 1 - JDiv(inverted, perLine) * perLine;
      assert LineBounds(position, perLine, count, stackFromBottom) == (Max(0, end - perLine + 1), end);
    }
  }

  /**
   * getBottomSelectionPixel tests a full line's length past the line's
   * start, yet for the line actually holding the selection it keeps the
   * fading edge exactly when items follow that line: the short last line
   * from the top and the short first line stacked from the bottom are
   * handled alike.
   */
  lemma BottomSelectionPixelOfLine(childrenBottom: int, fadingEdgeLength: int, position: int, perLine: int, count: int, stackFromBottom: bool)
    requires perLine >= 1 && 0 <= position < count
    ensures var b := LineBounds(position, perLine, count, stackFromBottom);
      BottomSelectionPixel(childrenBottom, fadingEdgeLength, perLine, b.0, count)
      == (if b.1 < count - 1 then childrenBottom - fadingEdgeLength else childrenBottom)
  {
    LineBoundsHold(position, perLine, count, stackFromBottom);
    var b := LineBounds(position, perLine, count, stackFromBottom);
    if stackFromBottom && b.0 == 0 && b.1 < count - 1 {
      // the short first line ends a whole line or more before the last item
      MultipleWithinLine((count - 1 - b.1) / perLine, perLine);
    }
  }

  /**
   * getTopSelectionPixel keeps the fading edge exactly when a line
   * precedes the selection's line: from the top, when the selection is
   * not among the first `perLine` items; stacked from the bottom, when it
   * lies past the short first line, which ends at (count - 1) % perLine.
   */
  lemma TopSelectionPixelOfLine(childrenTop: int, fadingEdgeLength: int, position: int, perLine: int, count: int, stackFromBottom: bool)
    requires perLine >= 1 && 0 <= position < count
    ensures !stackFromBottom ==>
      TopSelectionPixel(childrenTop, fadingEdgeLength, LineBounds(position, perLine, count, false).0)
      == (if position >= perLine then childrenTop + fadingEdgeLength else childrenTop)
    ensures stackFromBottom ==>
      TopSelectionPixel(childrenTop, fadingEdgeLength, LineBounds(position, perLine, count, true).0)
      == (if position > (count - 1) % perLine then childrenTop + fadingEdgeLength else childrenTop)
  {
    if stackFromBottom {
      StackedLineStart(position, perLine, count);
    } else {
      LineBoundsHold(position, perLine, count, false);
    }
  }

  /** Stacked from the bottom, a line starts after position 0 exactly when it lies past the short first line. */
  lemma StackedLineStart(position: int, perLine: int, count: int)
    requires perLine >= 1 && 0 <= position < count
    ensures LineBounds(position, perLine, count, true).0 > 0 <==> position > (count - 1) % perLine
  {
    LineBoundsHold(position, perLine, count, true);
    var b := LineBounds(position, perLine, count, true);
    var k1 := (count - 1 - b.1) / perLine;
    var k2 := (count - 1) / perLine;
    var r := (count - 1) % perLine;
    assert b.1 - r == (k2 - k1) * perLine;
    MultipleWithinLine(k2 - k1, perLine);
  }

  /** A multiple of `n` closer to zero than `n` is zero; otherwise it is at least `n` away. */
  lemma MultipleWithinLine(k: int, n: int)
    requires n >= 1
    ensures k == 0 || k * n >= n || k * n <= -n
  {
    if k >= 1 {
      assert k * n == (k - 1) * n + n;
    } else if k <= -1 {
      assert k * n == (k + 1) * n - n;
    }
  }

  /** A non-negative x lies in the line of `n` that starts at JDiv(x, n) * n. */
  lemma QuotientFacts(x: int, n: int)
    requires n >= 1
    ensures x >= 0 ==> JDiv(x, n) == x / n >= 0
    ensures x >= 0 ==> JDiv(x, n) * n <= x < JDiv(x, n) * n + n
    ensures x >= 0 ==> (JDiv(x, n) * n) % n == 0
  {
    if x >= 0 {
      MultipleFacts(x / n, n);
    }
  }

  /** A multiple of n is on its own line. */
  lemma MultipleFacts(q: int, n: int)
    requires n >= 1 && q >= 0
    ensures (q * n) / n == q && (q * n) % n == 0
  {
    LineOfMultiple(q, n, q * n);
  }

  /**
   * The vertical grid's arrowScroll: the position the selection moves to,
   * or None when it stays. UP and DOWN move by a whole row when a row
   * exists above or below; LEFT and RIGHT move by one inside the row.
   */
  function ArrowTarget(selected: int, perLine: int, count: int, stackFromBottom: bool, direction: int): Option<int>
    requires perLine >= 1
  {
    var (start, end) := LineBounds(selected, perLine, count, stackFromBottom);
    if direction == FOCUS_UP then
      if start > 0 then Some(Max(0, selected - perLine)) else None
    else if direction == FOCUS_DOWN then
      if end < count - 1 then Some(Min(selected + perLine, count - 1)) else None
    else if direction == FOCUS_LEFT then
      if selected > start then Some(Max(0, selected - 1)) else None
    else if direction == FOCUS_RIGHT then
      if selected < end then Some(Min(selected + 1, count - 1)) else None
    else None
  }

  /**
   * From a valid selection every move lands on another item; a move
   * happens exactly when the target differs; LEFT and RIGHT stay in the
   * row, UP and DOWN leave it.
   */
  lemma ArrowTargetMoves(selected: int, perLine: int, count: int, stackFromBottom: bool, direction: int)
    requires perLine >= 1 && 0 <= selected < count
    ensures var t := ArrowTarget(selected, perLine, count, stackFromBottom, direction);
      && (t.Some? ==> 0 <= t.value < count && t.value != selected)
      && (t.Some? && direction in {FOCUS_LEFT, FOCUS_RIGHT} ==>
            LineBounds(t.value, perLine, count, stackFromBottom) == LineBounds(selected, perLine, count, stackFromBottom))
      && (t.Some? && direction in {FOCUS_UP, FOCUS_DOWN} ==>
            LineBounds(t.value, perLine, count, stackFromBottom) != LineBounds(selected, perLine, count, stackFromBottom))
  {
    var (start, end) := LineBounds(selected, perLine, count, stackFromBottom);
    LineBoundsHold(selected, perLine, count, stackFromBottom);
    var t := ArrowTarget(selected, perLine, count, stackFromBottom, direction);
    if t.Some? {
      var b := LineBounds(t.value, perLine, count, stackFromBottom);
      if direction in {FOCUS_LEFT, FOCUS_RIGHT} {
        SameLine(selected, t.value, perLine, count, stackFromBottom, start, end);
      } else {
        assert t.value < start || t.value > end;
        LineBoundsHold(t.value, perLine, count, stackFromBottom);
      }
    }
  }

  /** A position between the bounds of a line lies on that line. */
  lemma SameLine(p: int, q: int, perLine: int, count: int, stackFromBottom: bool, start: int, end: int)
    requires perLine >= 1 && 0 <= p < count
    requires (start, end) == LineBounds(p, perLine, count, stackFromBottom)
    requires start <= q <= end
    ensures LineBounds(q, perLine, count, stackFromBottom) == (start, end)
  {
    if !stackFromBottom {
      SameQuotient(p, q, perLine);
    } else {
      SameQuotient(count - 1 - p, count - 1 - q, perLine);
    }
  }

  /** A number in the line of `n` that a non-negative `x` lies in has the same quotient. */
  lemma SameQuotient(x: int, y: int, n: int)
    requires n >= 1 && x >= 0 && JDiv(x, n) * n <= y < JDiv(x, n) * n + n
    ensures JDiv(y, n) == JDiv(x, n)
  {
    QuotientFacts(x, n);
    QuotientFacts(y, n);
    LineOfMultiple(x / n, n, y);
  }

  /** Every x in [m*perLine, m*perLine + perLine) has quotient m. */
  lemma LineOfMultiple(m: int, perLine: int, x: int)
    requires perLine >= 1 && m >= 0 && m * perLine <= x < m * perLine + perLine
    ensures x / perLine == m
  {
    var q := x / perLine;
    assert x == q * perLine + x % perLine;
    if q < m {
      MulLe(q + 1, m, perLine);
      assert false;
    } else if q > m {
      MulLe(m + 1, q, perLine);
      assert false;
    }
  }

  lemma MulLe(a: int, b: int, c: int)
    requires a <= b && c >= 0
    ensures a * c <= b * c
  {
    assert b * c - a * c == (b - a) * c;
  }

  /**
   * The horizontal grid's arrowScroll as written: like the vertical one
   * with LEFT/RIGHT moving by a column and UP/DOWN inside it, except that
   * RIGHT tests the start of the column, not its end, against the last
   * item.
   */
  function ArrowTargetHorizontalAsWritten(selected: int, perLine: int, count: int, stackFromBottom: bool, direction: int): Option<int>
    requires perLine >= 1
  {
    var (start, end) := LineBounds(selected, perLine, count, stackFromBottom);
    if direction == FOCUS_LEFT then
      if start > 0 then Some(Max(0, selected - perLine)) else None
    else if direction == FOCUS_RIGHT then
      if start < count - 1 then Some(Min(selected + perLine, count - 1)) else None
    else if direction == FOCUS_UP then
      if selected > start then Some(Max(0, selected - 1)) else None
    else if direction == FOCUS_DOWN then
      if selected < end then Some(Min(selected + 1, count - 1)) else None
    else None
  }

  /** The horizontal grid's navigation as intended: the vertical grid's turned by a quarter. */
  function ArrowTargetHorizontal(selected: int, perLine: int, count: int, stackFromBottom: bool, direction: int): Option<int>
    requires perLine >= 1
  {
    var turned :=
      if direction == FOCUS_LEFT then FOCUS_UP
      else if direction == FOCUS_RIGHT then FOCUS_DOWN
      else if direction == FOCUS_UP then FOCUS_LEFT
      else if direction == FOCUS_DOWN then FOCUS_RIGHT
      else direction;
    ArrowTarget(selected, perLine, count, stackFromBottom, turned)
  }

  /** With three rows and five items, RIGHT from the last column reports a move that leaves the selection on item 4. */
  lemma ArrowTargetHorizontalAsWrittenCounterexample()
    ensures ArrowTargetHorizontalAsWritten(4, 3, 5, false, FOCUS_RIGHT) == Some(4)
    ensures ArrowTargetHorizontal(4, 3, 5, false, FOCUS_RIGHT) == None
  {
    assert JDiv(4, 3) == 1;
  }

  /** The intended horizontal navigation moves exactly when the selection changes, and stays on an item. */
  lemma ArrowTargetHorizontalMoves(selected: int, perLine: int, count: int, stackFromBottom: bool, direction: int)
    requires perLine >= 1 && 0 <= selected < count
    ensures var t := ArrowTargetHorizontal(selected, perLine, count, stackFromBottom, direction);
      t.Some? ==> 0 <= t.value < count && t.value != selected
  {
    var turned :=
      if direction == FOCUS_LEFT then FOCUS_UP
      else if direction == FOCUS_RIGHT then FOCUS_DOWN
      else if direction == FOCUS_UP then FOCUS_LEFT
      else if direction == FOCUS_DOWN then FOCUS_RIGHT
      else direction;
    ArrowTargetMoves(selected, perLine, count, stackFromBottom, turned);
  }

  /** pageScroll's target: about a screenful of children back or forward, -1 when the direction is neither. */
  function PageTarget(selected: int, childCount: int, itemCount: int, direction: int): (r: int)
    requires childCount >= 0
    ensures direction !in {FOCUS_UP, FOCUS_DOWN} ==> r == -1
    ensures direction == FOCUS_UP ==> 0 <= r && (r == 0 || r == selected - childCount - 1)
    ensures direction == FOCUS_DOWN ==> r <= itemCount - 1 && (r == itemCount - 1 || r == selected + childCount - 1)
    ensures 0 <= selected < itemCount && r >= 0 ==> r < itemCount
  {
    if direction == FOCUS_UP then Max(0, selected - childCount - 1)
    else if direction == FOCUS_DOWN then Min(itemCount - 1, selected + childCount - 1)
    else -1
  }

  // ---------------------------------------------------------------------
  // isCandidateSelection

  /**
   * The vertical grid's isCandidateSelection as written: whether the child
   * at `childIndex` (of `count`) may take the focus arriving from
   * `direction`. From the top the row end is `Math.max(rowStart +
   * perLine - 1, count)`. `None` is the IllegalArgumentException for an
   * unknown direction.
   */
  function IsCandidateSelectionAsWritten(childIndex: int, perLine: int, count: int, stackFromBottom: bool, direction: int): Option<bool>
    requires perLine >= 1
  {
    var inverted := count - 1 - childIndex;
    var (rowStart, rowEnd) :=
      if !stackFromBottom then
        var s := childIndex - JRem(childIndex, perLine);
        (s, Max(s + perLine - 1, count))
      else
        var e := count - 1 - (inverted - JRem(inverted, perLine));
        (Max(0, e - perLine + 1), e);
    Candidate(childIndex, rowStart, rowEnd, count, direction)
  }

  /** The answer for each direction, given the bounds of the child's row. */
  function Candidate(childIndex: int, rowStart: int, rowEnd: int, count: int, direction: int): Option<bool>
  {
    if direction == FOCUS_RIGHT then Some(childIndex == rowStart)
    else if direction == FOCUS_DOWN then Some(rowStart == 0)
    else if direction == FOCUS_LEFT then Some(childIndex == rowEnd)
    else if direction == FOCUS_UP then Some(rowEnd == count - 1)
    else if direction == FOCUS_FORWARD then Some(childIndex == rowStart && rowStart == 0)
    else if direction == FOCUS_BACKWARD then Some(childIndex == rowEnd && rowEnd == count - 1)
    else None
  }

  /** With the row end clamped to the last child, as the other row computations of the grid do. */
  function IsCandidateSelection(childIndex: int, perLine: int, count: int, stackFromBottom: bool, direction: int): Option<bool>
    requires perLine >= 1
  {
    var (rowStart, rowEnd) := LineBounds(childIndex, perLine, count, stackFromBottom);
    Candidate(childIndex, rowStart, rowEnd, count, direction)
  }

  /**
   * As written, a grid filled from the top never offers any child to
   * focus arriving from below, from the right, or backward: the row end
   * is never a child's index.
   */
  lemma IsCandidateSelectionAsWrittenRefusesAll(childIndex: int, perLine: int, count: int)
    requires perLine >= 1 && 0 <= childIndex < count
    ensures IsCandidateSelectionAsWritten(childIndex, perLine, count, false, FOCUS_UP) == Some(false)
    ensures IsCandidateSelectionAsWritten(childIndex, perLine, count, false, FOCUS_LEFT) == Some(false)
    ensures IsCandidateSelectionAsWritten(childIndex, perLine, count, false, FOCUS_BACKWARD) == Some(false)
  {
  }

  /**
   * With the clamped row end every direction has a candidate among the
   * children: the first child for focus from above, the left or before,
   * the last child for focus from below, the right or after.
   */
  lemma IsCandidateSelectionOffersEdges(perLine: int, count: int, stackFromBottom: bool)
    requires perLine >= 1 && count >= 1
    ensures IsCandidateSelection(0, perLine, count, stackFromBottom, FOCUS_DOWN) == Some(true)
    ensures IsCandidateSelection(0, perLine, count, stackFromBottom, FOCUS_RIGHT) == Some(true)
    ensures IsCandidateSelection(0, perLine, count, stackFromBottom, FOCUS_FORWARD) == Some(true)
    ensures IsCandidateSelection(count - 1, perLine, count, stackFromBottom, FOCUS_UP) == Some(true)
    ensures IsCandidateSelection(count - 1, perLine, count, stackFromBottom, FOCUS_LEFT) == Some(true)
    ensures IsCandidateSelection(count - 1, perLine, count, stackFromBottom, FOCUS_BACKWARD) == Some(true)
  {
    var first := LineBounds(0, perLine, count, stackFromBottom);
    var last := LineBounds(count - 1, perLine, count, stackFromBottom);
    assert first.0 == 0;
    assert last.1 == count - 1 by {
      if !stackFromBottom {
        var s := JDiv(count - 1, perLine) * perLine;
        assert s == ((count - 1) / perLine) * perLine;
        assert count - 1 - s == (count - 1) % perLine < perLine;
      }
    }
  }

  /**
   * The horizontal grid's isCandidateSelection as written: its column
   * bounds follow the vertical grid's row bounds, but focus from the
   * right compares with the column start and focus from below tests
   * the column start against the last child.
   */
  function IsCandidateSelectionHorizontal(childIndex: int, perLine: int, count: int, stackFromBottom: bool, direction: int): Option<bool>
    requires perLine >= 1
  {
    var inverted := count - 1 - childIndex;
    var (columnStart, columnEnd) :=
      if !stackFromBottom then
        var s := childIndex - JRem(childIndex, perLine);
        (s, Max(s + perLine - 1, count))
      else
        var e := count - 1 - (inverted - JRem(inverted, perLine));
        (Max(0, e - perLine + 1), e);
    if direction == FOCUS_RIGHT then Some(childIndex == columnStart)
    else if direction == FOCUS_DOWN then Some(columnStart == 0)
    else if direction == FOCUS_LEFT then Some(childIndex == columnStart)
    else if direction == FOCUS_UP then Some(columnStart == count - 1)
    else if direction == FOCUS_FORWARD then Some(childIndex == columnStart && columnStart == 0)
    else if direction == FOCUS_BACKWARD then Some(childIndex == columnEnd && columnEnd == count - 1)
    else None
  }

  /** Focus from the left and focus from the right accept the same children in the horizontal grid. */
  lemma IsCandidateSelectionHorizontalLeftIsRight(childIndex: int, perLine: int, count: int, stackFromBottom: bool)
    requires perLine >= 1
    ensures IsCandidateSelectionHorizontal(childIndex, perLine, count, stackFromBottom, FOCUS_LEFT)
         == IsCandidateSelectionHorizontal(childIndex, perLine, count, stackFromBottom, FOCUS_RIGHT)
  {
  }
}
