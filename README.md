# two-way-gridview: a verified model of the grid's core

TwoWayGridView is an Android adapter view that lays its items out as a grid
and scrolls either vertically (rows of `numColumns` items) or horizontally
(columns of `numRows` items). Its base class, TwoWayAbsListView, keeps the
state of a scrolling list: the children on screen, from adapter position
`firstPosition` on; the selection and where to bring it back after touch mode;
the touch mode and the scroll state reported to the listener; the recycler
that parks views between layout passes; and the saved state that goes through
a parcel. This project models that core in Dafny and proves what it promises.

It has these parts:

- **View recycling.** `recycle_bin.dfy`, module `Recycling`, models the class
  `RecycleBin`. It has an array of active slots indexed by
  `position - firstActivePosition` and one last-in-first-out pile of scrap
  views per adapter view type.
- **Saved state.** `saved_state.dfy`, module `SavedStateParcel`, models the
  five fields of `SavedState` written to a parcel and read back. The parcel
  is a byte sequence holding little-endian two's complement values: 8 bytes
  for a long and 4 bytes for an int. Reading past the end gives 0.
- **List state.** `abs_list.dfy`, module `AbsList`, holds the class
  `ListView` with the list's fields. It covers:
  - the touch-mode changes made by a tap timeout and by the start of a scroll;
  - scroll-state notifications without repeats;
  - hiding the selector and reconciling the selected position;
  - handling a data change, and saving and restoring the instance state;
  - the vertical `trackMotionScroll`, which scraps the children that leave
    the screen and moves the others;
  - `getDistance`.
- **Smooth scroller.** `position_scroller.dfy`, module `PositionScrolling`,
  models the decisions of the smooth `PositionScroller`: the mode, the number
  of views travelled and the time per view.
- **Grid arithmetic.** `grid_geometry.dfy`, module `GridGeometry`, holds the
  arithmetic that does not depend on the children on screen:
  - how many columns or rows fit, and the four stretch modes;
  - the AT_MOST measurement and the scroll range;
  - the selection pixels and the fading-edge shifts;
  - gravity inside a cell;
  - the line of a position, including the "stack from bottom" arithmetic on
    the inverted position;
  - keyboard navigation targets and the focus candidate tests of both
    builders.
- **Vertical fill engine.** `grid_fill.dfy`, module `GridFill`, gives its
  specification as functions:
  - a row made by `makeRow`;
  - the runs of rows made by `fillDown` and `fillUp`;
  - the moves of `adjustViewsUpOrDown`, `correctTooHigh`, `correctTooLow`,
    `pinToTop` and `pinToBottom`;
  - `fillGap`.
- **The grid class.** `grid_view.dfy`, module `GridViewing`, holds the class
  `GridView`. Its methods carry the loops and field updates of the source,
  each proved against those functions.
- **Java arithmetic.** `java_lang.dfy`, module `JavaLang`, gives Java's
  truncating `/` and `%` and `Math.abs`. The grid's arithmetic uses them
  wherever an operand can be negative.

The fill engine's central property is that after any fill, correction or gap
fill, the children still show consecutive adapter positions. The first child
shows the first position, and every child shows an item.

## Model

| member | source | states |
|---|---|---|
| JavaLang.JDiv | lib/src/com/jess/ui/TwoWayGridView.java:1433-1434 | Java's integer division truncates toward zero. The remainder it leaves is smaller than the divisor and has the dividend's sign. |
| JavaLang.JRem | lib/src/com/jess/ui/TwoWayGridView.java:1080 | Java's `%` is the remainder of that division. Dividend = divisor × quotient + remainder, and the remainder has the dividend's sign. |
| JavaLang.JAbs | lib/src/com/jess/ui/TwoWayAbsListView.java:3506 | `Math.abs` on an int is the magnitude, except for INT_MIN, which stays negative. |
| Recycling.Added | lib/src/com/jess/ui/TwoWayAbsListView.java:3284-3311 | Adding a scrap view keeps one pile per view type. |
| Recycling.ScrapIsLastInFirstOut | lib/src/com/jess/ui/TwoWayAbsListView.java:3256-3311 | Adding a recyclable view and then asking for a view of its type gives that view back and restores every pile, so the scrap is last-in-first-out. |
| Recycling.ScrapFromAppends | lib/src/com/jess/ui/TwoWayAbsListView.java:3316-3345 | Scrapping the active slots appends to each pile exactly the recyclable views of its type, last slot first, and nothing else. |
| Recycling.Pruned | lib/src/com/jess/ui/TwoWayAbsListView.java:3363-3376 | After pruning, each pile is a prefix of the old pile and holds at most the limit. A pile already within the limit is unchanged. |
| Recycling.AllScrap | lib/src/com/jess/ui/TwoWayAbsListView.java:3381-3392 | All scrap views, pile by pile: every view of every pile is in the list, nothing else is, and the count is the total. |
| Recycling.CacheHintScrapAsWrittenMisses | lib/src/com/jess/ui/TwoWayAbsListView.java:3406-3415 | As written, the recolouring loop over several piles reaches one view twice and misses another. With an empty pile 0 and a one-view pile 1 it throws. |
| Recycling.RecycleBin.constructor | lib/src/com/jess/ui/TwoWayAbsListView.java:3125-3148 | A new recycler has no active slots and no piles, and its first active position is 0. |
| Recycling.RecycleBin.SetViewTypeCount | lib/src/com/jess/ui/TwoWayAbsListView.java:3150-3162 | A count below one is refused and changes nothing. Otherwise there are exactly that many empty piles. |
| Recycling.RecycleBin.FillActiveViews | lib/src/com/jess/ui/TwoWayAbsListView.java:3216-3233 | The array grows to the child count when it is too small. Every child with layout params that is not a header or footer is parked at its index, and the first active position is recorded. |
| Recycling.RecycleBin.GetActiveView | lib/src/com/jess/ui/TwoWayAbsListView.java:3242-3251 | Returns the view in the position's slot and clears that slot only, so a second lookup finds nothing. Out of range, it returns none and changes nothing. |
| Recycling.RecycleBin.GetScrapView | lib/src/com/jess/ui/TwoWayAbsListView.java:3256-3277 | Pops the newest view of the type's pile; a single type uses the current pile. Only that pile shrinks, by one. An empty pile or an unknown type gives none. |
| Recycling.RecycleBin.AddScrapView | lib/src/com/jess/ui/TwoWayAbsListView.java:3284-3311 | A view without layout params, or of a negative type, is not kept. Any other view is appended to its type's pile, and every other pile is unchanged. |
| Recycling.RecycleBin.ScrapActiveViews | lib/src/com/jess/ui/TwoWayAbsListView.java:3316-3357 | Every active slot ends up empty. Each pile is what the scrapped views make of it, pruned to the array's length, so no pile is longer than the active array. |
| Recycling.RecycleBin.PruneScrapViews | lib/src/com/jess/ui/TwoWayAbsListView.java:3363-3376 | Every pile is cut back to the active array's length by dropping views from its end. |
| Recycling.RecycleBin.ReclaimScrapViews | lib/src/com/jess/ui/TwoWayAbsListView.java:3381-3392 | The list handed back keeps the given views in front and then holds every scrap view. |
| Recycling.RecycleBin.Clear | lib/src/com/jess/ui/TwoWayAbsListView.java:3190-3207 | Every pile is empty afterwards, and the number of piles stays. |
| Recycling.RecycleBin.EmptyPile | lib/src/com/jess/ui/TwoWayAbsListView.java:3191-3205 | Removing the views of one pile last first empties that pile only. |
| SavedStateParcel.LittleEndianRoundTrip | lib/src/com/jess/ui/TwoWayAbsListView.java:866-885 | Reading back the little-endian digits of a value that fits gives the value. |
| SavedStateParcel.EncodeRoundTrip | lib/src/com/jess/ui/TwoWayAbsListView.java:866-885 | Decoding the two's complement bytes of a value that fits its width gives the value. |
| SavedStateParcel.WriteToParcel | lib/src/com/jess/ui/TwoWayAbsListView.java:877-885 | Writing a saved state appends 28 bytes and leaves what the parcel held before untouched. |
| SavedStateParcel.SavedStateRoundTrip | lib/src/com/jess/ui/TwoWayAbsListView.java:866-885 | Reading a saved state from where it was written reproduces all five fields and stops right after them, whatever surrounds it in the parcel. |
| GridGeometry.VerticalGravity | lib/src/com/jess/ui/TwoWayGridView.java:3266 | Masking with VERTICAL_GRAVITY_MASK gives a multiple of 16 below 128. |
| GridGeometry.LookForSelectablePosition | lib/src/com/jess/ui/TwoWayGridView.java:207-217 | The position is kept exactly when there is an adapter, the view is not in touch mode and the position is an item's. Otherwise the result is INVALID_POSITION. |
| GridGeometry.CellsPerLine | lib/src/com/jess/ui/TwoWayGridView.java:1430-1446 | Always at least one cell per line. AUTO_FIT with a cell size fits as many cells as the space allows, and one more would not fit. AUTO_FIT without a size picks 2. Otherwise the requested count is used. A zero divisor throws. |
| GridGeometry.FitCountBounds | lib/src/com/jess/ui/TwoWayGridView.java:1433-1434 | The AUTO_FIT quotient fits that many cells with their spacing into the space, and one more cell would not fit. |
| GridGeometry.Stretch | lib/src/com/jess/ui/TwoWayGridView.java:1448-1494 | NO_STRETCH keeps the requested size and spacing. STRETCH_COLUMN_WIDTH widens the cells so the line fills the space to within one pixel per cell, and the line still fits when the leftover was non-negative. The two spacing modes share the leftover among the gaps. An unknown mode keeps the old values. |
| GridGeometry.StretchedCell | lib/src/com/jess/ui/TwoWayGridView.java:1459-1463 | Stretched cells fill the space to within one pixel per cell, never overshooting a space that had room and never falling short of one that had none. |
| GridGeometry.StretchedGaps | lib/src/com/jess/ui/TwoWayGridView.java:1465-1490 | The leftover is shared among the gaps to within one pixel per gap. A lone cell takes the whole leftover as spacing, or half of it when spacing is uniform. |
| GridGeometry.LineCount | lib/src/com/jess/ui/TwoWayGridView.java:761-763 | The number of lines is exactly enough for every item, and no more. |
| GridGeometry.LinesFromClosedForm | lib/src/com/jess/ui/TwoWayGridView.java:1651-1662 | The lines from an item on take one line size per line and one spacing fewer than lines. |
| GridGeometry.FullSizeClosedForm | lib/src/com/jess/ui/TwoWayGridView.java:1648-1663 | With an item, the full size is the padding plus the lines and the spacing between them. |
| GridGeometry.MeasureAtMost | lib/src/com/jess/ui/TwoWayGridView.java:1648-1663 | With at least one item, the measured size never exceeds the limit. It is the full size when that stays below the limit, and the limit otherwise. |
| GridGeometry.ScrollRange | lib/src/com/jess/ui/TwoWayGridView.java:756-764 | 100 units per line, exactly enough lines for the items, and 0 when the grid does not scroll along that axis. The horizontal mirror is at lines 812-820. |
| GridGeometry.TopSelectionPixel | lib/src/com/jess/ui/TwoWayGridView.java:1359-1366 | The fading edge is added to the children's top exactly when the row start is positive. |
| GridGeometry.TopSelectionPixelOfLine | lib/src/com/jess/ui/TwoWayGridView.java:1359-1366 | For the line that holds the selection, the edge is kept exactly when a line precedes it. From the top, that is when the selection is not among the first perLine items. Stacked from the bottom, it is when the selection lies past the short first line. |
| GridGeometry.StackedLineStart | lib/src/com/jess/ui/TwoWayGridView.java:1359-1366 | Stacked from the bottom, a line starts after position 0 exactly when it lies past the short first line, which ends at (count - 1) % perLine. |
| GridGeometry.BottomSelectionPixel | lib/src/com/jess/ui/TwoWayGridView.java:1341-1349 | The fading edge is taken off the children's bottom exactly when a full row from the row start would end before the last item. |
| GridGeometry.BottomSelectionPixelOfLine | lib/src/com/jess/ui/TwoWayGridView.java:1341-1349 | For the line that holds the selection, in either stacking, that full-row test keeps the edge exactly when items follow the line. This includes the short last line from the top and the short first line stacked from the bottom. |
| GridGeometry.BottomFadingEdgeShift | lib/src/com/jess/ui/TwoWayGridView.java:1377-1395 | Moves up only a row that ends below the bottom pixel. It stops when the row's bottom reaches that pixel or its top reaches the top pixel, whichever comes first, so the row's bottom stays at or below the bottom pixel and its top at or above the top pixel. The shift is negative, moving the children down, exactly when the row's top is already above the top pixel. |
| GridGeometry.TopFadingEdgeShift | lib/src/com/jess/ui/TwoWayGridView.java:1406-1422 | Moves down only a row that starts above the top pixel. It stops when the row's top reaches that pixel or its bottom reaches the bottom pixel, whichever comes first, so the row's top stays at or above the top pixel and its bottom at or below the bottom pixel. The shift is negative, moving the children up, exactly when the row's bottom is already below the bottom pixel. |
| GridGeometry.ChildLeft | lib/src/com/jess/ui/TwoWayGridView.java:1946-1956 | RIGHT puts the child against the column's right edge. CENTER_HORIZONTAL centres it to within a pixel. Any other gravity keeps it at the column's left. |
| GridGeometry.ChildTopAsWrittenIgnoresGravity | lib/src/com/jess/ui/TwoWayGridView.java:3266-3276 | As written, the horizontal grid's vertical gravity always leaves the child at the top of its cell. |
| GridGeometry.ChildTopAsWrittenCounterexample | lib/src/com/jess/ui/TwoWayGridView.java:3266-3276 | As written, CENTER_VERTICAL leaves a 4-pixel child at the top of a 10-pixel row; the intended placement puts it at 3. |
| GridGeometry.ChildTop | lib/src/com/jess/ui/TwoWayGridView.java:3266-3276 | The corrected vertical gravity: BOTTOM puts the child against the row's bottom, CENTER_VERTICAL centres it to within a pixel, and any other gravity keeps it at the top. |
| GridGeometry.LineBoundsHold | lib/src/com/jess/ui/TwoWayGridView.java:2041-2048 | The line of an item holds it, lies among the items and is at most a line long. From the top it starts at a multiple of the line length and only the last line is short. Stacked from the bottom, the first line is the short one. |
| GridGeometry.ArrowTargetMoves | lib/src/com/jess/ui/TwoWayGridView.java:2032-2091 | From a valid selection, every move lands on another item. LEFT and RIGHT stay in the row; UP and DOWN leave it. |
| GridGeometry.ArrowTargetHorizontalAsWrittenCounterexample | lib/src/com/jess/ui/TwoWayGridView.java:3377-3382 | As written, RIGHT from the last column (three rows, five items, item 4 selected) reports a move that leaves the selection where it is. The intended navigation reports none. |
| GridGeometry.ArrowTargetHorizontalMoves | lib/src/com/jess/ui/TwoWayGridView.java:3351-3410 | With the corrected RIGHT test, every horizontal move lands on another item. |
| GridGeometry.PageTarget | lib/src/com/jess/ui/TwoWayGridView.java:497-514 | UP goes a screenful of children back, or to 0. DOWN goes a screenful forward, or to the last item. Any other direction gives -1. From a valid selection a target is an item. |
| GridGeometry.IsCandidateSelectionAsWrittenRefusesAll | lib/src/com/jess/ui/TwoWayGridView.java:2109-2141 | As written, a grid filled from the top never offers any child to focus arriving from below, from the right or backward. |
| GridGeometry.IsCandidateSelectionOffersEdges | lib/src/com/jess/ui/TwoWayGridView.java:2102-2142 | With the row end clamped to the last child, every direction has a candidate: the first child for focus from above, the left or before, and the last child for focus from below, the right or after. |
| GridGeometry.IsCandidateSelectionHorizontalLeftIsRight | lib/src/com/jess/ui/TwoWayGridView.java:3421-3463 | In the horizontal grid as written, focus from the left and focus from the right accept the same children. |
| AbsList.DrawsInPressedState | lib/src/com/jess/ui/TwoWayAbsListView.java:1602-1611 | The pressed look is drawn exactly in the touch modes strictly between pressing down and scrolling: after a tap and while waiting for a long press. Resting, pressing down, scrolling and flinging never draw it. |
| AbsList.ReconcileSelectedPosition | lib/src/com/jess/ui/TwoWayAbsListView.java:2242-2250 | With items, the result is an item. The candidate is the selection when there is one (≥ 0), otherwise the resurrect position. A candidate that is an item is returned, one past the end gives the last item, and a negative one gives 0. With no items the result is itemCount - 1. |
| AbsList.ResurrectAfterHide | lib/src/com/jess/ui/TwoWayAbsListView.java:2222-2235 | A pending different selection wins. Otherwise the current selection is kept, unless the layout pins a specific position. |
| AbsList.HideThenReconcile | lib/src/com/jess/ui/TwoWayAbsListView.java:2222-2250 | Hiding the selector and reconciling afterwards brings back the item that was selected, or about to be. |
| AbsList.ClampDelta | lib/src/com/jess/ui/TwoWayAbsListView.java:4205-4216 | The delta is cut to one pixel less than the list's height either way, keeping its sign and never growing. A delta within bounds is kept. |
| AbsList.LeadingAboveAll | lib/src/com/jess/ui/TwoWayAbsListView.java:4245-4264 | Every child counted as leaving when scrolling down ends above the top. The one after them does not. |
| AbsList.TrailingBelowAll | lib/src/com/jess/ui/TwoWayAbsListView.java:4265-4286 | Every child counted as leaving when scrolling up starts below the bottom. The one before them does not. |
| AbsList.AddedAllAppends | lib/src/com/jess/ui/TwoWayAbsListView.java:4245-4264 | Sending views to the scrap one by one appends each recyclable one to its own pile, in order, and nothing else. |
| AbsList.GetDistance | lib/src/com/jess/ui/TwoWayAbsListView.java:2507-2550 | The distance is defined exactly for the six focus directions and is never negative. Any other direction throws. |
| AbsList.GetDistanceMirrors | lib/src/com/jess/ui/TwoWayAbsListView.java:2507-2550 | Right from a to b measures as left from b to a, down as up, and forward as backward. |
| AbsList.GetDistanceAdjacent | lib/src/com/jess/ui/TwoWayAbsListView.java:2511-2516 | A neighbour right next to the source, on the same line, is at distance zero. |
| AbsList.SyncRequest | lib/src/com/jess/ui/TwoWayAbsListView.java:976-991 | A restored state asks to sync to the selected row when it has one, otherwise to the first row, and asks for nothing when it has neither. |
| AbsList.ScrolledKeepsRun | lib/src/com/jess/ui/TwoWayAbsListView.java:4245-4299 | The children kept after a scroll are a run of the old ones in order, each moved by the delta. Scrolling down keeps the trailing run and advances the first position by what left; scrolling up keeps the leading run and the first position. |
| AbsList.ScrolledDown | lib/src/com/jess/ui/TwoWayAbsListView.java:4245-4264 | Scrolling down drops exactly the leading children that end above the top less the increment; the first child kept does not. The first position advances by the number dropped, and each scrap pile grows by exactly the recyclable views of its type among the dropped children, front to back. |
| AbsList.ScrolledUp | lib/src/com/jess/ui/TwoWayAbsListView.java:4265-4286 | Scrolling up drops exactly the trailing children that start below the bottom less the increment; the last child kept does not. The first position stays, and each scrap pile grows by exactly the recyclable views of its type among the dropped children, back to front. |
| AbsList.ListView.constructor | lib/src/com/jess/ui/TwoWayAbsListView.java:200-438 | A new list is at rest, in the normal layout mode and idle, with no selection, no children, no items and a fresh recycler. |
| AbsList.ListView.CheckForTap | lib/src/com/jess/ui/TwoWayAbsListView.java:2040-2082 | A press still down becomes a tap and is drawn pressed. On a child that takes no focus, the layout mode resets, and the tap waits for a long press exactly when the list is long-clickable and the data is unchanged. |
| AbsList.ListView.ReportScrollStateChange | lib/src/com/jess/ui/TwoWayAbsListView.java:2144-2151 | The listener hears of a state only when it differs from the last one reported, so it never hears the same state twice in a row. |
| AbsList.ListView.StartScrollIfNeeded | lib/src/com/jess/ui/TwoWayAbsListView.java:3503-3531 | A scroll starts exactly when the move exceeds the touch slop. It then enters the scroll touch mode, remembers the delta and reports the touch-scroll state; otherwise nothing changes. |
| AbsList.ListView.HideSelector | lib/src/com/jess/ui/TwoWayAbsListView.java:2222-2235 | A visible selection is cleared, and the position to resurrect is remembered. Without a selection nothing changes. |
| AbsList.ListView.HandleDataChanged | lib/src/com/jess/ui/TwoWayAbsListView.java:2327-2439 | No sync stays pending. A sync position handed to the next layout is an item, and so is a new pending selection. Without items the layout is forced to the top or bottom and the selection is cleared. When no sync applies, out of touch mode the pending selection is clamped to the items (or, without an adapter, cleared with the layout forced to an end); in touch mode a position to resurrect keeps everything, and without one the selection is cleared and the layout forced to an end. |
| AbsList.ListView.ResetList | lib/src/com/jess/ui/TwoWayAbsListView.java:1060-1072 | The list holds no children, the first position is 0, no data change or sync is pending, nothing is selected or pending, and the selected top is 0; the list's invariant is kept. |
| AbsList.ListView.TrackMotionScroll | lib/src/com/jess/ui/TwoWayAbsListView.java:4188-4321 | With no children, or at the edge in the direction of the move, it reports the edge and changes nothing. Otherwise it clamps the deltas, scraps the children that leave (advancing the first position only when scrolling down), moves the rest, hides the selector in touch mode, and reports whether a gap opened. |
| AbsList.ListView.ScrollChildren | lib/src/com/jess/ui/TwoWayAbsListView.java:4245-4299 | Past the edge tests, the children, first position and scrap become those the scroll specification gives, and the touched child's new top is recorded. |
| AbsList.ListView.ScrapLeading | lib/src/com/jess/ui/TwoWayAbsListView.java:4245-4264 | The scrolling-down loop counts exactly the leading children above the top and sends their views to the scrap, front to back. |
| AbsList.ListView.ScrapTrailing | lib/src/com/jess/ui/TwoWayAbsListView.java:4265-4286 | The scrolling-up loop counts exactly the trailing children below the bottom and sends their views to the scrap, back to front. |
| AbsList.ListView.SaveInstanceState | lib/src/com/jess/ui/TwoWayAbsListView.java:912-965 | Saves the selection when there is one. Otherwise it saves the first child's item and its leading edge, or nothing when there are no children. The height is always saved. |
| AbsList.ListView.RestoreInstanceState | lib/src/com/jess/ui/TwoWayAbsListView.java:968-996 | Marks the data changed and asks the next layout to find the saved row again at its saved offset. With only a first item saved, the current selection is dropped. |
| AbsList.SaveThenRestore | lib/src/com/jess/ui/TwoWayAbsListView.java:866-996 | Saving, parcelling and restoring asks to sync to the selected item at its pending position and top when there was a selection, and otherwise to the first child's item at its edge. |
| PositionScrolling.StartPlan | lib/src/com/jess/ui/TwoWayAbsListView.java:3718-3744 | A target at or above the first child scrolls up and one at or below the last child scrolls down, each by the views to the target. A target strictly inside the screen needs no scroll. |
| PositionScrolling.BoundedPlan | lib/src/com/jess/ui/TwoWayAbsListView.java:3746-3803 | Without a bound it is the unbounded plan. With one, it moves towards the target, never further than the target, and takes the bound mode exactly when it stops short. It leaves the bound on screen, and gives up when the bound would leave at once. |
| PositionScrolling.Duration | lib/src/com/jess/ui/TwoWayAbsListView.java:3733-3737 | The whole duration is shared among the views travelled, truncating. With no views it is the whole duration. |
| PositionScrolling.PositionScroller.constructor | lib/src/com/jess/ui/TwoWayAbsListView.java:3714-3716 | A new scroller is not posted. |
| PositionScrolling.PositionScroller.Start | lib/src/com/jess/ui/TwoWayAbsListView.java:3718-3744 | With a plan, it records the plan's mode, the target and the duration per view, clears the bound and the last seen position, and posts itself. Otherwise nothing changes. |
| PositionScrolling.PositionScroller.StartBounded | lib/src/com/jess/ui/TwoWayAbsListView.java:3746-3803 | The same for the bounded plan, recording the bound. |
| PositionScrolling.PositionScroller.Stop | lib/src/com/jess/ui/TwoWayAbsListView.java:3805-3807 | The posted scroll is withdrawn. |
| GridFill.Cell | lib/src/com/jess/ui/TwoWayGridView.java:1891-1973 | A placed child keeps its measured size and shows its position. Its top is at y when flowing down, or its bottom is at y otherwise, and it sits in its column as the gravity says. |
| GridFill.RowSpan | lib/src/com/jess/ui/TwoWayGridView.java:955-967 | From the top, a row starts at its position and is cut short by the end of the data. Stacked from the bottom, it ends at its position, is cut short by position 0, and is pushed right. The row holds the position and is at most numColumns long. |
| GridFill.StackedRowEndsAligned | lib/src/com/jess/ui/TwoWayGridView.java:960-966 | Stacked from the bottom, a short row still ends where a full row ends. |
| GridFill.MadeRowShows | lib/src/com/jess/ui/TwoWayGridView.java:949-1001 | The row made for an item is not empty, has the row's length, and shows consecutive items from the row's first position. |
| GridFill.MadeRowEnds | lib/src/com/jess/ui/TwoWayGridView.java:994 | The row's last cell is the reference view from which the next row is measured. |
| GridFill.SelectedInSelects | lib/src/com/jess/ui/TwoWayGridView.java:976-991 | The child makeRow returns shows the selected position. There is one exactly when the selection is shown and some cell shows it. |
| GridFill.SelectedInAppend | lib/src/com/jess/ui/TwoWayGridView.java:934-937 | Over two runs of rows, the later run's selected child wins, as in fillDown's loop. |
| GridFill.FilledDownKeepsPromise | lib/src/com/jess/ui/TwoWayGridView.java:927-947 | fillDown visits row starts numColumns apart, one per row made. It stops at the first start past the data or at or below the end of the list. Its children show consecutive items from the first row's start. |
| GridFill.FilledUpKeepsPromise | lib/src/com/jess/ui/TwoWayGridView.java:1013-1038 | fillUp visits row starts numColumns apart going back. It stops at the first negative start or at or above the top of the list. Its children show consecutive items up to the end of the row it started at. |
| GridFill.FilledUpReferenceFront | lib/src/com/jess/ui/TwoWayGridView.java:1020-1025 | After fillUp, the reference view is the last child of the front row, and there is one exactly when a row was made. |
| GridFill.FilledUpSelects | lib/src/com/jess/ui/TwoWayGridView.java:1020-1023 | The child fillUp returns shows the selected position. There is one exactly when the selection is shown and a placed child shows it. |
| GridFill.FilledUpFront | lib/src/com/jess/ui/TwoWayGridView.java:1026-1035 | The first position fillUp leaves is the one its front child shows, in either stacking. With no row made, it is unchanged, or, stacked from the bottom, the position after the start. |
| GridFill.OffsetShows | lib/src/com/jess/ui/TwoWayGridView.java:1216 | Moving the children keeps the positions they show. |
| GridFill.AdjustDeltaMoves | lib/src/com/jess/ui/TwoWayGridView.java:1831-1873 | From the top, the first child comes up to the top of the list, a spacing lower when rows are hidden above, and never moves down. Stacked from the bottom, the last child comes down to the end, a spacing higher when items are hidden below, and never moves up. |
| GridFill.TooHighShiftMoves | lib/src/com/jess/ui/TwoWayGridView.java:1187-1216 | correctTooHigh moves down or not at all, only with the last item on screen. With rows hidden above, the last child reaches the end; with none hidden, it stops when the first child reaches the top. It always moves when the last item ends above the end and more content is above. |
| GridFill.TooLowShiftMoves | lib/src/com/jess/ui/TwoWayGridView.java:1229-1260 | correctTooLow moves up or not at all, only with the first item on screen. With items hidden below, the first child reaches the top; with none hidden, it stops when the last child reaches the end. It always moves when the first item starts below the top and more content is below. |
| GridFill.CorrectedTooLow | lib/src/com/jess/ui/TwoWayGridView.java:1229-1271 | correctTooLow never changes the first position. |
| GridFill.TooHighWithoutFill | lib/src/com/jess/ui/TwoWayGridView.java:1209-1217 | Without a shift, correctTooHigh changes nothing. With nothing hidden above, it only moves the children. |
| GridFill.TooLowWithoutFill | lib/src/com/jess/ui/TwoWayGridView.java:1253-1261 | Without a shift, correctTooLow changes nothing. With nothing hidden below, it only moves the children. |
| GridFill.GapFilledFirst | lib/src/com/jess/ui/TwoWayGridView.java:902-913 | Filling a gap upwards leaves the first position where the rows filled in above begin. |
| GridFill.CorrectedTooHighShows | lib/src/com/jess/ui/TwoWayGridView.java:1187-1227 | correctTooHigh keeps the children a run of consecutive items from the first position it leaves. |
| GridFill.CorrectedTooLowShows | lib/src/com/jess/ui/TwoWayGridView.java:1229-1271 | correctTooLow keeps the children a run of consecutive items from the same first position. |
| GridFill.GapFilledShows | lib/src/com/jess/ui/TwoWayGridView.java:886-914 | fillGap in either direction keeps the children a run of consecutive items from the first position it leaves. |
| GridFill.TopRowStart | lib/src/com/jess/ui/TwoWayGridView.java:1048-1057 | fillFromTop's first position is the start of the row that holds the first position pulled back to the selection and the last item and up to 0: a multiple of the column count, at most that position and less than a row before it. It is therefore an item when there are items, 0 with no selection, and never after a valid selection or the old first position. |
| GridFill.BottomRowEnd | lib/src/com/jess/ui/TwoWayGridView.java:1059-1068 | fillFromBottom's row end is at most the last item and a whole number of rows before it, and less than a row after the clamped position. |
| GridFill.PinTopOffset | lib/src/com/jess/ui/TwoWayGridView.java:1975-1983 | With the first item on screen, a first child below the top comes up to it and one at or above stays. Otherwise nothing moves, and nothing ever moves down. |
| GridFill.PinBottomOffset | lib/src/com/jess/ui/TwoWayGridView.java:1985-1994 | With the last item on screen, a last child above the bottom comes down to it and one at or below stays. Otherwise nothing moves, and nothing ever moves up. |
| GridViewing.RowGrows | lib/src/com/jess/ui/TwoWayGridView.java:976-992 | One pass of makeRow's loop extends the row by its next cell, a column and a spacing further. It inserts the cell at the row's length when flowing up, and selects the cell when it shows the selection. |
| GridViewing.GridView.constructor | lib/src/com/jess/ui/TwoWayGridView.java:69-87 | Columns and rows start as AUTO_FIT, spacings at 0, columns stretched, gravity LEFT, and there is no reference view. |
| GridViewing.GridView.DetermineColumns | lib/src/com/jess/ui/TwoWayGridView.java:1424-1495 | The column count is the one CellsPerLine picks, and the width and spacing are stretched as the mode says. The vertical spacing is the requested one. A zero divisor changes nothing else. |
| GridViewing.GridView.DetermineRows | lib/src/com/jess/ui/TwoWayGridView.java:2920-2991 | The horizontal mirror: the row count is the one CellsPerLine picks, the height and spacing are stretched, and the horizontal spacing is the requested one. |
| GridViewing.GridView.MakeAndAddView | lib/src/com/jess/ui/TwoWayGridView.java:859-883 | The view for the position is set up as its cell and added at the end of the children or at the given index. Its view type has a pile, so the grid's invariant is kept. |
| GridViewing.GridView.MakeRow | lib/src/com/jess/ui/TwoWayGridView.java:949-1001 | The row's cells go after the children when flowing down and in front otherwise. The reference view becomes the last cell made, and the result is the cell showing the selection. |
| GridViewing.GridView.FillDown | lib/src/com/jess/ui/TwoWayGridView.java:927-947 | The rows fillDown's specification describes are appended after the children. The reference view is the last child placed, and the result is makeRow's choice over all the rows. |
| GridViewing.GridView.FillUp | lib/src/com/jess/ui/TwoWayGridView.java:1013-1038 | The rows fillUp's specification describes are put in front of the children. The reference view is the front row's last child, and the first position is the one the front child shows. |
| GridViewing.GridView.FillFromTop | lib/src/com/jess/ui/TwoWayGridView.java:1048-1057 | The first position becomes the row start TopRowStart gives, and the rows are filled down from there. |
| GridViewing.GridView.FillFromBottom | lib/src/com/jess/ui/TwoWayGridView.java:1059-1068 | The last position becomes the row end BottomRowEnd gives, and the rows are filled up from there. |
| GridViewing.GridView.PinToTop | lib/src/com/jess/ui/TwoWayGridView.java:1975-1983 | The children move by PinTopOffset. |
| GridViewing.GridView.PinToBottom | lib/src/com/jess/ui/TwoWayGridView.java:1985-1994 | The children move by PinBottomOffset. |
| GridViewing.GridView.AdjustViewsUpOrDown | lib/src/com/jess/ui/TwoWayGridView.java:1831-1873 | The children move by the distance whose properties AdjustDeltaMoves proves. |
| GridViewing.GridView.CorrectTooHigh | lib/src/com/jess/ui/TwoWayGridView.java:1187-1227 | The children, first position and reference view become what correctTooHigh's specification gives. By CorrectedTooHighShows they stay a run of consecutive items. |
| GridViewing.GridView.CorrectTooLow | lib/src/com/jess/ui/TwoWayGridView.java:1229-1271 | The same for correctTooLow. The first position stays. |
| GridViewing.GridView.FillAboveMoved | lib/src/com/jess/ui/TwoWayGridView.java:1216-1223 | Once the children have moved down and items are hidden above, filling up above them and adjusting gives what correctTooHigh's specification gives; the grid's invariant is kept. |
| GridViewing.GridView.FillBelowMoved | lib/src/com/jess/ui/TwoWayGridView.java:1261-1268 | Once the children have moved up and items are hidden below, filling down below them and adjusting gives what correctTooLow's specification gives; the grid's invariant is kept. |
| GridViewing.GridView.FillGap | lib/src/com/jess/ui/TwoWayGridView.java:886-914 | The children, first position and reference view become what fillGap's specification gives. By GapFilledShows they stay a run of consecutive items. |
| GridViewing.GridView.FindMotionRowY | lib/src/com/jess/ui/TwoWayGridView.java:229-249 | From the top, the result is the position of the first row start whose bottom reaches y. Stacked from the bottom, it is the position of the last row end whose top is at or above y. Without one it is INVALID_POSITION. |
| GridViewing.GridView.FindMotionRowX | lib/src/com/jess/ui/TwoWayGridView.java:252-272 | The horizontal mirror over columns of numRows children. |
| GridViewing.GridView.SetSelectionInt | lib/src/com/jess/ui/TwoWayGridView.java:2002-2020 | After the layout pass nothing is pending and the pending selection equals the selection. With no items the list is reset. With items and unchanged data the selection is LaidOutSelection's: the requested position, except in a normal layout that starts without children. After a data change, handleDataChanged runs first and the selection is the position, an item or none. The grid's invariant is kept. |
| GridViewing.LaidOutSelection | lib/src/com/jess/ui/TwoWayGridView.java:1713-1781 | The selection a layout pass commits without a data change: none without items; the pending one when the layout mode places the selection or children were on screen; otherwise the first or last item, or none in touch mode or without an adapter. |
| GridViewing.GridView.CommitSelection | lib/src/com/jess/ui/TwoWayGridView.java:1726-1814 | With items, the selection becomes LaidOutSelection's for the pending position, the layout mode becomes normal, no data change or sync is pending, and the pending selection equals the selection. |
| GridViewing.GridView.HandleDataChangedInLayout | lib/src/com/jess/ui/TwoWayGridView.java:1713-1716 | The layout pass's handleDataChanged, by its effect on the selection: with no items the layout is forced to an end and nothing is pending; otherwise a pending selection it changes becomes none or an item. |
| GridViewing.GridView.ArrowScroll | lib/src/com/jess/ui/TwoWayGridView.java:2032-2091 | It moves exactly when a target exists. It then sets LAYOUT_MOVE_SELECTION and runs setSelectionInt on the target, which selects it when there are items and the data is unchanged. By ArrowTargetMoves the target is another item, in the row for LEFT and RIGHT. Otherwise nothing changes. |
| GridViewing.GridView.ArrowMove | lib/src/com/jess/ui/TwoWayGridView.java:2033-2079 | The move arrowScroll picks, without changing anything, is ArrowTarget's. |
| GridViewing.GridView.MoveSelectionTo | lib/src/com/jess/ui/TwoWayGridView.java:2053-2054 | LAYOUT_MOVE_SELECTION followed by setSelectionInt's layout pass. With items and unchanged data the target is selected. |
| GridViewing.GridView.ArrowScrollHorizontal | lib/src/com/jess/ui/TwoWayGridView.java:3351-3410 | The same for the horizontal builder, with the corrected RIGHT test. By ArrowTargetHorizontalMoves a reported move always changes the selection. |
| GridViewing.GridView.ArrowMoveHorizontal | lib/src/com/jess/ui/TwoWayGridView.java:3352-3398 | The move the horizontal arrowScroll picks, without changing anything, is ArrowTargetHorizontal's. |
| GridViewing.GridView.PageScroll | lib/src/com/jess/ui/TwoWayGridView.java:497-514 | It moves exactly when the page target is a position, counted from the children before the move, and then runs setSelectionInt on it in the current layout mode. Otherwise nothing changes. |
| GridViewing.GridView.FullScroll | lib/src/com/jess/ui/TwoWayGridView.java:523-542 | UP runs setSelectionInt on the first item and DOWN on the last, with LAYOUT_SET_SELECTION, so with items and unchanged data that item is selected. Any other direction changes nothing and reports no move. |

## Left out

- **Android view plumbing.** The adapter, the view tree, measuring, drawing,
  invalidation, selector drawables and the drawing cache are left out. A
  measured view is given per position, and a placed child is a record of its
  view and its four edges.
- **View reuse during a fill.** `makeAndAddView` asks the recycler for an
  active or scrap view; this model does not link that request to the fill.
  Each placed child is a fresh view identified by its position.
- **Layout passes.**
  - `layoutChildren`, `fillSelection`, `fillSpecific` and `moveSelection` are
    not modelled as placements of children. Their row arithmetic is the one
    `LineBounds` models.
  - `setSelectionInt` runs a layout pass; only its effect on the selection is
    modelled (see the SetSelectionInt lines below).
- SetSelectionInt: models of its layout pass only what the pass does to the
  selection: handleDataChanged after a data change, resetList without items,
  and the commit of the pending selection. With items, the children, the first
  position and the selected top are left as they were, where the source
  re-places them.
- SetSelectionInt: after a data change it states only that the selection is
  the requested position, an item or none, because which one is
  handleDataChanged's choice, stated on HandleDataChanged.
- **The horizontal fill builder.** `fillRight`, `fillLeft`, `makeColumn`,
  `correctTooLeft`, `correctTooRight`, `adjustViewsLeftOrRight`, `pinToLeft`,
  `pinToRight` and the horizontal `trackMotionScroll` mirror the vertical ones
  with the axes swapped. Only the vertical axis is modelled in full. The
  horizontal builder's `determineRows`, `findMotionRowX`, `arrowScroll`,
  `isCandidateSelection` and `setupChild` gravity are modelled.
- **Touch handling beyond the listed steps.** `onTouchEvent`, fling physics,
  the long-press and click runnables, and the `PositionScroller` run loop are
  animation and clock driven. Only `start`, `stop` and the synchronous
  touch-mode changes are modelled.
- **Key handling and focus.** `commonKey` and `onFocusChanged` are left out
  beyond the scrolling methods they call.
- **Floating point.** The scroll extent and offset, the smooth-scrollbar
  arithmetic and the fading-edge strengths use floating point.
- **Headers and footers.** A grid has none, so the header and footer counts
  are 0 throughout.
- **Integer width.**
  - Pixel and position arithmetic uses unbounded integers. The only places
    where 32-bit overflow is modelled are `Math.abs` (JAbs) and the parcel
    widths.
- **Recycler extras.** `setCacheColorHint` is modelled only through its scrap
  loop; see Findings.
- **The adapter's view types.** The adapter is taken to keep its promise that
  every item's view type is below `getViewTypeCount`. The recycler's methods
  require it (`TypeInRange`), and so do the list's and the grid's invariants.
  The model therefore does not cover an adapter that breaks it, where
  `addScrapView` and `scrapActiveViews` index `mScrapViews` out of range and
  throw ArrayIndexOutOfBoundsException (`getScrapView` checks the range and
  returns null, which the model's `GetScrapView` does too).
- **The grid's invariant before an adapter.** `GridView.Valid` holds only once
  the adapter has set the view type count. The constructor does not establish
  it, and the operations that place children require it.

## Findings

| source | as written | input that shows it | evidently intended | confidence | as-written member | corrected member |
|---|---|---|---|---|---|---|
| lib/src/com/jess/ui/TwoWayAbsListView.java:3413 | setCacheColorHint recolours `scrap.get(i)` inside the loop over `j`, when there are several view types | piles `[[a, b], [c, d]]`: a and d are recoloured twice and b and c never. Piles `[[], [c]]` throw IndexOutOfBoundsException | recolour `scrap.get(j)`, every scrap view once | not executed | Recycling.CacheHintScrapAsWrittenMisses | Recycling.AllScrap |
| lib/src/com/jess/ui/TwoWayGridView.java:2111 | the vertical isCandidateSelection sets rowEnd to `Math.max(rowStart + mNumColumns - 1, count)`, which is never a child's index | in a grid filled from the top (not stacked from the bottom), any childIndex with count ≥ 1 and FOCUS_UP, FOCUS_LEFT or FOCUS_BACKWARD answers false | `Math.min(rowStart + mNumColumns - 1, count - 1)` | not executed | GridGeometry.IsCandidateSelectionAsWrittenRefusesAll | GridGeometry.IsCandidateSelectionOffersEdges |
| lib/src/com/jess/ui/TwoWayGridView.java:3378 | the horizontal arrowScroll's FOCUS_RIGHT tests `startOfColumnPos < mItemCount - 1` | numRows 3, 5 items, item 4 selected: the test passes, the target is still 4, and arrowScroll reports a move | `endOfColumnPos < mItemCount - 1`, as the vertical FOCUS_DOWN does | not executed | GridGeometry.ArrowTargetHorizontalAsWrittenCounterexample | GridGeometry.ArrowTargetHorizontalMoves |
| lib/src/com/jess/ui/TwoWayGridView.java:3266-3276 | the horizontal setupChild compares the VERTICAL_GRAVITY_MASK result with CENTER_HORIZONTAL and RIGHT | CENTER_VERTICAL, row 10 high, child 4 high: the child stays at offset 0 instead of 3 | compare with CENTER_VERTICAL and BOTTOM | not executed | GridGeometry.ChildTopAsWrittenCounterexample | GridGeometry.ChildTop |
