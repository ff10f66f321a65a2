/*
 * The list-level state of TwoWayAbsListView: the touch-mode machine, the
 * scroll-state notifications, selection bookkeeping across hiding the
 * selector, data changes and saved state, and incremental scrolling of
 * the children on screen (the vertical axis; the horizontal handler
 * mirrors it with left/right for top/bottom).
 *
 * A child on screen is a recycled View with its edges; the child at index
 * i shows the adapter position firstPosition + i.
 */
module AbsList {
  import opened JavaLang
  import opened Recycling
  import opened SavedStateParcel
  import opened GridGeometry

  // mTouchMode
  const TOUCH_MODE_REST: int := -1
  const TOUCH_MODE_DOWN: int := 0
  const TOUCH_MODE_TAP: int := 1
  const TOUCH_MODE_DONE_WAITING: int := 2
  const TOUCH_MODE_SCROLL: int := 3
  const TOUCH_MODE_FLING: int := 4

  // mLayoutMode
  const LAYOUT_NORMAL: int := 0
  const LAYOUT_FORCE_TOP: int := 1
  const LAYOUT_SET_SELECTION: int := 2
  const LAYOUT_FORCE_BOTTOM: int := 3
  const LAYOUT_SPECIFIC: int := 4
  const LAYOUT_SYNC: int := 5
  const LAYOUT_MOVE_SELECTION: int := 6

  // mTranscriptMode
  const TRANSCRIPT_MODE_DISABLED: int := 0
  const TRANSCRIPT_MODE_NORMAL: int := 1
  const TRANSCRIPT_MODE_ALWAYS_SCROLL: int := 2

  // OnScrollListener scroll states
  const SCROLL_STATE_IDLE: int := 0
  const SCROLL_STATE_TOUCH_SCROLL: int := 1
  const SCROLL_STATE_FLING: int := 2

  // mSyncMode
  const SYNC_SELECTED_POSITION: int := 0
  const SYNC_FIRST_POSITION: int := 1

  datatype Child = Child(view: View, left: int, top: int, right: int, bottom: int)

  datatype Rect = Rect(left: int, top: int, right: int, bottom: int)

  /**
   * touchModeDrawsInPressedState: the pressed look is shown after a tap and
   * while waiting for a long press. These are exactly the modes strictly
   * between pressing down and scrolling, the range layoutChildren tests
   * before it puts the selector on the touched child; resting, pressing
   * down, scrolling and flinging never draw it.
   */
  predicate DrawsInPressedState(touchMode: int): (b: bool)
    ensures b <==> TOUCH_MODE_DOWN < touchMode < TOUCH_MODE_SCROLL
    ensures touchMode in {TOUCH_MODE_REST, TOUCH_MODE_DOWN, TOUCH_MODE_SCROLL, TOUCH_MODE_FLING} ==> !b
  {
    touchMode == TOUCH_MODE_TAP || touchMode == TOUCH_MODE_DONE_WAITING
  }

  /**
   * reconcileSelectedPosition: the selection, or where the selection is to
   * be resurrected when it was cleared, pinned to the items available. A
   * candidate past the last item becomes the last item, and a negative one
   * becomes the first; the resurrect position is consulted only when there
   * is no selection at all.
   */
  function ReconcileSelectedPosition(selected: int, resurrectTo: int, itemCount: int): (r: int)
    ensures itemCount >= 1 ==> 0 <= r < itemCount
    ensures itemCount <= 0 ==> r == itemCount - 1
    ensures 0 <= selected < itemCount ==> r == selected
    ensures selected < 0 && 0 <= resurrectTo < itemCount ==> r == resurrectTo
    ensures itemCount >= 1 && selected < 0 && resurrectTo < 0 ==> r == 0
    ensures itemCount >= 1 && selected >= itemCount ==> r == itemCount - 1
    ensures itemCount >= 1 && selected < 0 && resurrectTo >= itemCount ==> r == itemCount - 1
  {
    var position := if selected < 0 then resurrectTo else selected;
    Min(Max(0, position), itemCount - 1)
  }

  /**
   * The resurrect position hideSelector leaves behind when a selection is
   * hidden: a pending different selection wins, otherwise the current one
   * unless the layout pins a specific position.
   */
  function ResurrectAfterHide(selected: int, next: int, layoutMode: int, resurrectTo: int): (r: int)
    ensures next >= 0 && next != selected ==> r == next
    ensures !(next >= 0 && next != selected) && layoutMode != LAYOUT_SPECIFIC ==> r == selected
    ensures !(next >= 0 && next != selected) && layoutMode == LAYOUT_SPECIFIC ==> r == resurrectTo
  {
    var r := if layoutMode != LAYOUT_SPECIFIC then selected else resurrectTo;
    if next >= 0 && next != selected then next else r
  }

  /**
   * Hiding the selector and reconciling afterwards brings back the item
   * that was selected (or about to be), so leaving and re-entering touch
   * mode does not lose the selection.
   */
  lemma HideThenReconcile(selected: int, next: int, layoutMode: int, resurrectTo: int, itemCount: int)
    requires 0 <= selected < itemCount && next < itemCount
    requires layoutMode != LAYOUT_SPECIFIC
    ensures var wanted := if next >= 0 then next else selected;
      ReconcileSelectedPosition(INVALID_POSITION, ResurrectAfterHide(selected, next, layoutMode, resurrectTo), itemCount) == wanted
  {
  }

  /** The delta trackMotionScroll works with: at most one pixel less than the list's height either way. */
  function ClampDelta(delta: int, height: int): (r: int)
    ensures height >= 1 ==> -(height - 1) <= r <= height - 1
    ensures height >= 1 ==> Abs(r) <= Abs(delta) && (delta < 0 ==> r <= 0) && (delta >= 0 ==> r >= 0)
    ensures Abs(delta) <= height - 1 ==> r == delta
  {
    if delta < 0 then Max(-(height - 1), delta) else Min(height - 1, delta)
  }

  /** Every child's view has a pile, or is not recycled. */
  predicate ViewsFit(typeCount: int, cs: seq<Child>) {
    forall i :: 0 <= i < |cs| ==> TypeInRange(typeCount, cs[i].view)
  }

  /** Moved children still fit the heap. */
  lemma ViewsFitOffset(typeCount: int, cs: seq<Child>, delta: int)
    requires ViewsFit(typeCount, cs)
    ensures ViewsFit(typeCount, Offset(cs, delta))
  {
    var r := Offset(cs, delta);
    forall i | 0 <= i < |r|
      ensures TypeInRange(typeCount, r[i].view)
    {
      OffsetAt(cs, delta, i);
    }
  }

  /** The children moved by `delta` pixels along the scrolling axis, each one in its place. */
  function Offset(cs: seq<Child>, delta: int): (r: seq<Child>)
    ensures |r| == |cs|
  {
    seq(|cs|, i requires 0 <= i < |cs| => cs[i].(top := cs[i].top + delta, bottom := cs[i].bottom + delta))
  }

  /** Moving the children by nothing leaves them where they are. */
  lemma OffsetZero(cs: seq<Child>)
    ensures Offset(cs, 0) == cs
  {
    assert forall i | 0 <= i < |cs| :: Offset(cs, 0)[i] == cs[i];
  }

  /** Each moved child is the original one moved by `delta`, with its view and cross-axis bounds kept. */
  lemma OffsetAt(cs: seq<Child>, delta: int, j: int)
    requires 0 <= j < |cs|
    ensures Offset(cs, delta)[j] == cs[j].(top := cs[j].top + delta, bottom := cs[j].bottom + delta)
  {
  }

  /** How many children at the front end above `top`: those trackMotionScroll drops when scrolling down. */
  function LeadingAbove(cs: seq<Child>, top: int): (n: nat)
    ensures n <= |cs|
    ensures n < |cs| ==> cs[n].bottom >= top
  {
    if |cs| == 0 || cs[0].bottom >= top then 0
    else 1 + LeadingAbove(cs[1..], top)
  }

  /** How many children at the back start below `bottom`: those dropped when scrolling up. */
  function TrailingBelow(cs: seq<Child>, bottom: int): (n: nat)
    ensures n <= |cs|
    ensures n < |cs| ==> cs[|cs| - 1 - n].top <= bottom
  {
    if |cs| == 0 || cs[|cs| - 1].top <= bottom then 0
    else 1 + TrailingBelow(cs[..|cs| - 1], bottom)
  }

  /** Every child LeadingAbove counts ends above `top`. */
  lemma {:induction false} LeadingAboveAll(cs: seq<Child>, top: int)
    ensures forall j :: 0 <= j < LeadingAbove(cs, top) ==> cs[j].bottom < top
  {
    if |cs| > 0 && cs[0].bottom < top {
      LeadingAboveAll(cs[1..], top);
      assert forall j :: 1 <= j < LeadingAbove(cs, top) ==> cs[j] == cs[1..][j - 1];
    }
  }

  /** Every child TrailingBelow counts starts below `bottom`. */
  lemma {:induction false} TrailingBelowAll(cs: seq<Child>, bottom: int)
    ensures forall j :: |cs| - TrailingBelow(cs, bottom) <= j < |cs| ==> cs[j].top > bottom
  {
    if |cs| > 0 && cs[|cs| - 1].top > bottom {
      TrailingBelowAll(cs[..|cs| - 1], bottom);
      assert forall j :: |cs| - TrailingBelow(cs, bottom) <= j < |cs| - 1 ==> cs[j] == cs[..|cs| - 1][j];
    }
  }

  /** A child from the front that ends above `top`, after only such children, is one more of them. */
  lemma LeadingAbovePast(cs: seq<Child>, top: int, k: nat)
    requires k < |cs| && k <= LeadingAbove(cs, top) && cs[k].bottom < top
    ensures k < LeadingAbove(cs, top)
  {
  }

  /** Only such children from the front, up to one that does not end above `top` or to the back, are all of them. */
  lemma LeadingAboveStop(cs: seq<Child>, top: int, k: nat)
    requires k <= LeadingAbove(cs, top) && (k == |cs| || cs[k].bottom >= top)
    ensures k == LeadingAbove(cs, top)
  {
    LeadingAboveAll(cs, top);
  }

  /** A child from the back that starts below `bottom`, after only such children, is one more of them. */
  lemma TrailingBelowPast(cs: seq<Child>, bottom: int, k: nat)
    requires k < |cs| && k <= TrailingBelow(cs, bottom) && cs[|cs| - 1 - k].top > bottom
    ensures k < TrailingBelow(cs, bottom)
  {
  }

  /** Only such children from the back, up to one that does not start below `bottom` or to the front, are all of them. */
  lemma TrailingBelowStop(cs: seq<Child>, bottom: int, k: nat)
    requires k <= TrailingBelow(cs, bottom) && (k == |cs| || cs[|cs| - 1 - k].top <= bottom)
    ensures k == TrailingBelow(cs, bottom)
  {
    TrailingBelowAll(cs, bottom);
  }

  /**
   * The views of the first `n` children, the first one showing adapter
   * position `first`, that go to the scrap heap, front to back: those of
   * item positions (a grid has no header or footer views).
   */
  function ScrappedFront(cs: seq<Child>, n: nat, first: int, itemCount: int): (r: seq<View>)
    requires n <= |cs|
    ensures |r| <= n
  {
    if n == 0 then []
    else
      ScrappedFront(cs, n - 1, first, itemCount)
        + (if 0 <= first + n - 1 < itemCount then [cs[n - 1].view] else [])
  }

  /** The same for the last `n` children, back to front. */
  function ScrappedBack(cs: seq<Child>, n: nat, first: int, itemCount: int): (r: seq<View>)
    requires n <= |cs|
    ensures |r| <= n
  {
    if n == 0 then []
    else
      var i := |cs| - n;
      ScrappedBack(cs, n - 1, first, itemCount)
        + (if 0 <= first + i < itemCount then [cs[i].view] else [])
  }

  lemma AddedAllSnoc(piles: seq<seq<View>>, vs: seq<View>, v: View)
    requires |piles| >= 1 && TypeInRange(|piles|, v)
    ensures AddedAll(piles, vs + [v]) == Added(AddedAll(piles, vs), v)
  {
    assert (vs + [v])[..|vs|] == vs;
  }

  /**
   * The scrap heap after adding the views one after the other (a view
   * whose type the heap has no pile for is passed over; the list never
   * holds one).
   */
  function AddedAll(piles: seq<seq<View>>, vs: seq<View>): (r: seq<seq<View>>)
    requires |piles| >= 1
    ensures |r| == |piles|
  {
    if |vs| == 0 then piles
    else
      var p := AddedAll(piles, vs[..|vs| - 1]);
      var v := vs[|vs| - 1];
      if TypeInRange(|p|, v) then Added(p, v) else p
  }

  /** The views among `vs` that a heap of `typeCount` piles keeps on pile `k`, in order. */
  function Kept(typeCount: int, vs: seq<View>, k: int): seq<View>
  {
    if |vs| == 0 then []
    else
      var v := vs[|vs| - 1];
      Kept(typeCount, vs[..|vs| - 1], k)
        + (if Recyclable(v) && PileIndex(typeCount, v.viewType.value) == k then [v] else [])
  }

  /** Adding views one by one appends each recyclable one to its own pile and nothing else. */
  lemma {:induction false} AddedAllAppends(piles: seq<seq<View>>, vs: seq<View>, k: int)
    requires |piles| >= 1 && forall v :: v in vs ==> TypeInRange(|piles|, v)
    requires 0 <= k < |piles|
    ensures AddedAll(piles, vs)[k] == piles[k] + Kept(|piles|, vs, k)
    decreases |vs|
  {
    if |vs| > 0 {
      var init := vs[..|vs| - 1];
      assert forall v :: v in init ==> v in vs;
      AddedAllAppends(piles, init, k);
    }
  }

  /**
   * getDistance: the squared distance between the exits of `source` and
   * the entries of `dest` for the focus `direction`; None is the
   * IllegalArgumentException for any other direction. Halves truncate.
   */
  function GetDistance(source: Rect, dest: Rect, direction: int): (r: Option<int>)
    ensures r.Some? <==> direction in {FOCUS_RIGHT, FOCUS_DOWN, FOCUS_LEFT, FOCUS_UP, FOCUS_FORWARD, FOCUS_BACKWARD}
    ensures r.Some? ==> r.value >= 0
  {
    var sMidY := source.top + JDiv(source.bottom - source.top, 2);
    var dMidY := dest.top + JDiv(dest.bottom - dest.top, 2);
    var sMidX := source.left + JDiv(source.right - source.left, 2);
    var dMidX := dest.left + JDiv(dest.right - dest.left, 2);
    var points: Option<(int, int, int, int)> :=
      if direction == FOCUS_RIGHT then Some((source.right, sMidY, dest.left, dMidY))
      else if direction == FOCUS_DOWN then Some((sMidX, source.bottom, dMidX, dest.top))
      else if direction == FOCUS_LEFT then Some((source.left, sMidY, dest.right, dMidY))
      else if direction == FOCUS_UP then Some((sMidX, source.top, dMidX, dest.bottom))
      else if direction == FOCUS_FORWARD || direction == FOCUS_BACKWARD then
        Some((source.right + JDiv(source.right - source.left, 2), sMidY, dMidX, dMidY))
      else None;
    match points
    case None => None
    case Some((sX, sY, dX, dY)) => Some(SquaredDistance(sX, sY, dX, dY))
  }

  function SquaredDistance(sX: int, sY: int, dX: int, dY: int): (r: int)
    ensures r >= 0
  {
    var deltaX := dX - sX;
    var deltaY := dY - sY;
    deltaY * deltaY + deltaX * deltaX
  }

  lemma SquaredDistanceSymmetric(sX: int, sY: int, dX: int, dY: int)
    ensures SquaredDistance(sX, sY, dX, dY) == SquaredDistance(dX, dY, sX, sY)
  {
    assert (sX - dX) * (sX - dX) == (dX - sX) * (dX - sX);
    assert (sY - dY) * (sY - dY) == (dY - sY) * (dY - sY);
  }

  /**
   * Going right from `a` to `b` is as far as going left from `b` to `a`,
   * and likewise down and up; forward and backward measure alike.
   */
  lemma GetDistanceMirrors(a: Rect, b: Rect)
    ensures GetDistance(a, b, FOCUS_RIGHT) == GetDistance(b, a, FOCUS_LEFT)
    ensures GetDistance(a, b, FOCUS_DOWN) == GetDistance(b, a, FOCUS_UP)
    ensures GetDistance(a, b, FOCUS_FORWARD) == GetDistance(a, b, FOCUS_BACKWARD)
  {
    var aMidY := a.top + JDiv(a.bottom - a.top, 2);
    var bMidY := b.top + JDiv(b.bottom - b.top, 2);
    var aMidX := a.left + JDiv(a.right - a.left, 2);
    var bMidX := b.left + JDiv(b.right - b.left, 2);
    SquaredDistanceSymmetric(a.right, aMidY, b.left, bMidY);
    SquaredDistanceSymmetric(aMidX, a.bottom, bMidX, b.top);
  }

  /** A neighbour right next to the source, centred on the same line, is at distance zero. */
  lemma GetDistanceAdjacent(a: Rect, b: Rect)
    requires b.left == a.right && b.top == a.top && b.bottom == a.bottom
    ensures GetDistance(a, b, FOCUS_RIGHT) == Some(0)
  {
  }

  /**
   * The sync target a restored state asks for: the mode, the row id to
   * find again, its position and its offset from the top, or None when
   * the state holds neither a selection nor a first item.
   */
  function SyncRequest(ss: SavedState): (r: Option<(int, int, int, int)>)
    ensures r.Some? <==> ss.selectedId >= 0 || ss.firstId >= 0
    ensures ss.selectedId >= 0 ==> r == Some((SYNC_SELECTED_POSITION, ss.selectedId, ss.position, ss.viewTop))
    ensures ss.selectedId < 0 && ss.firstId >= 0 ==> r == Some((SYNC_FIRST_POSITION, ss.firstId, ss.position, ss.viewTop))
  {
    if ss.selectedId >= 0 then Some((SYNC_SELECTED_POSITION, ss.selectedId, ss.position, ss.viewTop))
    else if ss.firstId >= 0 then Some((SYNC_FIRST_POSITION, ss.firstId, ss.position, ss.viewTop))
    else None
  }

  /**
   * After the move, the children kept are a run of the old ones in
   * order, each moved by `inc`: moving down they are the trailing run
   * (so the last item shown stays the last one) and the first of them
   * still reaches the top; moving up they are the leading run and the
   * last of them still starts above the bottom.
   */
  lemma ScrolledKeepsRun(cs: seq<Child>, first: int, piles: seq<seq<View>>, inc: int, top: int, bottom: int,
                         itemCount: int)
    requires |piles| >= 1
    ensures var (kept, first', _) := Scrolled(cs, first, piles, inc, top, bottom, itemCount);
      var lo := if inc < 0 then |cs| - |kept| else 0;
      && (inc < 0 ==> first' == first + lo && (|kept| > 0 ==> kept[0].bottom >= top))
      && (inc >= 0 ==> first' == first && (|kept| > 0 ==> kept[|kept| - 1].top <= bottom))
      && forall j :: 0 <= j < |kept| ==>
           kept[j] == cs[lo + j].(top := cs[lo + j].top + inc, bottom := cs[lo + j].bottom + inc)
  {
    if inc < 0 {
      KeptBehind(cs, LeadingAbove(cs, top - inc), inc);
    } else {
      KeptAhead(cs, TrailingBelow(cs, bottom - inc), inc);
    }
  }

  /** The children after the first `n`, moved by `inc`. */
  lemma KeptBehind(cs: seq<Child>, n: nat, inc: int)
    requires n <= |cs|
    ensures forall j :: 0 <= j < |cs| - n ==>
      Offset(cs[n..], inc)[j] == cs[n + j].(top := cs[n + j].top + inc, bottom := cs[n + j].bottom + inc)
  {
    forall j | 0 <= j < |cs| - n
      ensures Offset(cs[n..], inc)[j] == cs[n + j].(top := cs[n + j].top + inc, bottom := cs[n + j].bottom + inc)
    {
      OffsetAt(cs[n..], inc, j);
    }
  }

  /** The children before the last `n`, moved by `inc`. */
  lemma KeptAhead(cs: seq<Child>, n: nat, inc: int)
    requires n <= |cs|
    ensures forall j :: 0 <= j < |cs| - n ==>
      Offset(cs[..|cs| - n], inc)[j] == cs[j].(top := cs[j].top + inc, bottom := cs[j].bottom + inc)
  {
    forall j | 0 <= j < |cs| - n
      ensures Offset(cs[..|cs| - n], inc)[j] == cs[j].(top := cs[j].top + inc, bottom := cs[j].bottom + inc)
    {
      OffsetAt(cs[..|cs| - n], inc, j);
    }
  }

  /**
   * trackMotionScroll's edge test: there are no children, or the first
   * item shows fully below `top` while the content moves down by `d >= 0`,
   * or the last item shows fully above `bottom` while it moves up.
   */
  predicate AtEdge(cs: seq<Child>, first: int, itemCount: int, top: int, bottom: int, d: int) {
    || |cs| == 0
    || (first == 0 && cs[0].top >= top && d >= 0)
    || (first + |cs| == itemCount && cs[|cs| - 1].bottom <= bottom && d <= 0)
  }

  /** A gap opens at either end when it moves by `inc`: the subclass must fill it. */
  predicate GapOpens(cs: seq<Child>, top: int, bottom: int, inc: int)
    requires |cs| > 0
  {
    top - cs[0].top < Abs(inc) || cs[|cs| - 1].bottom - bottom < Abs(inc)
  }

  /**
   * What trackMotionScroll does past its edge tests to the children `cs`
   * showing items from `first` on and to the scrap piles `piles`, for an
   * incremental delta `inc` and the list's inner top and bottom: moving
   * down (`inc < 0`) the leading children whose bottom is above
   * `top - inc` leave and `first` advances past them; moving up the
   * trailing children whose top is below `bottom - inc` leave. The
   * children that leave and show adapter items go to the scrap heap in
   * the order they are met; the others move by `inc`. The result is the
   * new children, first position and piles.
   */
  function Scrolled(cs: seq<Child>, first: int, piles: seq<seq<View>>, inc: int, top: int, bottom: int, itemCount: int)
    : (r: (seq<Child>, int, seq<seq<View>>))
    requires |piles| >= 1
    ensures |r.0| <= |cs| && first <= r.1 <= first + |cs| - |r.0| && |r.2| == |piles|
    ensures inc >= 0 ==> r.1 == first
  {
    if inc < 0 then
      var n := LeadingAbove(cs, top - inc);
      (Offset(cs[n..], inc), first + n, AddedAll(piles, ScrappedFront(cs, n, first, itemCount)))
    else
      var n := TrailingBelow(cs, bottom - inc);
      (Offset(cs[..|cs| - n], inc), first, AddedAll(piles, ScrappedBack(cs, n, first, itemCount)))
  }

  /**
   * Scrolling down: the children that leave are exactly the leading ones
   * wholly above `top - inc` (the first kept child is not), the first
   * position advances by their number, and each scrap pile grows by
   * exactly the recyclable views among them of its type, front to back.
   */
  lemma ScrolledDown(cs: seq<Child>, first: int, piles: seq<seq<View>>, inc: int, top: int, bottom: int, itemCount: int)
    requires |piles| >= 1 && inc < 0 && ViewsFit(|piles|, cs)
    ensures var (kept, first', piles') := Scrolled(cs, first, piles, inc, top, bottom, itemCount);
      var n := first' - first;
      && 0 <= n && n == |cs| - |kept|
      && (forall j :: 0 <= j < n ==> cs[j].bottom < top - inc)
      && (n < |cs| ==> cs[n].bottom >= top - inc)
      && forall k :: 0 <= k < |piles| ==>
           piles'[k] == piles[k] + Kept(|piles|, ScrappedFront(cs, n, first, itemCount), k)
  {
    var n := LeadingAbove(cs, top - inc);
    LeadingAboveAll(cs, top - inc);
    var vs := ScrappedFront(cs, n, first, itemCount);
    ScrappedFrontFrom(cs, n, first, itemCount);
    forall k | 0 <= k < |piles|
      ensures AddedAll(piles, vs)[k] == piles[k] + Kept(|piles|, vs, k)
    {
      AddedAllAppends(piles, vs, k);
    }
  }

  /**
   * Scrolling up: the children that leave are exactly the trailing ones
   * wholly below `bottom - inc` (the last kept child is not), the first
   * position stays, and each scrap pile grows by exactly the recyclable
   * views among them of its type, back to front.
   */
  lemma ScrolledUp(cs: seq<Child>, first: int, piles: seq<seq<View>>, inc: int, top: int, bottom: int, itemCount: int)
    requires |piles| >= 1 && inc >= 0 && ViewsFit(|piles|, cs)
    ensures var (kept, first', piles') := Scrolled(cs, first, piles, inc, top, bottom, itemCount);
      var n := |cs| - |kept|;
      && first' == first && 0 <= n
      && (forall j :: |kept| <= j < |cs| ==> cs[j].top > bottom - inc)
      && (|kept| > 0 ==> cs[|kept| - 1].top <= bottom - inc)
      && forall k :: 0 <= k < |piles| ==>
           piles'[k] == piles[k] + Kept(|piles|, ScrappedBack(cs, n, first, itemCount), k)
  {
    var n := TrailingBelow(cs, bottom - inc);
    TrailingBelowAll(cs, bottom - inc);
    var vs := ScrappedBack(cs, n, first, itemCount);
    ScrappedBackFrom(cs, n, first, itemCount);
    forall k | 0 <= k < |piles|
      ensures AddedAll(piles, vs)[k] == piles[k] + Kept(|piles|, vs, k)
    {
      AddedAllAppends(piles, vs, k);
    }
  }

  /** The views scrapped from the front are views of the first `n` children. */
  lemma {:induction false} ScrappedFrontFrom(cs: seq<Child>, n: nat, first: int, itemCount: int)
    requires n <= |cs|
    ensures forall v :: v in ScrappedFront(cs, n, first, itemCount) ==> exists j :: 0 <= j < n && cs[j].view == v
  {
    if n > 0 {
      ScrappedFrontFrom(cs, n - 1, first, itemCount);
    }
  }

  /** The views scrapped from the back are views of the last `n` children. */
  lemma {:induction false} ScrappedBackFrom(cs: seq<Child>, n: nat, first: int, itemCount: int)
    requires n <= |cs|
    ensures forall v :: v in ScrappedBack(cs, n, first, itemCount) ==> exists j :: |cs| - n <= j < |cs| && cs[j].view == v
  {
    if n > 0 {
      ScrappedBackFrom(cs, n - 1, first, itemCount);
    }
  }

  class ListView {
    const recycler: RecycleBin

    var hasAdapter: bool
    var itemCount: int
    var oldItemCount: int
    var dataChanged: bool
    var inTouchMode: bool
    var isVertical: bool
    var stackFromBottom: bool
    var transcriptMode: int

    var touchMode: int
    var touchSlop: int
    var layoutMode: int
    var motionPosition: int
    var motionCorrection: int
    var motionViewOriginalTop: int
    var motionViewNewTop: int

    /** mLastScrollState, and the states the scroll listener was told about, oldest first. */
    var lastScrollState: int
    var hasScrollListener: bool
    var scrollStateEvents: seq<int>

    var firstPosition: int
    var selectedPosition: int
    var nextSelectedPosition: int
    var resurrectToPosition: int
    var selectedTop: int

    var needSync: bool
    var syncMode: int
    var syncRowId: int
    var syncPosition: int
    var syncSize: int
    var specificTop: int

    var children: seq<Child>

    // The list's size and paddings, fixed once measured (measuring is not modelled).
    const listPaddingLeft: int
    const listPaddingTop: int
    const listPaddingRight: int
    const listPaddingBottom: int
    const paddingTop: int
    const paddingBottom: int
    const width: int
    const height: int

    /**
     * The recycler is usable, every child's view type fits it, and the
     * listener never heard the same state twice in a row, the last one
     * being mLastScrollState.
     */
    ghost predicate Valid()
      reads this`children, this`scrollStateEvents, this`lastScrollState, recycler, recycler.active
    {
      && recycler.Valid()
      && ViewsFit(recycler.viewTypeCount, children)
      && (|scrollStateEvents| > 0 ==> scrollStateEvents[|scrollStateEvents| - 1] == lastScrollState)
      && (forall i, j :: 0 <= i && j == i + 1 && j < |scrollStateEvents| ==> scrollStateEvents[i] != scrollStateEvents[j])
    }

    constructor(width: int, height: int, paddingTop: int, paddingBottom: int,
                listPaddingLeft: int, listPaddingTop: int, listPaddingRight: int, listPaddingBottom: int)
      ensures this.width == width && this.height == height
      ensures this.paddingTop == paddingTop && this.paddingBottom == paddingBottom
      ensures this.listPaddingLeft == listPaddingLeft && this.listPaddingTop == listPaddingTop
      ensures this.listPaddingRight == listPaddingRight && this.listPaddingBottom == listPaddingBottom
      ensures fresh(recycler) && recycler.viewTypeCount == 0
      ensures touchMode == TOUCH_MODE_REST && layoutMode == LAYOUT_NORMAL
      ensures lastScrollState == SCROLL_STATE_IDLE && scrollStateEvents == []
      ensures selectedPosition == INVALID_POSITION && nextSelectedPosition == INVALID_POSITION
      ensures resurrectToPosition == INVALID_POSITION && children == [] && itemCount == 0
    {
      recycler := new RecycleBin();
      this.width, this.height, this.paddingTop, this.paddingBottom := width, height, paddingTop, paddingBottom;
      this.listPaddingLeft, this.listPaddingTop := listPaddingLeft, listPaddingTop;
      this.listPaddingRight, this.listPaddingBottom := listPaddingRight, listPaddingBottom;
      touchMode := TOUCH_MODE_REST;
      layoutMode := LAYOUT_NORMAL;
      lastScrollState := SCROLL_STATE_IDLE;
      scrollStateEvents := [];
      selectedPosition := INVALID_POSITION;
      nextSelectedPosition := INVALID_POSITION;
      resurrectToPosition := INVALID_POSITION;
      children := [];
      itemCount := 0;
    }

    /** The child showing adapter position `position`, if it is on screen. */
    function ChildAt(position: int): (c: Option<Child>)
      reads this
      ensures c.Some? <==> 0 <= position - firstPosition < |children|
      ensures c.Some? ==> c.value == children[position - firstPosition]
    {
      var i := position - firstPosition;
      if 0 <= i < |children| then Some(children[i]) else None
    }

    /**
     * CheckForTap, once the tap timeout has passed: a press still down
     * becomes a tap. A tapped child that takes no focus itself resets the
     * layout mode; it then waits for a long press if the list is
     * long-clickable and the data is unchanged, and otherwise is done
     * waiting. Either way the item is drawn pressed.
     */
    method CheckForTap(childHasFocusable: bool, longClickable: bool)
      modifies this`touchMode, this`layoutMode
      ensures old(touchMode) != TOUCH_MODE_DOWN ==> touchMode == old(touchMode) && layoutMode == old(layoutMode)
      ensures old(touchMode) == TOUCH_MODE_DOWN ==> DrawsInPressedState(touchMode)
      ensures old(touchMode) == TOUCH_MODE_DOWN && ChildAt(motionPosition).Some? && !childHasFocusable ==>
        layoutMode == LAYOUT_NORMAL
        && (touchMode == TOUCH_MODE_TAP <==> !dataChanged && longClickable)
      ensures old(touchMode) == TOUCH_MODE_DOWN && !(ChildAt(motionPosition).Some? && !childHasFocusable) ==>
        touchMode == TOUCH_MODE_TAP && layoutMode == old(layoutMode)
    {
      if touchMode == TOUCH_MODE_DOWN {
        touchMode := TOUCH_MODE_TAP;
        var child := ChildAt(motionPosition);
        if child.Some? && !childHasFocusable {
          layoutMode := LAYOUT_NORMAL;
          if !dataChanged {
            if !longClickable {
              touchMode := TOUCH_MODE_DONE_WAITING;
            }
          } else {
            touchMode := TOUCH_MODE_DONE_WAITING;
          }
        }
      }
    }

    /**
     * reportScrollStateChange: the listener hears of a new state only when
     * it differs from the last one reported, which is what keeps the
     * notifications free of repeats.
     */
    method ReportScrollStateChange(newState: int)
      requires Valid()
      modifies this`lastScrollState, this`scrollStateEvents
      ensures Valid()
      ensures newState != old(lastScrollState) && hasScrollListener ==>
        lastScrollState == newState && scrollStateEvents == old(scrollStateEvents) + [newState]
      ensures !(newState != old(lastScrollState) && hasScrollListener) ==>
        lastScrollState == old(lastScrollState) && scrollStateEvents == old(scrollStateEvents)
    {
      if newState != lastScrollState {
        if hasScrollListener {
          scrollStateEvents := scrollStateEvents + [newState];
          lastScrollState := newState;
        }
      }
    }

    /**
     * startScrollIfNeeded: a move farther than the touch slop turns the
     * gesture into a scroll, remembers the delta as the motion
     * correction and reports the touch-scroll state.
     */
    method StartScrollIfNeeded(delta: int) returns (started: bool)
      requires Valid() && IsInt(delta)
      modifies this`touchMode, this`motionCorrection, this`lastScrollState, this`scrollStateEvents
      ensures Valid()
      ensures started <==> JAbs(delta) > touchSlop
      ensures started ==> touchMode == TOUCH_MODE_SCROLL && motionCorrection == delta
      ensures started && hasScrollListener ==> lastScrollState == SCROLL_STATE_TOUCH_SCROLL
      ensures !started ==> (touchMode == old(touchMode) && motionCorrection == old(motionCorrection)
        && lastScrollState == old(lastScrollState) && scrollStateEvents == old(scrollStateEvents))
    {
      var distance := JAbs(delta);
      if distance > touchSlop {
        touchMode := TOUCH_MODE_SCROLL;
        motionCorrection := delta;
        ReportScrollStateChange(SCROLL_STATE_TOUCH_SCROLL);
        return true;
      }
      return false;
    }

    /**
     * resetList: the list is empty, so every child goes, the first
     * position is 0, nothing is pending and nothing is selected.
     */
    method ResetList()
      requires Valid()
      modifies this`children, this`firstPosition, this`dataChanged, this`needSync, this`selectedPosition,
        this`nextSelectedPosition, this`selectedTop
      ensures Valid()
      ensures children == [] && firstPosition == 0 && !dataChanged && !needSync
      ensures selectedPosition == INVALID_POSITION && nextSelectedPosition == INVALID_POSITION && selectedTop == 0
    {
      children := [];
      firstPosition := 0;
      dataChanged := false;
      needSync := false;
      selectedPosition := INVALID_POSITION;
      nextSelectedPosition := INVALID_POSITION;
      selectedTop := 0;
    }

    /**
     * hideSelector: a visible selection is cleared, remembering where it
     * is to be resurrected.
     */
    method HideSelector()
      modifies this`resurrectToPosition, this`selectedPosition, this`nextSelectedPosition, this`selectedTop
      ensures old(selectedPosition) == INVALID_POSITION ==>
        selectedPosition == old(selectedPosition) && nextSelectedPosition == old(nextSelectedPosition)
        && resurrectToPosition == old(resurrectToPosition) && selectedTop == old(selectedTop)
      ensures old(selectedPosition) != INVALID_POSITION ==>
        selectedPosition == INVALID_POSITION && nextSelectedPosition == INVALID_POSITION && selectedTop == 0
        && resurrectToPosition
           == ResurrectAfterHide(old(selectedPosition), old(nextSelectedPosition), layoutMode, old(resurrectToPosition))
    {
      if selectedPosition != INVALID_POSITION {
        if layoutMode != LAYOUT_SPECIFIC {
          resurrectToPosition := selectedPosition;
        }
        if nextSelectedPosition >= 0 && nextSelectedPosition != selectedPosition {
          resurrectToPosition := nextSelectedPosition;
        }
        selectedPosition := INVALID_POSITION;
        nextSelectedPosition := INVALID_POSITION;
        selectedTop := 0;
      }
    }

    /** The transcript mode that scrolls to the bottom when data arrives, and the list already showed its end. */
    predicate TranscriptForcesBottom()
      reads this
    {
      transcriptMode == TRANSCRIPT_MODE_ALWAYS_SCROLL
      || (transcriptMode == TRANSCRIPT_MODE_NORMAL && firstPosition + |children| >= oldItemCount)
    }

    /**
     * There are items and handleDataChanged found no sync to honour: none
     * was pending, or the pending one neither forces the bottom, nor keeps
     * the first position, nor keeps a selection that touch mode hides or
     * that the adapter still holds at `foundSyncPosition`. The choice then
     * falls to the pending selection (out of touch mode) or to the
     * position to resurrect (in touch mode).
     */
    predicate FallsThrough(neededSync: bool, forcedBottom: bool, foundSyncPosition: int)
      reads this
    {
      && itemCount > 0
      && !(neededSync && forcedBottom)
      && !(neededSync && syncMode == SYNC_FIRST_POSITION)
      && !(neededSync && syncMode == SYNC_SELECTED_POSITION
           && (inTouchMode || (hasAdapter && 0 <= foundSyncPosition < itemCount)))
    }

    /**
     * handleDataChanged: after the adapter's data changed, decide how the
     * next layout places the selection. `foundSyncPosition` is what the
     * adapter view's findSyncPosition returned for the saved row id.
     * Whatever path is taken, a sync position handed to a LAYOUT_SYNC
     * layout lies among the items, a new pending selection is an item,
     * and no sync remains pending.
     */
    method HandleDataChanged(foundSyncPosition: int)
      modifies this`needSync, this`layoutMode, this`syncPosition, this`nextSelectedPosition, this`selectedPosition
      ensures !needSync
      ensures layoutMode == LAYOUT_SYNC && (old(layoutMode) != LAYOUT_SYNC || syncPosition != old(syncPosition)) ==>
        0 <= syncPosition < itemCount
      ensures nextSelectedPosition != old(nextSelectedPosition) ==>
        nextSelectedPosition == INVALID_POSITION || 0 <= nextSelectedPosition < itemCount
      ensures itemCount <= 0 ==>
        layoutMode == (if stackFromBottom then LAYOUT_FORCE_BOTTOM else LAYOUT_FORCE_TOP)
        && selectedPosition == INVALID_POSITION && nextSelectedPosition == INVALID_POSITION
      ensures itemCount > 0 && old(needSync) && old(TranscriptForcesBottom()) ==>
        layoutMode == LAYOUT_FORCE_BOTTOM && syncPosition == old(syncPosition)
        && selectedPosition == old(selectedPosition) && nextSelectedPosition == old(nextSelectedPosition)
      ensures (itemCount > 0 && old(needSync) && !old(TranscriptForcesBottom())
        && (syncMode == SYNC_FIRST_POSITION || (syncMode == SYNC_SELECTED_POSITION && inTouchMode))) ==>
        layoutMode == LAYOUT_SYNC && syncPosition == Min(Max(0, old(syncPosition)), itemCount - 1)
      ensures (itemCount > 0 && old(needSync) && !old(TranscriptForcesBottom())
        && syncMode == SYNC_SELECTED_POSITION && !inTouchMode
        && hasAdapter && 0 <= foundSyncPosition < itemCount) ==>
        syncPosition == foundSyncPosition && nextSelectedPosition == foundSyncPosition
        && layoutMode == (if syncSize == (if isVertical then height else width) then LAYOUT_SYNC else LAYOUT_SET_SELECTION)
      ensures FallsThrough(old(needSync), old(TranscriptForcesBottom()), foundSyncPosition) && !inTouchMode && hasAdapter ==>
        nextSelectedPosition == Min(Max(old(nextSelectedPosition), 0), itemCount - 1)
        && layoutMode == old(layoutMode) && selectedPosition == old(selectedPosition)
      ensures (FallsThrough(old(needSync), old(TranscriptForcesBottom()), foundSyncPosition) && inTouchMode
               && resurrectToPosition >= 0) ==>
        layoutMode == old(layoutMode) && nextSelectedPosition == old(nextSelectedPosition)
        && selectedPosition == old(selectedPosition)
      ensures (FallsThrough(old(needSync), old(TranscriptForcesBottom()), foundSyncPosition)
               && (if inTouchMode then resurrectToPosition < 0 else !hasAdapter)) ==>
        layoutMode == (if stackFromBottom then LAYOUT_FORCE_BOTTOM else LAYOUT_FORCE_TOP)
        && selectedPosition == INVALID_POSITION && nextSelectedPosition == INVALID_POSITION
    {
      var count := itemCount;
      if count > 0 {
        if needSync {
          needSync := false;
          if TranscriptForcesBottom() {
            layoutMode := LAYOUT_FORCE_BOTTOM;
            return;
          }
          if syncMode == SYNC_SELECTED_POSITION {
            if inTouchMode {
              layoutMode := LAYOUT_SYNC;
              syncPosition := Min(Max(0, syncPosition), count - 1);
              return;
            } else {
              var newPos := foundSyncPosition;
              if newPos >= 0 {
                var selectablePos := LookForSelectablePosition(newPos, hasAdapter, inTouchMode, itemCount);
                if selectablePos == newPos {
                  syncPosition := newPos;
                  var size := if isVertical then height else width;
                  if syncSize == size {
                    layoutMode := LAYOUT_SYNC;
                  } else {
                    layoutMode := LAYOUT_SET_SELECTION;
                  }
                  nextSelectedPosition := newPos;
                  return;
                }
              }
            }
          } else if syncMode == SYNC_FIRST_POSITION {
            layoutMode := LAYOUT_SYNC;
            syncPosition := Min(Max(0, syncPosition), count - 1);
            return;
          }
        }
        if !inTouchMode {
          var newPos := nextSelectedPosition;
          if newPos >= count {
            newPos := count - 1;
          }
          if newPos < 0 {
            newPos := 0;
          }
          // the grid's lookup ignores the direction, so looking up after
          // looking down finds nothing new
          var selectablePos := LookForSelectablePosition(newPos, hasAdapter, inTouchMode, itemCount);
          if selectablePos >= 0 {
            nextSelectedPosition := selectablePos;
            return;
          }
        } else {
          if resurrectToPosition >= 0 {
            return;
          }
        }
      }
      layoutMode := if stackFromBottom then LAYOUT_FORCE_BOTTOM else LAYOUT_FORCE_TOP;
      selectedPosition := INVALID_POSITION;
      nextSelectedPosition := INVALID_POSITION;
      needSync := false;
    }

    /**
     * trackMotionScroll, vertical: moves the children by the (clamped)
     * incremental delta. It reports `atEdge` and changes nothing when
     * there are no children or the list already shows its first (last)
     * item fully while moving down (up). Otherwise the children that
     * leave the screen go to the scrap heap (a prefix when moving down,
     * which advances firstPosition by its length; a suffix when moving
     * up), the rest move, and `needsFill` says whether a gap opened that
     * the subclass must fill in direction `down`.
     */
    method TrackMotionScroll(deltaY: int, incrementalDeltaY: int) returns (atEdge: bool, down: bool, needsFill: bool)
      requires Valid()
      modifies this`children, this`firstPosition, this`motionViewNewTop, recycler`scrap
      modifies this`selectedPosition, this`nextSelectedPosition, this`resurrectToPosition, this`selectedTop
      ensures Valid()
      ensures atEdge == AtEdge(old(children), old(firstPosition), itemCount, listPaddingTop, height - listPaddingBottom,
                               ClampDelta(deltaY, height - paddingBottom - paddingTop))
      ensures atEdge ==> !down && !needsFill
      ensures atEdge ==> (children == old(children) && firstPosition == old(firstPosition)
        && motionViewNewTop == old(motionViewNewTop) && recycler.scrap == old(recycler.scrap)
        && selectedPosition == old(selectedPosition) && nextSelectedPosition == old(nextSelectedPosition)
        && resurrectToPosition == old(resurrectToPosition) && selectedTop == old(selectedTop))
      ensures !atEdge ==>
        && down == (ClampDelta(incrementalDeltaY, height - paddingBottom - paddingTop) < 0)
        && needsFill == GapOpens(old(children), listPaddingTop, height - listPaddingBottom,
                                 ClampDelta(incrementalDeltaY, height - paddingBottom - paddingTop))
        && motionViewNewTop == motionViewOriginalTop + ClampDelta(deltaY, height - paddingBottom - paddingTop)
        && (children, firstPosition, recycler.scrap)
           == Scrolled(old(children), old(firstPosition), old(recycler.scrap),
                       ClampDelta(incrementalDeltaY, height - paddingBottom - paddingTop),
                       listPaddingTop, height - listPaddingBottom, itemCount)
      ensures !atEdge && inTouchMode && old(selectedPosition) != INVALID_POSITION ==>
        selectedPosition == INVALID_POSITION && nextSelectedPosition == INVALID_POSITION
        && resurrectToPosition
           == ResurrectAfterHide(old(selectedPosition), old(nextSelectedPosition), layoutMode, old(resurrectToPosition))
      ensures !(!atEdge && inTouchMode && old(selectedPosition) != INVALID_POSITION) ==>
        selectedPosition == old(selectedPosition) && nextSelectedPosition == old(nextSelectedPosition)
        && resurrectToPosition == old(resurrectToPosition)
    {
      var cs := children;
      var h := height - paddingBottom - paddingTop;
      var d := ClampDelta(deltaY, h);
      var inc := ClampDelta(incrementalDeltaY, h);
      if AtEdge(cs, firstPosition, itemCount, listPaddingTop, height - listPaddingBottom, d) {
        return true, false, false;
      }
      down := inc < 0;
      needsFill := GapOpens(cs, listPaddingTop, height - listPaddingBottom, inc);
      ghost var first, piles := firstPosition, recycler.scrap;
      ScrollChildren(d, inc, cs, first, piles);
      if inTouchMode {
        HideSelector();
      }
      atEdge := false;
    }

    /**
     * The body of trackMotionScroll past the edge tests, for clamped
     * deltas `d` (total) and `inc` (incremental), with `cs`, `first` and
     * `piles` the children, first position and scrap piles on entry: the
     * children leaving the screen are scrapped, the others move by `inc`,
     * and the touched child's new top is recorded. (The source hides the
     * selector before this; the two steps touch disjoint state.)
     */
    method ScrollChildren(d: int, inc: int, ghost cs: seq<Child>, ghost first: int, ghost piles: seq<seq<View>>)
      requires Valid() && cs == children && first == firstPosition && piles == recycler.scrap
      modifies this`children, this`firstPosition, this`motionViewNewTop, recycler`scrap
      ensures Valid()
      ensures motionViewNewTop == motionViewOriginalTop + d
      ensures (children, firstPosition, recycler.scrap)
        == Scrolled(cs, first, piles, inc, listPaddingTop, height - listPaddingBottom, itemCount)
    {
      if inc < 0 {
        MoveChildrenDown(inc);
      } else {
        MoveChildrenUp(inc);
      }
      motionViewNewTop := motionViewOriginalTop + d;
    }

    /** Scrolling down: the leading children above the top leave. */
    method MoveChildrenDown(inc: int)
      requires Valid() && inc < 0
      modifies this`children, this`firstPosition, recycler`scrap
      ensures Valid()
      ensures (children, firstPosition, recycler.scrap)
        == Scrolled(old(children), old(firstPosition), old(recycler.scrap), inc, listPaddingTop, height - listPaddingBottom,
                    itemCount)
    {
      var cs := children;
      ghost var first, piles := firstPosition, recycler.scrap;
      var n := ScrapLeading(cs, firstPosition, listPaddingTop - inc);
      assert Scrolled(cs, first, piles, inc, listPaddingTop, height - listPaddingBottom, itemCount)
          == (Offset(cs[n..], inc), first + n, recycler.scrap);
      assert ViewsFit(recycler.viewTypeCount, cs[n..]);
      ViewsFitOffset(recycler.viewTypeCount, cs[n..], inc);
      children := Offset(cs[n..], inc);
      firstPosition := firstPosition + n;
    }

    /** Scrolling up (or not moving): the trailing children below the bottom leave. */
    method MoveChildrenUp(inc: int)
      requires Valid() && inc >= 0
      modifies this`children, recycler`scrap
      ensures Valid()
      ensures (children, firstPosition, recycler.scrap)
        == Scrolled(old(children), firstPosition, old(recycler.scrap), inc, listPaddingTop, height - listPaddingBottom,
                    itemCount)
    {
      var cs := children;
      ghost var piles := recycler.scrap;
      var n := ScrapTrailing(cs, firstPosition, height - listPaddingBottom - inc);
      assert Scrolled(cs, firstPosition, piles, inc, listPaddingTop, height - listPaddingBottom, itemCount)
          == (Offset(cs[..|cs| - n], inc), firstPosition, recycler.scrap);
      assert ViewsFit(recycler.viewTypeCount, cs[..|cs| - n]);
      ViewsFitOffset(recycler.viewTypeCount, cs[..|cs| - n], inc);
      children := Offset(cs[..|cs| - n], inc);
    }

    /**
     * The scrolling-down loop of trackMotionScroll: the leading children
     * whose bottom is above `top` leave, those of items going to the scrap
     * heap front to back; `count` is how many left.
     */
    method ScrapLeading(cs: seq<Child>, first: int, top: int) returns (count: nat)
      requires recycler.Valid() && ViewsFit(recycler.viewTypeCount, cs)
      modifies recycler`scrap
      ensures recycler.Valid()
      ensures count == LeadingAbove(cs, top)
      ensures recycler.scrap == AddedAll(old(recycler.scrap), ScrappedFront(cs, count, first, itemCount))
    {
      ghost var piles := recycler.scrap;
      count := 0;
      while count < |cs| && cs[count].bottom < top
        invariant count <= LeadingAbove(cs, top)
        invariant recycler.Valid() && |piles| >= 1
        invariant recycler.scrap == AddedAll(piles, ScrappedFront(cs, count, first, itemCount))
      {
        LeadingAbovePast(cs, top, count);
        ScrapFrontStep(cs, count, first, piles);
        count := count + 1;
      }
      LeadingAboveStop(cs, top, count);
    }

    /** One turn of the scrolling-down loop: the view of the next child from the front goes to the scrap heap when it shows an item. */
    method ScrapFrontStep(cs: seq<Child>, count: nat, first: int, ghost piles: seq<seq<View>>)
      requires recycler.Valid() && ViewsFit(recycler.viewTypeCount, cs) && count < |cs| && |piles| >= 1
      requires recycler.scrap == AddedAll(piles, ScrappedFront(cs, count, first, itemCount))
      modifies recycler`scrap
      ensures recycler.Valid()
      ensures recycler.scrap == AddedAll(piles, ScrappedFront(cs, count + 1, first, itemCount))
    {
      ghost var before := ScrappedFront(cs, count, first, itemCount);
      assert ScrappedFront(cs, count + 1, first, itemCount)
          == before + (if 0 <= first + count < itemCount then [cs[count].view] else []);
      if 0 <= first + count < itemCount {
        recycler.AddScrapView(cs[count].view);
        AddedAllSnoc(piles, before, cs[count].view);
      } else {
        assert before + [] == before;
      }
    }

    /**
     * The scrolling-up loop of trackMotionScroll: the trailing children
     * whose top is below `bottom` leave, those of items going to the scrap
     * heap back to front; `count` is how many left.
     */
    method ScrapTrailing(cs: seq<Child>, first: int, bottom: int) returns (count: nat)
      requires recycler.Valid() && ViewsFit(recycler.viewTypeCount, cs)
      modifies recycler`scrap
      ensures recycler.Valid()
      ensures count == TrailingBelow(cs, bottom)
      ensures recycler.scrap == AddedAll(old(recycler.scrap), ScrappedBack(cs, count, first, itemCount))
    {
      ghost var piles := recycler.scrap;
      count := 0;
      while count < |cs| && cs[|cs| - 1 - count].top > bottom
        invariant count <= TrailingBelow(cs, bottom)
        invariant recycler.Valid() && |piles| >= 1
        invariant recycler.scrap == AddedAll(piles, ScrappedBack(cs, count, first, itemCount))
      {
        TrailingBelowPast(cs, bottom, count);
        ScrapBackStep(cs, count, first, piles);
        count := count + 1;
      }
      TrailingBelowStop(cs, bottom, count);
    }

    /** One turn of the scrolling-up loop: the view of the next child from the back goes to the scrap heap when it shows an item. */
    method ScrapBackStep(cs: seq<Child>, count: nat, first: int, ghost piles: seq<seq<View>>)
      requires recycler.Valid() && ViewsFit(recycler.viewTypeCount, cs) && count < |cs| && |piles| >= 1
      requires recycler.scrap == AddedAll(piles, ScrappedBack(cs, count, first, itemCount))
      modifies recycler`scrap
      ensures recycler.Valid()
      ensures recycler.scrap == AddedAll(piles, ScrappedBack(cs, count + 1, first, itemCount))
    {
      var i := |cs| - 1 - count;
      ghost var before := ScrappedBack(cs, count, first, itemCount);
      assert ScrappedBack(cs, count + 1, first, itemCount)
          == before + (if 0 <= first + i < itemCount then [cs[i].view] else []);
      if 0 <= first + i < itemCount {
        recycler.AddScrapView(cs[i].view);
        AddedAllSnoc(piles, before, cs[i].view);
      } else {
        assert before + [] == before;
      }
    }

    /**
     * onSaveInstanceState: the selection when there is one (its id, the
     * pending position and its top), else the first child's item and
     * its leading edge, else nothing; always the list's height. The
     * selected item's id and the first item's id come from the adapter.
     */
    function SaveInstanceState(selectedId: int, firstItemId: int): (ss: SavedState)
      reads this
      ensures ss.selectedId == selectedId && ss.height == height
      ensures selectedId >= 0 ==>
        ss.firstId == INVALID_POSITION && ss.position == nextSelectedPosition && ss.viewTop == selectedTop
      ensures selectedId < 0 && |children| > 0 ==>
        ss.firstId == firstItemId && ss.position == firstPosition
        && ss.viewTop == (if isVertical then children[0].top else children[0].left)
      ensures selectedId < 0 && |children| == 0 ==> ss.firstId == INVALID_POSITION && ss.position == 0 && ss.viewTop == 0
    {
      if selectedId >= 0 then
        SavedState(selectedId, INVALID_POSITION, selectedTop, nextSelectedPosition, height)
      else if |children| > 0 then
        var v := children[0];
        SavedState(selectedId, firstItemId, if isVertical then v.top else v.left, firstPosition, height)
      else
        SavedState(selectedId, INVALID_POSITION, 0, 0, height)
    }

    /**
     * onRestoreInstanceState: marks the data changed, remembers the saved
     * height, and asks the next layout to find the saved selection (or,
     * failing that, the saved first item) again at its saved offset; with
     * a first item only, the current selection is dropped.
     */
    method RestoreInstanceState(ss: SavedState)
      modifies this`dataChanged, this`syncSize, this`needSync, this`syncMode, this`syncRowId, this`syncPosition
      modifies this`specificTop, this`selectedPosition, this`nextSelectedPosition
      ensures dataChanged && syncSize == ss.height
      ensures SyncRequest(ss).Some? ==>
        needSync && (syncMode, syncRowId, syncPosition, specificTop) == SyncRequest(ss).value
      ensures SyncRequest(ss).None? ==>
        needSync == old(needSync) && syncMode == old(syncMode) && syncRowId == old(syncRowId)
        && syncPosition == old(syncPosition) && specificTop == old(specificTop)
      ensures ss.selectedId < 0 && ss.firstId >= 0 ==>
        selectedPosition == INVALID_POSITION && nextSelectedPosition == INVALID_POSITION
      ensures !(ss.selectedId < 0 && ss.firstId >= 0) ==>
        selectedPosition == old(selectedPosition) && nextSelectedPosition == old(nextSelectedPosition)
    {
      dataChanged := true;
      syncSize := ss.height;
      if ss.selectedId >= 0 {
        needSync := true;
        syncRowId := ss.selectedId;
        syncPosition := ss.position;
        specificTop := ss.viewTop;
        syncMode := SYNC_SELECTED_POSITION;
      } else if ss.firstId >= 0 {
        selectedPosition := INVALID_POSITION;
        nextSelectedPosition := INVALID_POSITION;
        needSync := true;
        syncRowId := ss.firstId;
        syncPosition := ss.position;
        specificTop := ss.viewTop;
        syncMode := SYNC_FIRST_POSITION;
      }
    }
  }

  /**
   * Saving a list's state, sending it through a parcel and restoring it
   * asks the next layout to sync to the selected item at its pending
   * position and top when there is a selection, and otherwise to the
   * first child's item at the first position and the child's leading
   * edge; a list with neither asks for nothing.
   */
  lemma SaveThenRestore(l: ListView, selectedId: int, firstItemId: int, prefix: seq<Byte>, suffix: seq<Byte>)
    requires WellTyped(l.SaveInstanceState(selectedId, firstItemId))
    ensures var ss := l.SaveInstanceState(selectedId, firstItemId);
      var (back, end) := CreateFromParcel(WriteToParcel(prefix, ss) + suffix, |prefix|);
      && back == ss && end == |prefix| + 28
      && (selectedId >= 0 ==>
            SyncRequest(back) == Some((SYNC_SELECTED_POSITION, selectedId, l.nextSelectedPosition, l.selectedTop)))
      && (selectedId < 0 && |l.children| > 0 && firstItemId >= 0 ==>
            SyncRequest(back) == Some((SYNC_FIRST_POSITION, firstItemId, l.firstPosition,
                                       if l.isVertical then l.children[0].top else l.children[0].left)))
      && (selectedId < 0 && (|l.children| == 0 || firstItemId < 0) ==> SyncRequest(back).None?)
  {
    SavedStateRoundTrip(prefix, l.SaveInstanceState(selectedId, firstItemId), suffix);
  }
}
