/*
 * TwoWayAbsListView.PositionScroller.start: the smooth scroll towards an
 * adapter position picks a direction, how many views it has to travel
 * and so how long each view's scroll may take, or does nothing when the
 * position is already strictly inside the screen. The bounded form also
 * keeps a second position on screen, travelling less when the target
 * would push it off. The animation step (run) is not part of this model.
 */
module PositionScrolling {
  import opened JavaLang

  const SCROLL_DURATION: int := 400

  const MOVE_DOWN_POS: int := 1
  const MOVE_UP_POS: int := 2
  const MOVE_DOWN_BOUND: int := 3
  const MOVE_UP_BOUND: int := 4

  const NO_POSITION: int := -1

  /** What start decides: the scroll mode and how many views the scroll travels. */
  datatype Plan = Plan(mode: int, travel: int)

  /**
   * start(position) with the list showing `childCount` children from
   * `first` on: a target at or above the first child scrolls up, one at
   * or below the last child scrolls down, one in between needs nothing.
   */
  function StartPlan(first: int, childCount: nat, position: int): (r: Option<Plan>)
    ensures r.Some? <==> position <= first || position >= first + childCount - 1
    ensures position <= first ==> r == Some(Plan(MOVE_UP_POS, first - position + 1))
    ensures first < position && position >= first + childCount - 1 ==>
      r == Some(Plan(MOVE_DOWN_POS, position - (first + childCount - 1) + 1))
  {
    var last := first + childCount - 1;
    if position <= first then Some(Plan(MOVE_UP_POS, first - position + 1))
    else if position >= last then Some(Plan(MOVE_DOWN_POS, position - last + 1))
    else None
  }

  /**
   * start(position, boundPosition): as start(position) when there is no
   * bound; otherwise the scroll is abandoned when the bound would leave
   * the screen at once, and it travels only as far as keeps the bound on
   * screen when that is less than the way to the target. A plan moves in
   * the target's direction, travels between zero and the distance to
   * the target, takes the bound mode exactly when it stops short of the
   * target, and leaves the bound on screen: after moving up by `travel`
   * views the last child shown is still below the bound, after moving
   * down the first child is still above it. Where the bound is far
   * enough from the far edge, the plan is the unbounded one.
   */
  function BoundedPlan(first: int, childCount: nat, position: int, bound: int): (r: Option<Plan>)
    ensures bound == NO_POSITION ==> r == StartPlan(first, childCount, position)
    ensures bound != NO_POSITION && r.Some? && position <= first ==>
      && (r.value.mode == MOVE_UP_POS || r.value.mode == MOVE_UP_BOUND)
      && 0 <= r.value.travel <= first - position + 1
      && (r.value.mode == MOVE_UP_BOUND <==> r.value.travel < first - position + 1)
      && bound < first + childCount - 1 - r.value.travel
    ensures bound != NO_POSITION && r.Some? && position > first ==>
      && (r.value.mode == MOVE_DOWN_POS || r.value.mode == MOVE_DOWN_BOUND)
      && 0 <= r.value.travel <= position - (first + childCount - 1) + 1
      && (r.value.mode == MOVE_DOWN_BOUND <==> r.value.travel < position - (first + childCount - 1) + 1)
      && first + r.value.travel < bound
    ensures bound != NO_POSITION && StartPlan(first, childCount, position).Some? ==>
      var t := StartPlan(first, childCount, position).value.travel;
      (if position <= first then first + childCount - 1 - bound - 1 >= t else bound - first - 1 >= t)
      ==> r == StartPlan(first, childCount, position)
    ensures bound != NO_POSITION && position <= first && first + childCount - 1 - bound < 1 ==> r.None?
    ensures bound != NO_POSITION && position > first && bound - first < 1 ==> r.None?
  {
    if bound == NO_POSITION then StartPlan(first, childCount, position)
    else
      var last := first + childCount - 1;
      if position <= first then
        var boundPosFromLast := last - bound;
        if boundPosFromLast < 1 then None
        else
          var posTravel := first - position + 1;
          var boundTravel := boundPosFromLast - 1;
          if boundTravel < posTravel then Some(Plan(MOVE_UP_BOUND, boundTravel)) else Some(Plan(MOVE_UP_POS, posTravel))
      else if position >= last then
        var boundPosFromFirst := bound - first;
        if boundPosFromFirst < 1 then None
        else
          var posTravel := position - last + 1;
          var boundTravel := boundPosFromFirst - 1;
          if boundTravel < posTravel then Some(Plan(MOVE_DOWN_BOUND, boundTravel)) else Some(Plan(MOVE_DOWN_POS, posTravel))
      else None
  }

  /** The time each view's scroll may take: the whole duration shared among the views travelled. */
  function Duration(travel: int): (ms: int)
    ensures ms >= 0
    ensures travel > 0 ==> ms * travel <= SCROLL_DURATION < (ms + 1) * travel
    ensures travel <= 0 ==> ms == SCROLL_DURATION
  {
    if travel > 0 then JDiv(SCROLL_DURATION, travel) else SCROLL_DURATION
  }

  /** The smooth scroller's state: what start last decided, and whether it is posted to run. */
  class PositionScroller {
    var mode: int
    var targetPos: int
    var boundPos: int
    var lastSeenPos: int
    var scrollDuration: int
    var posted: bool

    constructor()
      ensures !posted
    {
      mode := 0;
      targetPos := NO_POSITION;
      boundPos := NO_POSITION;
      lastSeenPos := NO_POSITION;
      scrollDuration := 0;
      posted := false;
    }

    /**
     * start(position): with a plan, records its mode, the target and a
     * duration shared among the views travelled, clears the bound and
     * the last seen position, and posts itself; without one (the target
     * is strictly inside the screen) nothing changes.
     */
    method Start(first: int, childCount: nat, position: int)
      modifies this
      ensures StartPlan(first, childCount, position).None? ==>
        mode == old(mode) && targetPos == old(targetPos) && boundPos == old(boundPos)
        && lastSeenPos == old(lastSeenPos) && scrollDuration == old(scrollDuration) && posted == old(posted)
      ensures StartPlan(first, childCount, position).Some? ==>
        var p := StartPlan(first, childCount, position).value;
        && mode == p.mode && scrollDuration == Duration(p.travel)
        && targetPos == position && boundPos == NO_POSITION && lastSeenPos == NO_POSITION && posted
    {
      var firstPos := first;
      var lastPos := firstPos + childCount - 1;
      var viewTravelCount := 0;
      if position <= firstPos {
        viewTravelCount := firstPos - position + 1;
        mode := MOVE_UP_POS;
      } else if position >= lastPos {
        viewTravelCount := position - lastPos + 1;
        mode := MOVE_DOWN_POS;
      } else {
        return;
      }
      // The travel is at least one here, so the source's fallback never applies.
      scrollDuration := if viewTravelCount > 0 then JDiv(SCROLL_DURATION, viewTravelCount) else SCROLL_DURATION;
      targetPos := position;
      boundPos := NO_POSITION;
      lastSeenPos := NO_POSITION;
      posted := true;
    }

    /**
     * start(position, boundPosition): with a plan, records its mode, the
     * target, the bound and a duration shared among the views travelled,
     * clears the last seen position and posts itself; without one
     * nothing changes.
     */
    method StartBounded(first: int, childCount: nat, position: int, boundPosition: int)
      modifies this
      ensures BoundedPlan(first, childCount, position, boundPosition).None? ==>
        mode == old(mode) && targetPos == old(targetPos) && boundPos == old(boundPos)
        && lastSeenPos == old(lastSeenPos) && scrollDuration == old(scrollDuration) && posted == old(posted)
      ensures BoundedPlan(first, childCount, position, boundPosition).Some? ==>
        var p := BoundedPlan(first, childCount, position, boundPosition).value;
        && mode == p.mode && scrollDuration == Duration(p.travel)
        && targetPos == position && boundPos == boundPosition && lastSeenPos == NO_POSITION && posted
    {
      if boundPosition == NO_POSITION {
        Start(first, childCount, position);
        return;
      }
      var firstPos := first;
      var lastPos := firstPos + childCount - 1;
      var viewTravelCount := 0;
      if position <= firstPos {
        var boundPosFromLast := lastPos - boundPosition;
        if boundPosFromLast < 1 {
          return;
        }
        var posTravel := firstPos - position + 1;
        var boundTravel := boundPosFromLast - 1;
        if boundTravel < posTravel {
          viewTravelCount := boundTravel;
          mode := MOVE_UP_BOUND;
        } else {
          viewTravelCount := posTravel;
          mode := MOVE_UP_POS;
        }
      } else if position >= lastPos {
        var boundPosFromFirst := boundPosition - firstPos;
        if boundPosFromFirst < 1 {
          return;
        }
        var posTravel := position - lastPos + 1;
        var boundTravel := boundPosFromFirst - 1;
        if boundTravel < posTravel {
          viewTravelCount := boundTravel;
          mode := MOVE_DOWN_BOUND;
        } else {
          viewTravelCount := posTravel;
          mode := MOVE_DOWN_POS;
        }
      } else {
        return;
      }
      if viewTravelCount > 0 {
        scrollDuration := JDiv(SCROLL_DURATION, viewTravelCount);
      } else {
        scrollDuration := SCROLL_DURATION;
      }
      targetPos := position;
      boundPos := boundPosition;
      lastSeenPos := NO_POSITION;
      posted := true;
    }

    /** stop: the posted scroll is withdrawn. */
    method Stop()
      modifies this`posted
      ensures !posted
    {
      posted := false;
    }
  }
}
