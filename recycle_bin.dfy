/*
 * The view-recycling pool of TwoWayAbsListView (its inner class RecycleBin).
 *
 * Two levels: an array of "active" views indexed by
 * position - firstActivePosition, filled at the start of a layout pass, and
 * one last-in-first-out pile of "scrap" views per adapter view type, from
 * which the adapter is offered a view to convert.
 */
module Recycling {
  import opened JavaLang

  const ITEM_VIEW_TYPE_IGNORE: int := -1
  const ITEM_VIEW_TYPE_HEADER_OR_FOOTER: int := -2

  /**
   * A child view. `viewType` is the view type stored in its layout
   * params; `None` when the view has no layout params.
   */
  datatype View = View(id: int, viewType: Option<int>)

  predicate ShouldRecycleViewType(viewType: int) { viewType >= 0 }

  /** A view with layout params whose type may be recycled. */
  predicate Recyclable(v: View) {
    v.viewType.Some? && ShouldRecycleViewType(v.viewType.value)
  }

  /** fillActiveViews keeps every child with layout params that is not a header or footer. */
  predicate Parks(v: View) {
    v.viewType.Some? && v.viewType.value != ITEM_VIEW_TYPE_HEADER_OR_FOOTER
  }

  /** With a single view type every recyclable view shares the current pile. */
  function PileIndex(typeCount: int, viewType: int): int {
    if typeCount == 1 then 0 else viewType
  }

  /**
   * The adapter's promise that getItemViewType stays below
   * getViewTypeCount: a recyclable view has a pile of its own.
   */
  predicate TypeInRange(typeCount: int, v: View) {
    Recyclable(v) ==> 0 <= PileIndex(typeCount, v.viewType.value) < typeCount
  }

  /** Active slots that hold only views fillActiveViews may park, with types the piles can take. */
  predicate SlotsFit(typeCount: int, slots: seq<Option<View>>) {
    forall i :: 0 <= i < |slots| && slots[i].Some? ==>
      Parks(slots[i].value) && TypeInRange(typeCount, slots[i].value)
  }

  /** The piles after addScrapView(v). */
  function Added(piles: seq<seq<View>>, v: View): (r: seq<seq<View>>)
    requires |piles| >= 1 && TypeInRange(|piles|, v)
    ensures |r| == |piles|
  {
    if Recyclable(v) then
      var k := PileIndex(|piles|, v.viewType.value);
      piles[k := piles[k] + [v]]
    else
      piles
  }

  /** getScrapView on pile `k`: the most recently added view, and the piles without it. */
  function PopScrap(piles: seq<seq<View>>, k: int): (Option<View>, seq<seq<View>>)
  {
    if 0 <= k < |piles| && |piles[k]| > 0 then
      (Some(piles[k][|piles[k]| - 1]), piles[k := piles[k][..|piles[k]| - 1]])
    else
      (None, piles)
  }

  /**
   * Piles after scrapActiveViews has visited active slots
   * |slots|-1 down to i, highest index first.
   */
  function ScrapFrom(piles: seq<seq<View>>, slots: seq<Option<View>>, i: nat): (r: seq<seq<View>>)
    requires i <= |slots| && |piles| >= 1 && SlotsFit(|piles|, slots)
    ensures |r| == |piles|
    decreases |slots| - i
  {
    if i == |slots| then piles
    else
      var p := ScrapFrom(piles, slots, i + 1);
      if slots[i].Some? then Added(p, slots[i].value) else p
  }

  /** The views among slots |slots|-1 down to i that scrapActiveViews sends to pile k, in the order it sends them. */
  function Destined(typeCount: int, slots: seq<Option<View>>, i: nat, k: int): seq<View>
    requires i <= |slots|
    decreases |slots| - i
  {
    if i == |slots| then []
    else
      var rest := Destined(typeCount, slots, i + 1, k);
      if slots[i].Some? && Recyclable(slots[i].value)
         && PileIndex(typeCount, slots[i].value.viewType.value) == k
      then rest + [slots[i].value]
      else rest
  }

  /** pruneScrapViews: every pile cut back to its first `maxViews` views. */
  function Pruned(piles: seq<seq<View>>, maxViews: nat): (r: seq<seq<View>>)
    ensures |r| == |piles|
    ensures forall k :: 0 <= k < |r| ==> |r[k]| <= maxViews && r[k] <= piles[k]
    ensures forall k :: 0 <= k < |r| && |piles[k]| <= maxViews ==> r[k] == piles[k]
  {
    seq(|piles|, k requires 0 <= k < |piles| =>
      if |piles[k]| > maxViews then piles[k][..maxViews] else piles[k])
  }

  /** Every scrap view, pile by pile (what reclaimScrapViews hands back). */
  function AllScrap(piles: seq<seq<View>>): (r: seq<View>)
    ensures |r| == TotalScrap(piles)
    ensures forall k, j :: 0 <= k < |piles| && 0 <= j < |piles[k]| ==> piles[k][j] in r
    ensures forall v :: v in r ==> exists k :: 0 <= k < |piles| && v in piles[k]
  {
    if piles == [] then []
    else
      var rest := AllScrap(piles[1..]);
      assert forall k :: 1 <= k < |piles| ==> piles[k] == piles[1..][k - 1];
      piles[0] + rest
  }

  function TotalScrap(piles: seq<seq<View>>): nat {
    if piles == [] then 0 else |piles[0]| + TotalScrap(piles[1..])
  }

  /**
   * setCacheColorHint's scrap loop as written: with several view types
   * the inner loop over j recolours `scrap.get(i)`, the view at the pile's
   * own index i, once per view in pile i. `None` is the
   * IndexOutOfBoundsException raised when pile i is non-empty but holds
   * no more than i views.
   */
  function CacheHintScrapAsWritten(piles: seq<seq<View>>): Option<seq<View>>
    requires |piles| >= 1
  {
    if |piles| == 1 then Some(piles[0]) else CacheHintScrapAsWrittenFrom(piles, 0)
  }

  function CacheHintScrapAsWrittenFrom(piles: seq<seq<View>>, i: nat): Option<seq<View>>
    requires i <= |piles|
    decreases |piles| - i
  {
    if i == |piles| then Some([])
    else
      var pile := piles[i];
      var rest := CacheHintScrapAsWrittenFrom(piles, i + 1);
      if |pile| == 0 then rest
      else if i >= |pile| then None
      else if rest.None? then None
      else Some(Repeat(pile[i], |pile|) + rest.value)
  }

  function Repeat(v: View, n: nat): (r: seq<View>)
    ensures |r| == n && forall j :: 0 <= j < n ==> r[j] == v
  {
    if n == 0 then [] else [v] + Repeat(v, n - 1)
  }

  /** The recolouring loop as written reaches a view twice and misses others, or throws. */
  lemma CacheHintScrapAsWrittenMisses()
    ensures
      var a, b, c, d := View(1, Some(0)), View(2, Some(0)), View(3, Some(1)), View(4, Some(1));
      && CacheHintScrapAsWritten([[a, b], [c, d]]) == Some([a, a, d, d])
      && b !in CacheHintScrapAsWritten([[a, b], [c, d]]).value
      && b in AllScrap([[a, b], [c, d]])
      && CacheHintScrapAsWritten([[], [c]]).None?
  {
    var a, b, c, d := View(1, Some(0)), View(2, Some(0)), View(3, Some(1)), View(4, Some(1));
    var piles := [[a, b], [c, d]];
    assert CacheHintScrapAsWrittenFrom(piles, 2) == Some([]);
    assert piles[1][1] == d && Repeat(d, 2) == [d, d];
    assert Repeat(d, 2) + [] == [d, d];
    assert CacheHintScrapAsWrittenFrom(piles, 1) == Some([d, d]);
    assert piles[0][0] == a && Repeat(a, 2) == [a, a];
    assert CacheHintScrapAsWrittenFrom(piles, 0) == Some([a, a] + [d, d]);
    assert [a, a] + [d, d] == [a, a, d, d];
    assert CacheHintScrapAsWrittenFrom([[], [c]], 2) == Some([]);
    assert CacheHintScrapAsWrittenFrom([[], [c]], 1).None?;
  }

  /** Adding a recyclable view to the scrap, then asking for a view of its type, gives it back and restores the piles. */
  lemma ScrapIsLastInFirstOut(piles: seq<seq<View>>, v: View)
    requires |piles| >= 1 && TypeInRange(|piles|, v) && Recyclable(v)
    ensures PopScrap(Added(piles, v), PileIndex(|piles|, v.viewType.value)) == (Some(v), piles)
  {
    var k := PileIndex(|piles|, v.viewType.value);
    var added := piles[k := piles[k] + [v]];
    assert Added(piles, v) == added;
    assert added[k][..|added[k]| - 1] == piles[k];
    assert added[k := piles[k]] == piles;
  }

  /**
   * Scrapping the active slots from i up appends to pile k exactly the
   * recyclable views destined for it, and nothing else.
   */
  lemma {:induction false} ScrapFromAppends(piles: seq<seq<View>>, slots: seq<Option<View>>, i: nat, k: int)
    requires i <= |slots| && |piles| >= 1 && SlotsFit(|piles|, slots) && 0 <= k < |piles|
    ensures ScrapFrom(piles, slots, i)[k] == piles[k] + Destined(|piles|, slots, i, k)
    decreases |slots| - i
  {
    if i < |slots| {
      ScrapFromAppends(piles, slots, i + 1, k);
    }
  }

  class RecycleBin {
    /** The position of the view in active slot 0. */
    var firstActivePosition: int
    /** Views on screen at the start of layout; `None` is a cleared slot. */
    var active: array<Option<View>>
    /** One pile per view type; empty until setViewTypeCount has run. */
    var scrap: seq<seq<View>>
    var viewTypeCount: int

    /** setViewTypeCount has run, and the active slots hold only views whose types have a pile. */
    ghost predicate Valid()
      reads this, active
    {
      && viewTypeCount >= 1
      && |scrap| == viewTypeCount
      && SlotsFit(viewTypeCount, active[..])
    }

    constructor ()
      ensures firstActivePosition == 0 && active.Length == 0
      ensures scrap == [] && viewTypeCount == 0
    {
      firstActivePosition := 0;
      active := new Option<View>[0](_ => None);
      scrap := [];
      viewTypeCount := 0;
    }

    /**
     * A count below one is refused (IllegalArgumentException, `ok` false)
     * and nothing changes; otherwise there are exactly `n` empty piles.
     */
    method SetViewTypeCount(n: int) returns (ok: bool)
      modifies this`scrap, this`viewTypeCount
      ensures ok <==> n >= 1
      ensures ok ==> viewTypeCount == n && |scrap| == n
                     && forall k :: 0 <= k < n ==> scrap[k] == []
      ensures !ok ==> viewTypeCount == old(viewTypeCount) && scrap == old(scrap)
      ensures ok && SlotsFit(n, active[..]) ==> Valid()
    {
      if n < 1 {
        return false;
      }
      var piles: seq<seq<View>> := [];
      for i := 0 to n
        invariant |piles| == i
        invariant forall k :: 0 <= k < i ==> piles[k] == []
      {
        piles := piles + [[]];
      }
      viewTypeCount := n;
      scrap := piles;
      ok := true;
    }

    /**
     * Parks each child with layout params that is not a header or footer
     * in the slot of its index, growing the array to the child count
     * first; slots of skipped children keep what they held.
     */
    method FillActiveViews(children: seq<View>, firstActive: int)
      requires Valid()
      requires forall i :: 0 <= i < |children| ==> TypeInRange(viewTypeCount, children[i])
      modifies this`active, this`firstActivePosition, active
      ensures Valid()
      ensures firstActivePosition == firstActive
      ensures old(active.Length) < |children| ==> fresh(active) && active.Length == |children|
      ensures old(active.Length) >= |children| ==> active == old(active)
      ensures forall i :: 0 <= i < active.Length ==>
        active[i] == (if i < |children| && Parks(children[i]) then Some(children[i])
                      else if old(active.Length) < |children| then None
                      else old(active[i]))
    {
      if active.Length < |children| {
        active := new Option<View>[|children|](_ => None);
      }
      firstActivePosition := firstActive;
      var slots := active;
      ghost var base := slots[..];
      for i := 0 to |children|
        invariant forall j :: 0 <= j < slots.Length ==>
          slots[j] == (if j < i && Parks(children[j]) then Some(children[j]) else base[j])
        modifies slots
      {
        if Parks(children[i]) {
          slots[i] := Some(children[i]);
        }
      }
    }

    /** Takes the view for `position` out of its active slot; a second lookup finds the slot empty. */
    method GetActiveView(position: int) returns (v: Option<View>)
      requires Valid()
      modifies active
      ensures Valid()
      ensures var index := position - firstActivePosition;
        if 0 <= index < active.Length then
          v == old(active[index]) && active[index] == None
          && forall j :: 0 <= j < active.Length && j != index ==> active[j] == old(active[j])
        else
          v == None && active[..] == old(active[..])
    {
      var index := position - firstActivePosition;
      if 0 <= index < active.Length {
        v := active[index];
        active[index] := None;
        return;
      }
      return None;
    }

    /**
     * Pops the newest view from the pile of `itemViewType`, the type the
     * adapter reports for the position (ignored when there is one type).
     */
    method GetScrapView(itemViewType: int) returns (v: Option<View>)
      requires Valid()
      modifies this`scrap
      ensures Valid()
      ensures (v, scrap) == PopScrap(old(scrap), PileIndex(viewTypeCount, itemViewType))
      ensures v.Some? ==> (
        var k := PileIndex(viewTypeCount, itemViewType);
        && 0 <= k < |scrap| && |scrap[k]| == |old(scrap)[k]| - 1
        && forall j :: 0 <= j < |scrap| && j != k ==> scrap[j] == old(scrap)[j])
    {
      var k := if viewTypeCount == 1 then 0 else itemViewType;
      if 0 <= k < |scrap| {
        var size := |scrap[k]|;
        if size > 0 {
          v := Some(scrap[k][size - 1]);
          scrap := scrap[k := scrap[k][..size - 1]];
          return;
        }
      }
      return None;
    }

    /**
     * A view without layout params, or of a negative type, is not
     * kept; any other view is appended to the pile of its type and
     * every other pile is unchanged.
     */
    method AddScrapView(v: View)
      requires Valid() && TypeInRange(viewTypeCount, v)
      modifies this`scrap
      ensures Valid()
      ensures scrap == Added(old(scrap), v)
      ensures !Recyclable(v) ==> scrap == old(scrap)
      ensures Recyclable(v) ==>
        var k := PileIndex(viewTypeCount, v.viewType.value);
        scrap[k] == old(scrap)[k] + [v]
        && forall j :: 0 <= j < |scrap| && j != k ==> scrap[j] == old(scrap)[j]
    {
      if v.viewType.None? {
        return;
      }
      var viewType := v.viewType.value;
      if !ShouldRecycleViewType(viewType) {
        return;
      }
      if viewTypeCount == 1 {
        scrap := scrap[0 := scrap[0] + [v]];
      } else {
        scrap := scrap[viewType := scrap[viewType] + [v]];
      }
    }

    /**
     * Moves the active views, last slot first, into their piles, clears
     * every slot, then prunes every pile to the active array's length.
     */
    method ScrapActiveViews()
      requires Valid()
      modifies this`scrap, active
      ensures Valid()
      ensures forall i :: 0 <= i < active.Length ==> active[i] == None
      ensures scrap == Pruned(ScrapFrom(old(scrap), old(active[..]), 0), active.Length)
      ensures forall k :: 0 <= k < |scrap| ==> |scrap[k]| <= active.Length
      ensures forall k :: 0 <= k < |scrap| ==>
        scrap[k] <= old(scrap)[k] + Destined(viewTypeCount, old(active[..]), 0, k)
    {
      ghost var slots := active[..];
      ghost var piles := scrap;
      var i := active.Length - 1;
      while i >= 0
        invariant -1 <= i < active.Length
        invariant |scrap| == viewTypeCount
        invariant forall j :: i < j < active.Length ==> active[j] == None
        invariant forall j :: 0 <= j <= i ==> active[j] == slots[j]
        invariant scrap == ScrapFrom(piles, slots, i + 1)
      {
        var victim := active[i];
        if victim.Some? {
          var whichScrap := victim.value.viewType.value;
          active[i] := None;
          if ShouldRecycleViewType(whichScrap) {
            var k := if viewTypeCount > 1 then whichScrap else 0;
            scrap := scrap[k := scrap[k] + [victim.value]];
          }
        }
        i := i - 1;
      }
      forall k | 0 <= k < |scrap|
        ensures scrap[k] == piles[k] + Destined(viewTypeCount, slots, 0, k)
      {
        ScrapFromAppends(piles, slots, 0, k);
      }
      PruneScrapViews();
    }

    /** Cuts every pile back to at most active.Length views, dropping from the end. */
    method PruneScrapViews()
      requires Valid()
      modifies this`scrap
      ensures Valid()
      ensures scrap == Pruned(old(scrap), active.Length)
    {
      var maxViews := active.Length;
      ghost var piles := scrap;
      for i := 0 to viewTypeCount
        invariant |scrap| == viewTypeCount
        invariant forall k :: 0 <= k < i ==> scrap[k] == Pruned(piles, maxViews)[k]
        invariant forall k :: i <= k < |scrap| ==> scrap[k] == piles[k]
      {
        ghost var before := scrap;
        var size := |scrap[i]|;
        var extras := size - maxViews;
        size := size - 1;
        var j := 0;
        while j < extras
          invariant 0 <= j <= Max(extras, 0)
          invariant |scrap| == viewTypeCount
          invariant size == |piles[i]| - 1 - j
          invariant scrap[i] == piles[i][..size + 1]
          invariant forall k :: 0 <= k < |scrap| && k != i ==> scrap[k] == before[k]
        {
          scrap := scrap[i := scrap[i][..size]];
          size := size - 1;
          j := j + 1;
        }
      }
    }

    /** Views handed back by reclaimScrapViews: `views` followed by every scrap view. */
    function ReclaimScrapViews(views: seq<View>): (r: seq<View>)
      requires |scrap| == viewTypeCount >= 1
      reads this
      ensures |r| == |views| + TotalScrap(scrap)
      ensures r[..|views|] == views
      ensures forall k, j :: 0 <= k < |scrap| && 0 <= j < |scrap[k]| ==> scrap[k][j] in r
    {
      if viewTypeCount == 1 then views + scrap[0] else views + AllScrap(scrap)
    }

    /** Empties every pile, removing from the end. */
    method Clear()
      requires Valid()
      modifies this`scrap
      ensures Valid()
      ensures |scrap| == |old(scrap)| && forall k :: 0 <= k < |scrap| ==> scrap[k] == []
    {
      if viewTypeCount == 1 {
        EmptyPile(0);
      } else {
        for i := 0 to viewTypeCount
          invariant |scrap| == viewTypeCount
          invariant forall k :: 0 <= k < i ==> scrap[k] == []
        {
          EmptyPile(i);
        }
      }
    }

    /** Removes the views of pile k one by one, last first. */
    method EmptyPile(k: int)
      requires 0 <= k < |scrap|
      modifies this`scrap
      ensures scrap == old(scrap)[k := []]
    {
      var scrapCount := |scrap[k]|;
      assert old(scrap)[k][..scrapCount] == old(scrap)[k];
      for j := 0 to scrapCount
        invariant scrap == old(scrap)[k := old(scrap)[k][..scrapCount - j]]
      {
        assert scrap[k][..scrapCount - 1 - j] == old(scrap)[k][..scrapCount - 1 - j];
        scrap := scrap[k := scrap[k][..scrapCount - 1 - j]];
      }
    }
  }
}
