/** Pixels: lane heights, lane offsets and the card rectangles of the timeline. */
module FlowGeometry {
  import opened Common
  import opened Graph
  import opened FlowLayout

  const CARD_W := 176
  const CARD_H := 104
  const COL_PITCH := 224
  const ROW_PITCH := 148
  const ROUTE_ROW := 40
  const FIRING_ROW_H := 16
  const LANE_GAP := ROW_PITCH - CARD_H

  function ExpandedCardHeight(n: nat): nat {
    84 + n * FIRING_ROW_H + 26
  }

  /** A card grows only when its badge is open and the event fired more than once. */
  function CardHeight(expanded: set<Node>, fired: map<Node, nat>, ref: Node): (h: nat)
    ensures h >= CARD_H
    ensures h > CARD_H <==> ref in expanded && ref in fired && fired[ref] > 1
  {
    if ref in expanded && ref in fired && fired[ref] > 1 then ExpandedCardHeight(fired[ref]) else CARD_H
  }

  /** An open card has a row for each firing. */
  lemma OpenCardsGrow(expanded: set<Node>, fired: map<Node, nat>, ref: Node, n: nat)
    requires ref in expanded && ref in fired && fired[ref] > 1
    ensures CardHeight(expanded, fired[ref := fired[ref] + n], ref)
            == CardHeight(expanded, fired, ref) + n * FIRING_ROW_H
  {
  }

  /** A lane is as tall as its tallest card, or a short route row without any. */
  ghost predicate IsLaneHeight(place: map<Node, Place>, tall: map<Node, nat>, L: nat, h: nat)
    requires tall.Keys == place.Keys
  {
    && (forall k :: k in place && place[k].lane == L ==> tall[k] <= h)
    && (if exists k :: k in place && place[k].lane == L
        then exists k :: k in place && place[k].lane == L && tall[k] == h
        else h == ROUTE_ROW)
  }

  /** The height of everything above lane `L`, gaps included. */
  function Above(heights: seq<nat>, L: nat): nat
    requires L <= |heights|
  {
    if L == 0 then 0 else Above(heights, L - 1) + heights[L - 1] + LANE_GAP
  }

  lemma {:induction false} AboveGrows(heights: seq<nat>, a: nat, b: nat)
    requires a < b <= |heights|
    ensures Above(heights, a) + heights[a] + LANE_GAP <= Above(heights, b)
  {
    if a + 1 < b {
      AboveGrows(heights, a, b - 1);
    }
  }

  ghost predicate HeightSoFar(place: map<Node, Place>, tall: map<Node, nat>, done: seq<Node>, L: nat, h: nat)
    requires tall.Keys == place.Keys
  {
    && (forall k :: k in done && k in place && place[k].lane == L ==> tall[k] <= h)
    && (if exists k :: k in place && place[k].lane == L
        then h == CARD_H || exists k :: k in done && k in place && place[k].lane == L && tall[k] == h
        else h == ROUTE_ROW)
  }

  lemma RaiseOne(place: map<Node, Place>, tall: map<Node, nat>, done: seq<Node>, k: Node, L: nat, h: nat)
    requires tall.Keys == place.Keys && k in place && HeightSoFar(place, tall, done, L, h)
    ensures HeightSoFar(place, tall, done + [k], L, if place[k].lane == L && tall[k] > h then tall[k] else h)
  {
    var h' := if place[k].lane == L && tall[k] > h then tall[k] else h;
    if h' == tall[k] && place[k].lane == L {
      assert k in done + [k];
    } else if exists j :: j in done && j in place && place[j].lane == L && tall[j] == h {
      var j :| j in done && j in place && place[j].lane == L && tall[j] == h;
      assert j in done + [k];
    }
  }

  /** Raises every lane to its tallest card. */
  method RaiseLanes(refs: seq<Node>, place: map<Node, Place>, tall: map<Node, nat>, laneHeight: array<nat>)
    requires tall.Keys == place.Keys && forall k :: k in refs ==> k in place && place[k].lane < laneHeight.Length
    requires forall L :: 0 <= L < laneHeight.Length ==> HeightSoFar(place, tall, [], L, laneHeight[L])
    modifies laneHeight
    ensures forall L :: 0 <= L < laneHeight.Length ==> HeightSoFar(place, tall, refs, L, laneHeight[L])
  {
    for i := 0 to |refs|
      invariant forall L :: 0 <= L < laneHeight.Length ==> HeightSoFar(place, tall, refs[..i], L, laneHeight[L])
    {
      var k := refs[i];
      assert k in refs;
      ghost var before := laneHeight[..];
      var lane := place[k].lane;
      laneHeight[lane] := if tall[k] > laneHeight[lane] then tall[k] else laneHeight[lane];
      assert refs[..i + 1] == refs[..i] + [k];
      forall L | 0 <= L < laneHeight.Length
        ensures HeightSoFar(place, tall, refs[..i + 1], L, laneHeight[L])
      {
        RaiseOne(place, tall, refs[..i], k, L, before[L]);
      }
    }
    assert refs[..|refs|] == refs;
  }

  /** Stacks the lanes from the top. */
  method StackLanes(laneHeight: array<nat>) returns (laneTop: array<nat>)
    ensures fresh(laneTop) && laneTop.Length == laneHeight.Length
    ensures forall L :: 0 <= L < laneTop.Length ==> laneTop[L] == Above(laneHeight[..], L)
  {
    laneTop := new nat[laneHeight.Length];
    var acc := 0;
    for L := 0 to laneHeight.Length
      invariant acc == Above(laneHeight[..], L)
      invariant forall M :: 0 <= M < L ==> laneTop[M] == Above(laneHeight[..], M)
    {
      laneTop[L] := acc;
      acc := acc + laneHeight[L] + LANE_GAP;
    }
  }

  /** The lane heights and offsets of the timeline. */
  method LaneGeometry(refs: seq<Node>, place: map<Node, Place>, lanes: nat, tall: map<Node, nat>)
    returns (laneHeight: array<nat>, laneTop: array<nat>)
    requires tall.Keys == place.Keys == Elements(refs)
             && forall k :: k in place ==> place[k].lane < lanes && tall[k] >= CARD_H
    ensures laneHeight.Length == laneTop.Length == lanes && fresh(laneHeight) && fresh(laneTop)
    ensures forall L :: 0 <= L < lanes ==> IsLaneHeight(place, tall, L, laneHeight[L])
    ensures forall L :: 0 <= L < lanes ==> laneTop[L] == Above(laneHeight[..], L)
  {
    var cardLanes := set k | k in place :: place[k].lane;
    laneHeight := new nat[lanes](L => if L in cardLanes then CARD_H else ROUTE_ROW);
    forall k | k in refs
      ensures k in place
    {
      assert k in Elements(refs);
    }
    RaiseLanes(refs, place, tall, laneHeight);
    forall L | 0 <= L < lanes
      ensures IsLaneHeight(place, tall, L, laneHeight[L])
    {
      AllRaised(refs, place, tall, L, laneHeight[L]);
    }
    laneTop := StackLanes(laneHeight);
  }

  lemma AllRaised(refs: seq<Node>, place: map<Node, Place>, tall: map<Node, nat>, L: nat, h: nat)
    requires tall.Keys == place.Keys == Elements(refs) && forall k :: k in place ==> tall[k] >= CARD_H
    requires HeightSoFar(place, tall, refs, L, h)
    ensures IsLaneHeight(place, tall, L, h)
  {
    forall k | k in place && place[k].lane == L
      ensures tall[k] <= h
    {
      assert k in Elements(refs);
    }
  }

  datatype Rect = Rect(x: int, y: int, w: int, h: int)

  ghost predicate Apart(a: Rect, b: Rect) {
    a.x + a.w <= b.x || b.x + b.w <= a.x || a.y + a.h <= b.y || b.y + b.h <= a.y
  }

  function CardRect(place: map<Node, Place>, tall: map<Node, nat>, heights: seq<nat>, k: Node): Rect
    requires k in place && k in tall && place[k].lane < |heights|
  {
    Rect(place[k].col * COL_PITCH, Above(heights, place[k].lane), CARD_W, tall[k])
  }

  lemma TwoCardsApart(place: map<Node, Place>, tall: map<Node, nat>, heights: seq<nat>, a: Node, b: Node)
    requires tall.Keys == place.Keys && a in place && b in place
    requires place[a].lane <= place[b].lane < |heights|
    requires place[a].lane < place[b].lane || place[a].col != place[b].col
    requires tall[a] <= heights[place[a].lane]
    ensures Apart(CardRect(place, tall, heights, a), CardRect(place, tall, heights, b))
  {
    if place[a].lane < place[b].lane {
      AboveGrows(heights, place[a].lane, place[b].lane);
    }
  }

  ghost predicate Inside(r: Rect, w: int, h: int) {
    0 <= r.x && r.x + r.w <= w && 0 <= r.y && r.y + r.h <= h
  }

  function DrawnWidth(layout: Layout): int {
    (layout.cols - 1) * COL_PITCH + CARD_W
  }

  function DrawnHeight(heights: seq<nat>): int {
    if heights == [] then CARD_H else Above(heights, |heights| - 1) + heights[|heights| - 1]
  }

  lemma CardInside(layout: Layout, tall: map<Node, nat>, heights: seq<nat>, a: Node)
    requires tall.Keys == layout.place.Keys && a in layout.place
    requires layout.place[a].col < layout.cols && layout.place[a].lane < |heights|
    requires tall[a] <= heights[layout.place[a].lane]
    ensures Inside(CardRect(layout.place, tall, heights, a), DrawnWidth(layout), DrawnHeight(heights))
  {
    var L := layout.place[a].lane;
    if L < |heights| - 1 {
      AboveGrows(heights, L, |heights| - 1);
    }
  }

  /** For any set of expanded cards: no two rectangles overlap, and all lie inside
      the computed width and height. */
  lemma CardsDoNotOverlap(refs: seq<Node>, layout: Layout, tall: map<Node, nat>, heights: seq<nat>)
    requires CellsOnce(refs, layout) && tall.Keys == layout.place.Keys && |heights| == layout.lanes
    requires forall L :: 0 <= L < layout.lanes ==> IsLaneHeight(layout.place, tall, L, heights[L])
    ensures forall a, b :: a in layout.place && b in layout.place && a != b ==>
              Apart(CardRect(layout.place, tall, heights, a), CardRect(layout.place, tall, heights, b))
    ensures forall a :: a in layout.place ==>
              Inside(CardRect(layout.place, tall, heights, a), DrawnWidth(layout), DrawnHeight(heights))
  {
    var place := layout.place;
    forall a | a in place
      ensures tall[a] <= heights[place[a].lane]
    {
      assert IsLaneHeight(place, tall, place[a].lane, heights[place[a].lane]);
    }
    forall a, b | a in place && b in place && a != b
      ensures Apart(CardRect(place, tall, heights, a), CardRect(place, tall, heights, b))
    {
      if place[a].lane <= place[b].lane {
        TwoCardsApart(place, tall, heights, a, b);
      } else {
        TwoCardsApart(place, tall, heights, b, a);
      }
    }
    forall a | a in place
      ensures Inside(CardRect(place, tall, heights, a), DrawnWidth(layout), DrawnHeight(heights))
    {
      CardInside(layout, tall, heights, a);
    }
  }

  /** And the drawing is no larger than that: its width ends with a card of the last
      column, its height with the last lane, so with its tallest card if it has one. */
  lemma DrawingIsTight(layout: Layout, tall: map<Node, nat>, heights: seq<nat>, a: Node)
    requires tall.Keys == layout.place.Keys && a in layout.place && layout.place[a].lane < |heights|
    requires IsLaneHeight(layout.place, tall, |heights| - 1, heights[|heights| - 1])
    ensures var r := CardRect(layout.place, tall, heights, a);
            layout.place[a].col + 1 == layout.cols ==> r.x + r.w == DrawnWidth(layout)
    ensures layout.place[a].lane + 1 == |heights| ==>
              exists b :: b in layout.place && layout.place[b].lane + 1 == |heights|
                          && Above(heights, layout.place[b].lane) + tall[b] == DrawnHeight(heights)
  {
  }
}
