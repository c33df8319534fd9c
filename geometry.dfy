/**
 * Dragging with overlap rejection (`onMouseMove` with `noOverlap`).
 * Coordinates are integers; the editor uses JavaScript numbers.
 */
module Geometry {
  import opened Diagram

  /**
   * `noOverlap(nx, ny, w, h, other)`: the box at (nx, ny) of size w x h lies
   * strictly left of, right of, above or below `other`. The comparisons are
   * strict, so boxes that only touch count as overlapping.
   */
  predicate NoOverlap(nx: int, ny: int, w: int, h: int, other: Element) {
    nx + w < other.x || nx > other.x + other.width ||
    ny + h < other.y || ny > other.y + other.height
  }

  /** The point (px, py) lies in the closed box at (x, y) of size w x h, border included. */
  predicate InBox(px: int, py: int, x: int, y: int, w: int, h: int) {
    x <= px <= x + w && y <= py <= y + h
  }

  /**
   * Reference meaning of the overlap test: for boxes of non-negative size,
   * `noOverlap` fails exactly when the two closed boxes share a point, a
   * point on both borders included.
   */
  lemma OverlapIsSharedPoint(nx: int, ny: int, w: int, h: int, other: Element)
    requires w >= 0 && h >= 0 && other.width >= 0 && other.height >= 0
    ensures !NoOverlap(nx, ny, w, h, other) <==>
            exists px, py :: InBox(px, py, nx, ny, w, h) &&
                             InBox(px, py, other.x, other.y, other.width, other.height)
  {
    if !NoOverlap(nx, ny, w, h, other) {
      var px := if nx < other.x then other.x else nx;
      var py := if ny < other.y then other.y else ny;
      assert InBox(px, py, nx, ny, w, h) && InBox(px, py, other.x, other.y, other.width, other.height);
    }
  }

  /** Boxes that only touch along an edge are rejected as overlapping. */
  lemma TouchingOverlaps(ny: int, w: int, h: int, other: Element)
    requires w >= 0 && h >= 0 && other.width >= 0 && other.height >= 0
    requires other.y - h <= ny <= other.y + other.height
    ensures !NoOverlap(other.x + other.width, ny, w, h, other)
    ensures !NoOverlap(other.x - w, ny, w, h, other)
  {
  }

  /** Some element with another id overlaps `e` placed at (nx, ny). */
  predicate Blocked(prev: seq<Element>, e: Element, nx: int, ny: int) {
    exists o :: o in prev && o.id != e.id && !NoOverlap(nx, ny, e.width, e.height, o)
  }

  /**
   * The inner loop of `onMouseMove`: skip elements sharing the dragged id,
   * stop at the first one the new box overlaps.
   */
  method CanPlace(prev: seq<Element>, e: Element, nx: int, ny: int) returns (ok: bool)
    ensures ok <==> !Blocked(prev, e, nx, ny)
  {
    for i := 0 to |prev|
      invariant forall j :: 0 <= j < i ==> prev[j].id == e.id || NoOverlap(nx, ny, e.width, e.height, prev[j])
    {
      var o := prev[i];
      if o.id == e.id {
        continue;
      }
      if !NoOverlap(nx, ny, e.width, e.height, o) {
        return false;
      }
    }
    return true;
  }

  /** The element `e` of `prev` after a drag of element `id` to (nx, ny). */
  function Placed(prev: seq<Element>, e: Element, id: Id, nx: int, ny: int): Element {
    if e.id != id || Blocked(prev, e, nx, ny) then e else e.(x := nx, y := ny)
  }

  /**
   * The element list after a drag of element `id` to (nx, ny): only the
   * position of the dragged element can change; elements with other ids stay
   * as they were; a blocked drag changes nothing; an unblocked one puts the
   * element exactly at (nx, ny).
   */
  function Moved(prev: seq<Element>, id: Id, nx: int, ny: int): (r: seq<Element>)
    ensures |r| == |prev|
    ensures forall i :: 0 <= i < |prev| ==> r[i] == Placed(prev, prev[i], id, nx, ny)
    ensures forall i :: 0 <= i < |prev| ==> r[i].(x := 0, y := 0) == prev[i].(x := 0, y := 0)
    ensures forall i :: 0 <= i < |prev| && prev[i].id != id ==> r[i] == prev[i]
    ensures forall i :: 0 <= i < |prev| && prev[i].id == id && Blocked(prev, prev[i], nx, ny) ==> r[i] == prev[i]
    ensures forall i :: 0 <= i < |prev| && prev[i].id == id && !Blocked(prev, prev[i], nx, ny) ==>
              r[i].x == nx && r[i].y == ny
  {
    seq(|prev|, i requires 0 <= i < |prev| => Placed(prev, prev[i], id, nx, ny))
  }

  /**
   * A drag never creates an overlap: once element i has moved, its box
   * overlaps no element with another id in the new list.
   */
  lemma MovedIsClear(prev: seq<Element>, id: Id, nx: int, ny: int, i: nat)
    requires i < |prev|
    requires Moved(prev, id, nx, ny)[i] != prev[i]
    ensures var r := Moved(prev, id, nx, ny);
            forall j :: 0 <= j < |r| && r[j].id != id ==>
              NoOverlap(r[i].x, r[i].y, r[i].width, r[i].height, r[j])
  {
    var r := Moved(prev, id, nx, ny);
    assert prev[i].id == id && !Blocked(prev, prev[i], nx, ny);
    forall j | 0 <= j < |r| && r[j].id != id
      ensures NoOverlap(r[i].x, r[i].y, r[i].width, r[i].height, r[j])
    {
      assert r[j] == prev[j];
      assert prev[j] in prev;
    }
  }
}
