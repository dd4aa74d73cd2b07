/** What the mouse does to the crop rectangle, by coordinates alone: which handle it holds, where the edges go, and what
    a drag amounts to from press to release. */
module CropDrags {
  import opened Integers
  import opened CropGeometry
  import opened ImageCropper

  // ----- the handle held -----

  /** A handle's place across, from left (-1) to right (1), and down, from top (-1) to bottom (1), and its zone. */
  datatype Handle = Handle(h: int, v: int, zone: Zone)

  const COUNT: nat := 8

  /** Clockwise from the right, the order in which they are looked for. */
  const HANDLES: seq<Handle> :=
    [Handle(1, 0, RIGHT), Handle(1, 1, BOTTOM_RIGHT), Handle(0, 1, BOTTOM), Handle(-1, 1, BOTTOM_LEFT),
     Handle(-1, 0, LEFT), Handle(-1, -1, TOP_LEFT), Handle(0, -1, TOP), Handle(1, -1, TOP_RIGHT)]

  function End(lo: int, hi: int, d: int): (x: int)
  {
    if d < 0 then lo else hi
  }

  /** The place in an interval: its lower end, its middle or its upper end. */
  function Along(lo: int, hi: int, d: int): (x: int)
  {
    if d == 0 then TruncDiv(lo + hi, 2) else End(lo, hi, d)
  }

  function PlaceOf(c: Cropper, i: nat): (q: Point)
    requires i < COUNT
  {
    Point(Along(c.crop.left, c.crop.right, HANDLES[i].h), Along(c.crop.top, c.crop.bottom, HANDLES[i].v))
  }

  /** `p` is within half a drag square of the i-th handle, in both directions. */
  predicate At(c: Cropper, p: Point, i: nat)
    requires i < COUNT
  {
    var q, e := PlaceOf(c, i), c.dragSquareEdge;
    -e <= 2 * (p.x - q.x) <= e && -e <= 2 * (p.y - q.y) <= e
  }

  predicate AtNone(c: Cropper, p: Point, upTo: nat)
    requires upTo <= COUNT
  {
    forall i :: 0 <= i < upTo ==> !At(c, p, i)
  }

  /** Strictly between the ends; between them as normalized if they are the wrong way round. */
  predicate Between(lo: int, hi: int, v: int)
  {
    lo < v < hi || hi + 1 < v < lo - 1
  }

  /** A mouse move that starts a drag, or only hovers, is in the zone of the first handle it is near, so in that of the
      only one if there is only one; near none it is INSIDE exactly if it is strictly inside. */
  lemma ZoneOfHandle(c: Cropper, p: Point)
    requires !c.zoneKnown
    ensures var zone := After(c, Move(p)).zone;
            && (forall i :: 0 <= i < COUNT ==> (zone == HANDLES[i].zone <==> At(c, p, i) && AtNone(c, p, i)))
            && (AtNone(c, p, COUNT) ==>
                  zone == if Between(c.crop.left, c.crop.right, p.x) && Between(c.crop.top, c.crop.bottom, p.y)
                          then INSIDE else OUTSIDE)
  {
    LooksClockwise(c, p);
    FirstZone(c, p, 0);
  }

  /** The zone of the first handle near, from the i-th on. */
  function ZoneFrom(c: Cropper, p: Point, i: nat): (z: Zone)
    requires i <= COUNT
    decreases COUNT - i
  {
    if i == COUNT then
      (if Between(c.crop.left, c.crop.right, p.x) && Between(c.crop.top, c.crop.bottom, p.y) then INSIDE else OUTSIDE)
    else if At(c, p, i) then HANDLES[i].zone
    else ZoneFrom(c, p, i + 1)
  }

  lemma {:induction false} FirstZone(c: Cropper, p: Point, i: nat)
    requires i <= COUNT && AtNone(c, p, i)
    ensures forall j :: i <= j < COUNT ==> (ZoneFrom(c, p, i) == HANDLES[j].zone <==> At(c, p, j) && AtNone(c, p, j))
    ensures forall j :: 0 <= j < i ==> ZoneFrom(c, p, i) != HANDLES[j].zone
    ensures AtNone(c, p, COUNT) ==> ZoneFrom(c, p, i) == ZoneFrom(c, p, COUNT)
    decreases COUNT - i
  {
    if i == COUNT {
    } else if At(c, p, i) {
      forall j | 0 <= j < COUNT && j != i ensures HANDLES[j].zone != HANDLES[i].zone {
        DifferentZones(i, j);
      }
    } else {
      FirstZone(c, p, i + 1);
    }
  }

  lemma DifferentZones(i: nat, j: nat)
    requires i < COUNT && j < COUNT && i != j
    ensures HANDLES[i].zone != HANDLES[j].zone
  {
  }

  lemma LooksClockwise(c: Cropper, p: Point)
    ensures ZoneAt(c.crop, p, c.dragSquareEdge) == ZoneFrom(c, p, 0)
  {
    NearIsAt(c, p);
    StrictlyInside(c.crop, p);
    var z := ZoneAt(c.crop, p, c.dragSquareEdge);
    assert AtNone(c, p, COUNT) ==> z == ZoneFrom(c, p, COUNT);
    assert ZoneFrom(c, p, 6) == if At(c, p, 6) then TOP else if At(c, p, 7) then TOP_RIGHT else ZoneFrom(c, p, COUNT);
    assert ZoneFrom(c, p, 4) == if At(c, p, 4) then LEFT else if At(c, p, 5) then TOP_LEFT else ZoneFrom(c, p, 6);
    assert ZoneFrom(c, p, 2) == if At(c, p, 2) then BOTTOM else if At(c, p, 3) then BOTTOM_LEFT else ZoneFrom(c, p, 4);
    assert ZoneFrom(c, p, 0) == if At(c, p, 0) then RIGHT else if At(c, p, 1) then BOTTOM_RIGHT else ZoneFrom(c, p, 2);
  }

  lemma NearIsAt(c: Cropper, p: Point)
    ensures var r, m, e := c.crop, c.crop.Center(), c.dragSquareEdge;
            && (At(c, p, 0) <==> Near(p, Point(r.right, m.y), e))
            && (At(c, p, 1) <==> Near(p, Point(r.right, r.bottom), e))
            && (At(c, p, 2) <==> Near(p, Point(m.x, r.bottom), e))
            && (At(c, p, 3) <==> Near(p, Point(r.left, r.bottom), e))
            && (At(c, p, 4) <==> Near(p, Point(r.left, m.y), e))
            && (At(c, p, 5) <==> Near(p, Point(r.left, r.top), e))
            && (At(c, p, 6) <==> Near(p, Point(m.x, r.top), e))
            && (At(c, p, 7) <==> Near(p, Point(r.right, r.top), e))
  {
    forall i | 0 <= i < COUNT ensures At(c, p, i) <==> Near(p, PlaceOf(c, i), c.dragSquareEdge) {
      NearPlace(c, p, i);
    }
    var r, m := c.crop, c.crop.Center();
    assert PlaceOf(c, 0) == Point(r.right, m.y) && PlaceOf(c, 1) == Point(r.right, r.bottom);
    assert PlaceOf(c, 2) == Point(m.x, r.bottom) && PlaceOf(c, 3) == Point(r.left, r.bottom);
    assert PlaceOf(c, 4) == Point(r.left, m.y) && PlaceOf(c, 5) == Point(r.left, r.top);
    assert PlaceOf(c, 6) == Point(m.x, r.top) && PlaceOf(c, 7) == Point(r.right, r.top);
  }

  lemma NearPlace(c: Cropper, p: Point, i: nat)
    requires i < COUNT
    ensures At(c, p, i) <==> Near(p, PlaceOf(c, i), c.dragSquareEdge)
  {
    var q, e := PlaceOf(c, i), c.dragSquareEdge;
    assert -e <= 2 * (p.x - q.x) <= e <==> (if p.x >= q.x then p.x - q.x else q.x - p.x) * 2 <= e;
    assert -e <= 2 * (p.y - q.y) <= e <==> (if p.y >= q.y then p.y - q.y else q.y - p.y) * 2 <= e;
  }

  lemma StrictlyInside(r: Rect, p: Point)
    ensures r.ContainsProperly(p) <==> Between(r.left, r.right, p.x) && Between(r.top, r.bottom, p.y)
  {
  }

  // ----- where the edges go -----

  /** A drag under way at `p`, in the zone of the i-th handle. */
  predicate Holding(c: Cropper, p: Point, i: nat)
    requires i < COUNT
  {
    c.pressed && c.image.Proper() && c.image.Contains(p) && After(c, Move(p)).zone == HANDLES[i].zone
  }

  function Larger(x: int, y: int): (m: int)
    ensures m >= x && m >= y && (m == x || m == y)
  {
    if x > y then x else y
  }

  /** `d`, counted in direction `sign`. */
  function Signed(sign: int, d: int): (r: int)
  {
    if sign > 0 then d else -d
  }

  /** The corner at (h, v) of `s` is at (x, y), and that of `r` opposite to it where it was in `s`. */
  predicate CornerMoved(r: Rect, s: Rect, h: int, v: int, x: int, y: int)
  {
    && End(r.left, r.right, h) == x && End(r.top, r.bottom, v) == y
    && End(r.left, r.right, -h) == End(s.left, s.right, -h)
    && End(r.top, r.bottom, -v) == End(s.top, s.bottom, -v)
  }

  predicate Lands(image: Rect, x: int, y: int)
  {
    image.left <= x <= image.right && image.top <= y <= image.bottom
  }

  /** If both distances from the corner opposite to (h, v) to the mouse pass their minimums and the corner lands in the
      image, the opposite corner stays and the side spans the larger distance, towards the mouse; else nothing moves. */
  predicate CornerFollows(r: Rect, s: Rect, image: Rect, p: Point, h: int, v: int, minW: int, minH: int)
  {
    var x, y := End(s.left, s.right, -h), End(s.top, s.bottom, -v);
    var spanX, spanY := Signed(h, p.x - x), Signed(v, p.y - y);
    var d := Larger(spanX, spanY);
    if spanX >= minW && spanY >= minH && Lands(image, x + Signed(h, d), y + Signed(v, d))
    then CornerMoved(r, s, h, v, x + Signed(h, d), y + Signed(v, d))
         && r.right - r.left == r.bottom - r.top == d
    else r == s
  }

  /** A square's corner follows the mouse along the diagonal. */
  lemma SquareCornerFollows(c: Cropper, p: Point, i: nat)
    requires i < COUNT && Holding(c, p, i) && c.shape.KeepsSquare() && HANDLES[i].h != 0 && HANDLES[i].v != 0
    ensures CornerFollows(After(c, Move(p)).crop, c.crop, c.image, p, HANDLES[i].h, HANDLES[i].v, c.minW, c.minH)
  {
    ZoneDirections(i);
    var zone := HANDLES[i].zone;
    assert After(c, Move(p)).crop == SquareCorner(c.crop, c.image, zone.H(), zone.V(), p, c.minW, c.minH);
    SquareCornerMoved(c.crop, c.image, zone.H(), zone.V(), p, c.minW, c.minH);
  }

  lemma ZoneDirections(i: nat)
    requires i < COUNT
    ensures HANDLES[i].zone.H() == HANDLES[i].h && HANDLES[i].zone.V() == HANDLES[i].v
    ensures HANDLES[i].zone != INSIDE && HANDLES[i].zone != OUTSIDE
  {
  }

  lemma SquareCornerMoved(crop: Rect, image: Rect, h: int, v: int, p: Point, minW: int, minH: int)
    requires h in {-1, 1} && v in {-1, 1} && image.Proper()
    ensures CornerFollows(SquareCorner(crop, image, h, v, p, minW, minH), crop, image, p, h, v, minW, minH)
  {
    var d := Larger(Signed(h, p.x - End(crop.left, crop.right, -h)), Signed(v, p.y - End(crop.top, crop.bottom, -v)));
    SquareCornerGoesTo(crop, image, h, v, p, minW, minH);
    CornerPlaced(crop, h, v, d);
  }

  lemma SquareCornerGoesTo(crop: Rect, image: Rect, h: int, v: int, p: Point, minW: int, minH: int)
    requires h in {-1, 1} && v in {-1, 1} && image.Proper()
    ensures var x, y := End(crop.left, crop.right, -h), End(crop.top, crop.bottom, -v);
            var spanX, spanY := Signed(h, p.x - x), Signed(v, p.y - y);
            var d := Larger(spanX, spanY);
            var toX, toY := x + Signed(h, d), y + Signed(v, d);
            SquareCorner(crop, image, h, v, p, minW, minH)
            == if spanX >= minW && spanY >= minH && Lands(image, toX, toY)
               then WithY(WithX(crop, h, toX), v, toY) else crop
  {
    var d := Larger(SpanX(crop, h, p.x), SpanY(crop, v, p.y));
    ContainsLands(image, Point(if h == 1 then crop.left + d else crop.right - d,
                               if v == 1 then crop.top + d else crop.bottom - d));
  }

  lemma CornerPlaced(s: Rect, h: int, v: int, d: int)
    requires h in {-1, 1} && v in {-1, 1}
    ensures var x, y := End(s.left, s.right, -h) + Signed(h, d), End(s.top, s.bottom, -v) + Signed(v, d);
            var r := WithY(WithX(s, h, x), v, y);
            CornerMoved(r, s, h, v, x, y) && r.right - r.left == r.bottom - r.top == d
  {
  }

  lemma ContainsLands(image: Rect, q: Point)
    requires image.Proper()
    ensures image.Contains(q) <==> Lands(image, q.x, q.y)
  {
  }

  /** A free rectangle's corner or RIGHT side: each dragged edge goes to the mouse if its distance from the opposite
      edge passes its minimum and stays otherwise; the other edges stay.  BOTTOM_LEFT does so for the fixed shapes
      too. */
  lemma FreeEdgesFollow(c: Cropper, p: Point, i: nat)
    requires i < COUNT && Holding(c, p, i) && !HANDLES[i].zone.ByOffset()
    requires c.shape.Free() || (HANDLES[i].zone == BOTTOM_LEFT && (c.shape.FIXED_RECT? || c.shape.FIXED_ELLIPSE?))
    ensures var h, v, crop := HANDLES[i].h, HANDLES[i].v, After(c, Move(p)).crop;
            var x, y := End(c.crop.left, c.crop.right, -h), End(c.crop.top, c.crop.bottom, -v);
            && (h != 0 ==> End(crop.left, crop.right, -h) == x
                           && End(crop.left, crop.right, h)
                              == if Signed(h, p.x - x) >= c.minW then p.x else End(c.crop.left, c.crop.right, h))
            && (h == 0 ==> crop.left == c.crop.left && crop.right == c.crop.right)
            && (v != 0 ==> End(crop.top, crop.bottom, -v) == y
                           && End(crop.top, crop.bottom, v)
                              == if Signed(v, p.y - y) >= c.minH then p.y else End(c.crop.top, c.crop.bottom, v))
            && (v == 0 ==> crop.top == c.crop.top && crop.bottom == c.crop.bottom)
  {
    ZoneDirections(i);
    var zone := HANDLES[i].zone;
    if zone == RIGHT {
    } else {
      assert zone.Corner();
      assert After(c, Move(p)).crop == FreeCorner(c.crop, zone, p, c.minW, c.minH);
    }
  }

  /** The BOTTOM, LEFT and TOP sides of a free rectangle go by the mouse's offset since the last move into the image,
      if its distance from the opposite side passes the minimum height; nothing else moves. */
  lemma FreeSidesShift(c: Cropper, p: Point)
    requires c.pressed && c.image.Contains(p) && c.shape.Free()
    ensures var r := After(c, Move(p)); var dx, dy := p.x - c.last.x, p.y - c.last.y;
            && (r.zone == BOTTOM ==>
                  r.crop == c.crop.(bottom := c.crop.bottom + if p.y - c.crop.top >= c.minH then dy else 0))
            && (r.zone == TOP ==>
                  r.crop == c.crop.(top := c.crop.top + if c.crop.bottom - p.y >= c.minH then dy else 0))
            && (r.zone == LEFT ==>
                  r.crop == c.crop.(left := c.crop.left + if c.crop.right - p.x >= c.minH then dx else 0))
  {
  }

  /** Room for a shift by `d` on the side it goes to. */
  predicate Room(lo: int, hi: int, from: int, to: int, d: int)
  {
    (d > 0 ==> to + d <= hi) && (d < 0 ==> from + d >= lo)
  }

  /** An INSIDE drag keeps the size, and in each direction shifts by exactly the offset if there is room, else not at
      all; so for every shape. */
  lemma InsideShifts(c: Cropper, p: Point)
    requires c.pressed && c.image.Contains(p) && After(c, Move(p)).zone == INSIDE
    ensures var crop := After(c, Move(p)).crop; var dx, dy := p.x - c.last.x, p.y - c.last.y;
            && crop.Width() == c.crop.Width() && crop.Height() == c.crop.Height()
            && crop.left - c.crop.left
               == (if Room(c.image.left, c.image.right, c.crop.left, c.crop.right, dx) then dx else 0)
            && crop.top - c.crop.top
               == (if Room(c.image.top, c.image.bottom, c.crop.top, c.crop.bottom, dy) then dy else 0)
  {
  }

  /** Everything else leaves the rectangle alone: hovering, a mouse outside the image, a drag from outside, the sides of
      a square, the handles of a fixed shape but BOTTOM_LEFT, and any handle while no shape is set. */
  lemma ElseNothingMoves(c: Cropper, p: Point)
    requires var zone := After(c, Move(p)).zone;
             || !c.pressed || !c.image.Contains(p) || zone == OUTSIDE
             || (c.shape.KeepsSquare() && zone in {RIGHT, BOTTOM, LEFT, TOP})
             || ((c.shape.FIXED_RECT? || c.shape.FIXED_ELLIPSE?) && zone != INSIDE && zone != BOTTOM_LEFT)
             || (c.shape.UNDEFINED? && zone != INSIDE)
    ensures After(c, Move(p)).crop == c.crop
  {
  }

  // ----- from press to release -----

  /** Each drag looks for its handle anew, and its offsets count from its own press. */
  lemma PressStartsAfresh(c: Cropper, p: Point)
    ensures var r := AfterAll(c, [Release, Press(p)]);
            r.pressed && !r.zoneKnown && r.last == p && r.crop == c.crop
  {
    assert [Release, Press(p)][1..] == [Press(p)] && [Press(p)][1..] == [];
    assert AfterAll(After(c, Release), [Press(p)]) == AfterAll(After(After(c, Release), Press(p)), []);
  }

  /** Once a move has been made in the image, the zone stays until the release, wherever the mouse goes. */
  lemma {:induction false} ZoneStays(c: Cropper, p: Point, ps: seq<Point>)
    requires c.pressed && c.image.Contains(p)
    ensures var held := After(c, Move(p)); Moves(held, ps).zone == held.zone && Moves(held, ps).zoneKnown
  {
    MovesKeepZone(After(c, Move(p)), ps);
  }

  lemma {:induction false} MovesKeepZone(c: Cropper, ps: seq<Point>)
    requires c.zoneKnown
    ensures Moves(c, ps).zone == c.zone && Moves(c, ps).zoneKnown
    decreases |ps|
  {
    if ps == [] {
    } else {
      MovesKeepZone(AfterMove(c, ps[0]), ps[1..]);
    }
  }

  /** While the button is up the rectangle stays. */
  lemma {:induction false} NothingMovesUnpressed(c: Cropper, es: seq<Event>)
    requires !c.pressed && forall e <- es :: !e.Press?
    ensures AfterAll(c, es).crop == c.crop
    decreases |es|
  {
    if es == [] {
    } else {
      assert es[0] in es && forall e <- es[1..] :: e in es;
      NothingMovesUnpressed(After(c, es[0]), es[1..]);
    }
  }

  /** Every move into the image has room. */
  predicate RoomAll(c: Cropper, ps: seq<Point>)
    decreases |ps|
  {
    ps == [] ||
    (&& (c.image.Contains(ps[0]) ==>
           && Room(c.image.left, c.image.right, c.crop.left, c.crop.right, ps[0].x - c.last.x)
           && Room(c.image.top, c.image.bottom, c.crop.top, c.crop.bottom, ps[0].y - c.last.y))
     && RoomAll(AfterMove(c, ps[0]), ps[1..]))
  }

  /** An INSIDE drag with room all along carries the rectangle with the mouse: after any moves it is the rectangle of
      the start, shifted by as much as the mouse is away from where it was pressed. */
  lemma {:induction false} InsideDragFollows(c: Cropper, ps: seq<Point>)
    requires c.pressed && c.zoneKnown && c.zone == INSIDE && RoomAll(c, ps)
    ensures var r := Moves(c, ps); var dx, dy := r.last.x - c.last.x, r.last.y - c.last.y;
            r.crop == Rect(c.crop.left + dx, c.crop.top + dy, c.crop.right + dx, c.crop.bottom + dy)
    ensures ps != [] && c.image.Contains(ps[|ps| - 1]) ==> Moves(c, ps).last == ps[|ps| - 1]
    decreases |ps|
  {
    if ps == [] {
    } else {
      var next := AfterMove(c, ps[0]);
      if c.image.Contains(ps[0]) {
        InsideShifts(c, ps[0]);
      }
      assert next.image == c.image && next.zone == INSIDE;
      InsideDragFollows(next, ps[1..]);
      if |ps| == 1 {
        assert ps[1..] == [];
      } else {
        assert ps[1..][|ps| - 2] == ps[|ps| - 1];
      }
    }
  }
}
