/** Rectangles in the conventions of QRect, the zones of the crop rectangle, and what a drag does to it,
    stated uniformly over the zones. */
module CropGeometry {
  import opened Integers

  datatype Point = Point(x: int, y: int)

  /** Inclusive edges: width is right - left + 1. */
  datatype Rect = Rect(left: int, top: int, right: int, bottom: int) {

    function Width(): (w: int) {
      right - left + 1
    }

    function Height(): (h: int) {
      bottom - top + 1
    }

    function Center(): (p: Point) {
      Point(TruncDiv(left + right, 2), TruncDiv(top + bottom, 2))
    }

    predicate Contains(p: Point) {
      InRange(left, right, p.x, false) && InRange(top, bottom, p.y, false)
    }

    predicate ContainsProperly(p: Point) {
      InRange(left, right, p.x, true) && InRange(top, bottom, p.y, true)
    }

    /** An inverted rectangle is normalized before the test, as QRect::contains does. */
    static predicate InRange(lo: int, hi: int, v: int, proper: bool) {
      var l := if hi < lo - 1 then hi + 1 else lo;
      var r := if hi < lo - 1 then lo - 1 else hi;
      if proper then l < v < r else l <= v <= r
    }

    /** No edge lies beyond the same edge of `outer`. */
    predicate Within(outer: Rect) {
      outer.left <= left && outer.top <= top && right <= outer.right && bottom <= outer.bottom
    }

    predicate Square() {
      Width() == Height()
    }

    predicate Proper() {
      Width() >= 0 && Height() >= 0
    }
  }

  function RectOfSize(x: int, y: int, w: int, h: int): (r: Rect)
    ensures r.left == x && r.top == y && r.Width() == w && r.Height() == h
  {
    Rect(x, y, x + w - 1, y + h - 1)
  }

  datatype Shape = UNDEFINED | RECT | SQUARE | FIXED_RECT | ELLIPSE | CIRCLE | FIXED_ELLIPSE {
    predicate KeepsSquare() {
      SQUARE? || CIRCLE?
    }

    predicate Free() {
      RECT? || ELLIPSE?
    }

    /** The comparison `>= FIXED_RECT` on the enumeration's values. */
    predicate AtLeastFixedRect() {
      FIXED_RECT? || ELLIPSE? || CIRCLE? || FIXED_ELLIPSE?
    }
  }

  datatype Zone =
    | OUTSIDE | INSIDE
    | TOP_LEFT | TOP | TOP_RIGHT | RIGHT | BOTTOM_RIGHT | BOTTOM | BOTTOM_LEFT | LEFT
  {
    /** Which vertical edge the zone drags: -1 the left one, 1 the right one, 0 none. */
    function H(): (d: int) {
      if TOP_LEFT? || LEFT? || BOTTOM_LEFT? then -1 else if TOP_RIGHT? || RIGHT? || BOTTOM_RIGHT? then 1 else 0
    }

    /** Which horizontal edge the zone drags: -1 the top one, 1 the bottom one, 0 none. */
    function V(): (d: int) {
      if TOP_LEFT? || TOP? || TOP_RIGHT? then -1 else if BOTTOM_LEFT? || BOTTOM? || BOTTOM_RIGHT? then 1 else 0
    }

    predicate Corner() {
      H() != 0 && V() != 0
    }

    /** The sides dragged by the mouse's offset instead of to its position. */
    predicate ByOffset() {
      BOTTOM? || TOP? || LEFT?
    }
  }

  predicate Near(p: Point, q: Point, dragSquareEdge: int)
  {
    && (if p.x >= q.x then p.x - q.x else q.x - p.x) * 2 <= dragSquareEdge
    && (if p.y >= q.y then p.y - q.y else q.y - p.y) * 2 <= dragSquareEdge
  }

  function ZoneAt(crop: Rect, p: Point, e: int): (z: Zone)
  {
    var c := crop.Center();
    if Near(p, Point(crop.right, c.y), e) then RIGHT
    else if Near(p, Point(crop.right, crop.bottom), e) then BOTTOM_RIGHT
    else if Near(p, Point(c.x, crop.bottom), e) then BOTTOM
    else if Near(p, Point(crop.left, crop.bottom), e) then BOTTOM_LEFT
    else if Near(p, Point(crop.left, c.y), e) then LEFT
    else if Near(p, Point(crop.left, crop.top), e) then TOP_LEFT
    else if Near(p, Point(c.x, crop.top), e) then TOP
    else if Near(p, Point(crop.right, crop.top), e) then TOP_RIGHT
    else if crop.ContainsProperly(p) then INSIDE
    else OUTSIDE
  }

  // ----- the effect of a drag -----

  /** Distance from the edge that stays to `x`, counted in the direction of the drag. */
  function SpanX(crop: Rect, h: int, x: int): (d: int)
  {
    if h == 1 then x - crop.left else crop.right - x
  }

  function SpanY(crop: Rect, v: int, y: int): (d: int)
  {
    if v == 1 then y - crop.top else crop.bottom - y
  }

  function WithX(crop: Rect, h: int, x: int): (r: Rect)
  {
    if h == 1 then crop.(right := x) else crop.(left := x)
  }

  function WithY(crop: Rect, v: int, y: int): (r: Rect)
  {
    if v == 1 then crop.(bottom := y) else crop.(top := y)
  }

  /** A corner of a free rectangle: each edge follows the mouse if the minimum allows. */
  function FreeCorner(crop: Rect, z: Zone, p: Point, minW: int, minH: int): (r: Rect)
  {
    var wide := if SpanX(crop, z.H(), p.x) >= minW then WithX(crop, z.H(), p.x) else crop;
    if SpanY(crop, z.V(), p.y) >= minH then WithY(wide, z.V(), p.y) else wide
  }

  /** The corner of a square in directions `h` and `v`: the opposite corner stays, the dragged one moves along the
      diagonal by the larger span, provided both spans reach their minimum and it lands inside the image. */
  function SquareCorner(crop: Rect, image: Rect, h: int, v: int, p: Point, minW: int, minH: int): (r: Rect)
  {
    var spanX, spanY := SpanX(crop, h, p.x), SpanY(crop, v, p.y);
    var d := if spanX > spanY then spanX else spanY;
    var corner := Point(if h == 1 then crop.left + d else crop.right - d,
                        if v == 1 then crop.top + d else crop.bottom - d);
    if spanX >= minW && spanY >= minH && image.Contains(corner)
    then WithY(WithX(crop, h, corner.x), v, corner.y)
    else crop
  }

  /** A side of a free rectangle.  RIGHT goes to the mouse; the others move by its offset.  LEFT is compared with
      the minimum height. */
  function FreeSide(crop: Rect, z: Zone, p: Point, dx: int, dy: int, minW: int, minH: int): (r: Rect)
  {
    match z
    case RIGHT => if SpanX(crop, 1, p.x) >= minW then crop.(right := p.x) else crop
    case LEFT => if SpanX(crop, -1, p.x) >= minH then crop.(left := crop.left + dx) else crop
    case BOTTOM => if SpanY(crop, 1, p.y) >= minH then crop.(bottom := crop.bottom + dy) else crop
    case TOP => if SpanY(crop, -1, p.y) >= minH then crop.(top := crop.top + dy) else crop
    case _ => crop
  }

  /** One coordinate of a shift: kept only if the interval stays inside [lo, hi] on the side it moves to. */
  function ClampShift(from: int, to: int, lo: int, hi: int, d: int): (r: int)
  {
    if (d > 0 && to + d > hi) || (d < 0 && from + d < lo) then 0 else d
  }

  function Shifted(crop: Rect, image: Rect, dx: int, dy: int): (r: Rect)
  {
    var x := ClampShift(crop.left, crop.right, image.left, image.right, dx);
    var y := ClampShift(crop.top, crop.bottom, image.top, image.bottom, dy);
    Rect(crop.left + x, crop.top + y, crop.right + x, crop.bottom + y)
  }

  /** The crop rectangle after the mouse, dragging in zone `z`, moved by (dx, dy) to `p`. */
  function Dragged(shape: Shape, z: Zone, crop: Rect, image: Rect, p: Point, dx: int, dy: int,
                   minW: int, minH: int): (r: Rect)
  {
    if z == INSIDE then Shifted(crop, image, dx, dy)
    else if z.Corner() && shape.KeepsSquare() then SquareCorner(crop, image, z.H(), z.V(), p, minW, minH)
    else if z.Corner() && (shape.Free() || (z == BOTTOM_LEFT && shape != UNDEFINED)) then
      FreeCorner(crop, z, p, minW, minH)
    else if shape.Free() then FreeSide(crop, z, p, dx, dy, minW, minH)
    else crop
  }

  // ----- properties of one drag -----

  lemma SquareCornerSafe(crop: Rect, image: Rect, h: int, v: int, p: Point, minW: int, minH: int)
    requires h in {-1, 1} && v in {-1, 1} && crop.Square() && crop.Within(image) && image.Proper()
    ensures var r := SquareCorner(crop, image, h, v, p, minW, minH);
            && r.Square() && r.Within(image)
            && (r != crop ==> r.right - r.left >= minW && r.right - r.left >= minH)
  {
  }

  /** Squares stay squares inside the image, and a resized one spans at least both minimums. */
  lemma SquareDragSafe(shape: Shape, z: Zone, crop: Rect, image: Rect, p: Point, dx: int, dy: int,
                       minW: int, minH: int)
    requires shape.KeepsSquare() && crop.Square() && crop.Within(image) && image.Proper()
    ensures var r := Dragged(shape, z, crop, image, p, dx, dy, minW, minH);
            && r.Square() && r.Within(image)
            && (r.Width() != crop.Width() ==> r.right - r.left >= minW && r.right - r.left >= minH)
  {
    if z.Corner() {
      SquareCornerSafe(crop, image, z.H(), z.V(), p, minW, minH);
    }
  }

  /** The edge that leaves the image when a side is dragged by an offset. */
  predicate Escapes(z: Zone, crop: Rect, image: Rect, p: Point, dx: int, dy: int, minH: int)
  {
    || (z == BOTTOM && SpanY(crop, 1, p.y) >= minH && crop.bottom + dy > image.bottom)
    || (z == TOP && SpanY(crop, -1, p.y) >= minH && crop.top + dy < image.top)
    || (z == LEFT && SpanX(crop, -1, p.x) >= minH && crop.left + dx < image.left)
  }

  lemma FreeCornerWithin(crop: Rect, image: Rect, z: Zone, p: Point, minW: int, minH: int)
    requires z.Corner() && crop.Within(image) && image.Proper() && image.Contains(p)
    ensures FreeCorner(crop, z, p, minW, minH).Within(image)
  {
  }

  /** Free rectangles stay inside the image exactly when no offset-dragged side is pushed out of it; in particular
      corner, RIGHT and INSIDE drags always keep containment. */
  lemma FreeDragContainedIff(shape: Shape, z: Zone, crop: Rect, image: Rect, p: Point, dx: int, dy: int,
                             minW: int, minH: int)
    requires shape.Free() && crop.Within(image) && image.Proper() && image.Contains(p)
    ensures Dragged(shape, z, crop, image, p, dx, dy, minW, minH).Within(image)
       <==> !Escapes(z, crop, image, p, dx, dy, minH)
  {
    if z.Corner() {
      FreeCornerWithin(crop, image, z, p, minW, minH);
    }
  }

  /** Drags to the mouse and shifts never turn a rectangle inside out, for minimums from -1. */
  lemma FreeDragProper(shape: Shape, z: Zone, crop: Rect, image: Rect, p: Point, dx: int, dy: int,
                       minW: int, minH: int)
    requires shape.Free() && crop.Proper() && !z.ByOffset() && minW >= -1 && minH >= -1
    ensures Dragged(shape, z, crop, image, p, dx, dy, minW, minH).Proper()
  {
  }
}
