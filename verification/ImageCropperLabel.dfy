/** `ImageCropperLabel` without painting: where the image and the crop rectangle are, how the mouse moves the crop
    rectangle, and which part of the original image it stands for. */
module ImageCropper {
  import opened Integers
  import opened CropGeometry

  /** The label's state.  `scaledRate` is the exact ratio num / den. */
  datatype Cropper = Cropper(
    labelW: int, labelH: int, origW: int, origH: int, tempW: int, tempH: int, num: int, den: int,
    image: Rect, crop: Rect, fixedW: int, fixedH: int,
    shape: Shape, minW: int, minH: int, dragSquareEdge: int,
    pressed: bool, zoneKnown: bool, zone: Zone, last: Point, cur: Point)
  {
    /** The image shown is no larger than the original scaled, and lies in the label as placed. */
    predicate Placed() {
      && num > 0 && den > 0 && origW > 0 && origH > 0
      && image.Proper()
      && image.Width() * den <= origW * num
      && image.Height() * den <= origH * num
    }
  }

  // ----- specification of the events -----

  datatype Event = Press(p: Point) | Move(p: Point) | Release

  function ZoneFor(c: Cropper, p: Point): (z: Zone)
  {
    if c.zoneKnown then c.zone else ZoneAt(c.crop, p, c.dragSquareEdge)
  }

  function AfterMove(c: Cropper, p: Point): (r: Cropper)
  {
    var z := ZoneFor(c, p);
    if !c.pressed || !c.image.Contains(p) then c.(cur := p, zone := z)
    else
      var crop := Dragged(c.shape, z, c.crop, c.image, p, p.x - c.last.x, p.y - c.last.y, c.minW, c.minH);
      c.(cur := p, last := p, zone := z, zoneKnown := true, crop := crop)
  }

  function After(c: Cropper, e: Event): (r: Cropper)
  {
    match e
    case Press(p) => c.(cur := p, last := p, pressed := true)
    case Move(p) => AfterMove(c, p)
    case Release => c.(pressed := false, zoneKnown := false)
  }

  function AfterAll(c: Cropper, es: seq<Event>): (r: Cropper)
    decreases |es|
  {
    if es == [] then c else AfterAll(After(c, es[0]), es[1..])
  }

  // ----- specification of the placement -----

  /** The image keeps its aspect ratio and touches two sides of the label, whichever it fills first; the ratio
      num / den is the one of that side. */
  predicate PlacedAs(labelW: int, labelH: int, imgW: int, imgH: int, num: int, den: int, image: Rect)
    requires imgW > 0 && imgH > 0
  {
    if imgW * labelH < imgH * labelW
    then num == labelH && den == imgH
         && image == RectOfSize(TruncDiv(labelW - labelH * imgW / imgH, 2), 0, labelH * imgW / imgH, labelH)
    else num == labelW && den == imgW
         && image == RectOfSize(0, TruncDiv(labelH - labelW * imgH / imgW, 2), labelW, labelW * imgH / imgW)
  }

  predicate PlacedBy(c: Cropper, imgW: int, imgH: int)
    requires imgW > 0 && imgH > 0
  {
    c.origW == imgW && c.origH == imgH && PlacedAs(c.labelW, c.labelH, imgW, imgH, c.num, c.den, c.image)
  }

  /** The crop rectangle is put back in the middle of the label: for free and square shapes with an edge of three
      quarters of the shorter side shown, for fixed shapes with the fixed size scaled. */
  predicate CropReset(c: Cropper, before: Rect)
    requires c.den > 0
  {
    match c.shape
    case UNDEFINED => c.crop == before
    case FIXED_RECT | FIXED_ELLIPSE =>
      c.crop == Centered(c.labelW, c.labelH, TruncDiv(c.fixedW * c.num, c.den), TruncDiv(c.fixedH * c.num, c.den))
    case _ =>
      c.crop == Centered(c.labelW, c.labelH, DefaultEdge(c.tempW, c.tempH), DefaultEdge(c.tempW, c.tempH))
  }

  function DefaultEdge(w: int, h: int): (edge: int)
  {
    TruncDiv((if w > h then h else w) * 3, 4)
  }

  function Centered(labelW: int, labelH: int, w: int, h: int): (r: Rect)
  {
    RectOfSize(TruncDiv(labelW - w, 2), TruncDiv(labelH - h, 2), w, h)
  }

  class ImageCropperLabel {
    const labelW: int
    const labelH: int
    var origW: int
    var origH: int
    var tempW: int
    var tempH: int
    var rateNum: int
    var rateDen: int
    var imageRect: Rect
    var cropperRect: Rect
    var fixedW: int               // size of cropperRect_
    var fixedH: int
    var cropperShape: Shape
    var cropperMinimumWidth: int
    var cropperMinimumHeight: int
    var dragSquareEdge: int
    var isLButtonPressed: bool
    var isCursorPosCalculated: bool
    var cursorPosInCropperRect: Zone
    var lastPos: Point
    var currPos: Point

    ghost function View(): (c: Cropper)
      reads this
    {
      Cropper(labelW, labelH, origW, origH, tempW, tempH, rateNum, rateDen, imageRect, cropperRect, fixedW, fixedH,
              cropperShape, cropperMinimumWidth, cropperMinimumHeight, dragSquareEdge,
              isLButtonPressed, isCursorPosCalculated, cursorPosInCropperRect, lastPos, currPos)
    }

    constructor (width: int, height: int)
      ensures labelW == width && labelH == height && cropperShape == UNDEFINED && dragSquareEdge == 8
      ensures rateNum == 1 && rateDen == 1 && !isLButtonPressed && !isCursorPosCalculated
      ensures cropperMinimumWidth == 16 && cropperMinimumHeight == 16
    {
      labelW, labelH := width, height;
      origW, origH, tempW, tempH := 0, 0, 0, 0;
      rateNum, rateDen := 1, 1;
      imageRect, cropperRect := Rect(0, 0, -1, -1), Rect(0, 0, -1, -1);
      fixedW, fixedH := 0, 0;
      cropperShape := UNDEFINED;
      dragSquareEdge := 8;
      cropperMinimumWidth, cropperMinimumHeight := 16, 16;
      isLButtonPressed, isCursorPosCalculated := false, false;
      cursorPosInCropperRect := OUTSIDE;
      lastPos, currPos := Point(0, 0), Point(0, 0);
    }

    method SetCropper(shape: Shape, w: int, h: int)
      requires rateDen > 0
      modifies this`cropperShape, this`fixedW, this`fixedH, this`cropperRect
      ensures cropperShape == shape && fixedW == w && fixedH == h
      ensures CropReset(View(), old(cropperRect))
    {
      cropperShape := shape;
      fixedW, fixedH := w, h;
      ResetCropperPos();
    }

    method SetCropperMinimumSize(minWidth: int, minHeight: int)
      modifies this`cropperMinimumWidth, this`cropperMinimumHeight
      ensures View() == old(View()).(minW := minWidth, minH := minHeight)
    {
      cropperMinimumWidth := minWidth;
      cropperMinimumHeight := minHeight;
    }

    /** `scaledW` and `scaledH` are the size Qt's scaled() returned, never more than it was asked for. */
    method SetOriginalImage(imgWidth: int, imgHeight: int, scaledW: int, scaledH: int)
      requires imgWidth > 0 && imgHeight > 0 && labelW > 0 && labelH > 0
      modifies this`origW, this`origH, this`tempW, this`tempH, this`rateNum, this`rateDen
      modifies this`imageRect, this`cropperRect
      ensures PlacedBy(View(), imgWidth, imgHeight)
      ensures tempW == scaledW && tempH == scaledH && rateDen > 0
      ensures cropperShape != UNDEFINED ==> CropReset(View(), cropperRect)
      ensures cropperShape == UNDEFINED ==> cropperRect == old(cropperRect)
    {
      origW, origH := imgWidth, imgHeight;
      PlaceImage(imgWidth, imgHeight);
      tempW, tempH := scaledW, scaledH;
      if cropperShape.AtLeastFixedRect() {
        ScaleFixed();
      }
      ResetCropperPos();
    }

    method PlaceImage(imgWidth: int, imgHeight: int)
      requires imgWidth > 0 && imgHeight > 0 && labelW > 0 && labelH > 0
      modifies this`rateNum, this`rateDen, this`imageRect
      ensures PlacedAs(labelW, labelH, imgWidth, imgHeight, rateNum, rateDen, imageRect)
      ensures rateNum > 0 && rateDen > 0
    {
      var imgWidthInLabel, imgHeightInLabel;
      if imgWidth * labelH < imgHeight * labelW {
        rateNum, rateDen := labelH, imgHeight;
        imgHeightInLabel := labelH;
        ScaledNat(imgWidth);
        imgWidthInLabel := Scaled(imgWidth);
        imageRect := RectOfSize(TruncDiv(labelW - imgWidthInLabel, 2), 0, imgWidthInLabel, imgHeightInLabel);
      } else {
        rateNum, rateDen := labelW, imgWidth;
        imgWidthInLabel := labelW;
        ScaledNat(imgHeight);
        imgHeightInLabel := Scaled(imgHeight);
        imageRect := RectOfSize(0, TruncDiv(labelH - imgHeightInLabel, 2), imgWidthInLabel, imgHeightInLabel);
      }
    }

    lemma ScaledNat(n: int)
      requires n > 0 && rateNum > 0 && rateDen > 0
      ensures Scaled(n) == rateNum * n / rateDen
    {
      assert n * rateNum == rateNum * n >= 0;
    }

    /** `int(n * scaledRate)`. */
    function Scaled(n: int): (r: int)
      requires rateDen > 0
      reads this`rateNum, this`rateDen
    {
      TruncDiv(n * rateNum, rateDen)
    }

    /** The crop rectangle takes the fixed size, scaled; its top left corner stays. */
    method ScaleFixed()
      requires rateDen > 0
      modifies this`cropperRect
      ensures cropperRect == RectOfSize(old(cropperRect.left), old(cropperRect.top), Scaled(fixedW), Scaled(fixedH))
    {
      cropperRect := cropperRect.(right := cropperRect.left + Scaled(fixedW) - 1);
      cropperRect := cropperRect.(bottom := cropperRect.top + Scaled(fixedH) - 1);
    }

    method ResetCropperPos()
      requires rateDen > 0
      modifies this`cropperRect
      ensures cropperShape == UNDEFINED ==> cropperRect == old(cropperRect)
      ensures cropperShape == FIXED_RECT || cropperShape == FIXED_ELLIPSE ==>
                cropperRect == Centered(labelW, labelH, Scaled(fixedW), Scaled(fixedH))
      ensures cropperShape.Free() || cropperShape.KeepsSquare() ==>
                cropperRect == Centered(labelW, labelH, DefaultEdge(tempW, tempH), DefaultEdge(tempW, tempH))
    {
      if cropperShape == FIXED_RECT || cropperShape == FIXED_ELLIPSE {
        ScaleFixed();
      }
      match cropperShape
      case UNDEFINED =>
      case FIXED_RECT | FIXED_ELLIPSE =>
        CenterCrop(cropperRect.Width(), cropperRect.Height());
      case RECT | SQUARE | ELLIPSE | CIRCLE =>
        var edge := TruncDiv((if tempW > tempH then tempH else tempW) * 3, 4);
        CenterCrop(edge, edge);
    }

    method CenterCrop(w: int, h: int)
      modifies this`cropperRect
      ensures cropperRect == Centered(labelW, labelH, w, h)
    {
      cropperRect := RectOfSize(TruncDiv(labelW - w, 2), TruncDiv(labelH - h, 2), w, h);
    }

    method MousePressEvent(p: Point)
      modifies this`currPos, this`lastPos, this`isLButtonPressed
      ensures View() == After(old(View()), Press(p))
    {
      currPos, lastPos := p, p;
      isLButtonPressed := true;
    }

    method MouseReleaseEvent()
      modifies this`isLButtonPressed, this`isCursorPosCalculated
      ensures View() == After(old(View()), Release)
    {
      isLButtonPressed := false;
      isCursorPosCalculated := false;
    }

    method MouseMoveEvent(p: Point)
      requires imageRect.Proper()
      modifies this`currPos, this`lastPos, this`cursorPosInCropperRect, this`isCursorPosCalculated, this`cropperRect
      ensures View() == After(old(View()), Move(p))
    {
      UpdateZone(p);
      if !isLButtonPressed {
        return;
      }
      if !imageRect.Contains(currPos) {
        return;
      }
      isCursorPosCalculated := true;
      var xOffset := currPos.x - lastPos.x;
      var yOffset := currPos.y - lastPos.y;
      lastPos := currPos;
      DragZone(xOffset, yOffset);
    }

    method UpdateZone(p: Point)
      modifies this`currPos, this`cursorPosInCropperRect
      ensures currPos == p && cursorPosInCropperRect == ZoneFor(old(View()), p)
    {
      currPos := p;
      if !isCursorPosCalculated {
        cursorPosInCropperRect := ZoneAt(cropperRect, currPos, dragSquareEdge);
      }
    }

    /** The switch over the zones; each case is a method of its own below. */
    method DragZone(xOffset: int, yOffset: int)
      requires imageRect.Proper() && imageRect.Contains(currPos)
      modifies this`cropperRect
      ensures cropperRect == old(Target(cursorPosInCropperRect, xOffset, yOffset))
    {
      match cursorPosInCropperRect
      case OUTSIDE =>
      case BOTTOM_RIGHT => DragBottomRight(xOffset, yOffset);
      case RIGHT => DragRight(xOffset, yOffset);
      case BOTTOM => DragBottom(xOffset, yOffset);
      case BOTTOM_LEFT => DragBottomLeft(xOffset, yOffset);
      case LEFT => DragLeft(xOffset, yOffset);
      case TOP_LEFT => DragTopLeft(xOffset, yOffset);
      case TOP => DragTop(xOffset, yOffset);
      case TOP_RIGHT => DragTopRight(xOffset, yOffset);
      case INSIDE => DragInside(xOffset, yOffset);
    }

    ghost function Target(z: Zone, dx: int, dy: int): (r: Rect)
      reads this
    {
      Dragged(cropperShape, z, cropperRect, imageRect, currPos, dx, dy, cropperMinimumWidth, cropperMinimumHeight)
    }

    method DragBottomRight(xOffset: int, yOffset: int)
      requires imageRect.Proper() && imageRect.Contains(currPos)
      modifies this`cropperRect
      ensures cropperRect == old(Target(BOTTOM_RIGHT, xOffset, yOffset))
    {
      var disX := currPos.x - cropperRect.left;
      var disY := currPos.y - cropperRect.top;
      match cropperShape
      case UNDEFINED | FIXED_RECT | FIXED_ELLIPSE =>
      case SQUARE | CIRCLE =>
        if disX >= cropperMinimumWidth && disY >= cropperMinimumHeight {
          if disX > disY && cropperRect.top + disX <= imageRect.bottom {
            cropperRect := cropperRect.(right := currPos.x);
            cropperRect := cropperRect.(bottom := cropperRect.top + disX);
          } else if disX <= disY && cropperRect.left + disY <= imageRect.right {
            cropperRect := cropperRect.(bottom := currPos.y);
            cropperRect := cropperRect.(right := cropperRect.left + disY);
          }
        }
      case RECT | ELLIPSE =>
        if disX >= cropperMinimumWidth {
          cropperRect := cropperRect.(right := currPos.x);
        }
        if disY >= cropperMinimumHeight {
          cropperRect := cropperRect.(bottom := currPos.y);
        }
    }

    method DragRight(xOffset: int, yOffset: int)
      requires imageRect.Proper() && imageRect.Contains(currPos)
      modifies this`cropperRect
      ensures cropperRect == old(Target(RIGHT, xOffset, yOffset))
    {
      var disX := currPos.x - cropperRect.left;
      match cropperShape
      case UNDEFINED | FIXED_RECT | FIXED_ELLIPSE | SQUARE | CIRCLE =>
      case RECT | ELLIPSE =>
        if disX >= cropperMinimumWidth {
          cropperRect := cropperRect.(right := currPos.x);
        }
    }

    method DragBottom(xOffset: int, yOffset: int)
      requires imageRect.Proper() && imageRect.Contains(currPos)
      modifies this`cropperRect
      ensures cropperRect == old(Target(BOTTOM, xOffset, yOffset))
    {
      var disY := currPos.y - cropperRect.top;
      match cropperShape
      case UNDEFINED | FIXED_RECT | FIXED_ELLIPSE | SQUARE | CIRCLE =>
      case RECT | ELLIPSE =>
        if disY >= cropperMinimumHeight {
          cropperRect := cropperRect.(bottom := cropperRect.bottom + yOffset);
        }
    }

    method DragBottomLeft(xOffset: int, yOffset: int)
      requires imageRect.Proper() && imageRect.Contains(currPos)
      modifies this`cropperRect
      ensures cropperRect == old(Target(BOTTOM_LEFT, xOffset, yOffset))
    {
      var disX := cropperRect.right - currPos.x;
      var disY := currPos.y - cropperRect.top;
      match cropperShape
      case UNDEFINED =>
      case FIXED_RECT | FIXED_ELLIPSE | RECT | ELLIPSE =>
        if disX >= cropperMinimumWidth {
          cropperRect := cropperRect.(left := currPos.x);
        }
        if disY >= cropperMinimumHeight {
          cropperRect := cropperRect.(bottom := currPos.y);
        }
      case SQUARE | CIRCLE =>
        if disX >= cropperMinimumWidth && disY >= cropperMinimumHeight {
          if disX > disY && cropperRect.top + disX <= imageRect.bottom {
            cropperRect := cropperRect.(left := currPos.x);
            cropperRect := cropperRect.(bottom := cropperRect.top + disX);
          } else if disX <= disY && cropperRect.right - disY >= imageRect.left {
            cropperRect := cropperRect.(bottom := currPos.y);
            cropperRect := cropperRect.(left := cropperRect.right - disY);
          }
        }
    }

    method DragLeft(xOffset: int, yOffset: int)
      requires imageRect.Proper() && imageRect.Contains(currPos)
      modifies this`cropperRect
      ensures cropperRect == old(Target(LEFT, xOffset, yOffset))
    {
      var disX := cropperRect.right - currPos.x;
      match cropperShape
      case UNDEFINED | FIXED_RECT | FIXED_ELLIPSE | SQUARE | CIRCLE =>
      case RECT | ELLIPSE =>
        if disX >= cropperMinimumHeight {
          cropperRect := cropperRect.(left := cropperRect.left + xOffset);
        }
    }

    method DragTopLeft(xOffset: int, yOffset: int)
      requires imageRect.Proper() && imageRect.Contains(currPos)
      modifies this`cropperRect
      ensures cropperRect == old(Target(TOP_LEFT, xOffset, yOffset))
    {
      var disX := cropperRect.right - currPos.x;
      var disY := cropperRect.bottom - currPos.y;
      match cropperShape
      case UNDEFINED | FIXED_RECT | FIXED_ELLIPSE =>
      case RECT | ELLIPSE =>
        if disX >= cropperMinimumWidth {
          cropperRect := cropperRect.(left := currPos.x);
        }
        if disY >= cropperMinimumHeight {
          cropperRect := cropperRect.(top := currPos.y);
        }
      case SQUARE | CIRCLE =>
        if disX >= cropperMinimumWidth && disY >= cropperMinimumHeight {
          if disX > disY && cropperRect.bottom - disX >= imageRect.top {
            cropperRect := cropperRect.(left := currPos.x);
            cropperRect := cropperRect.(top := cropperRect.bottom - disX);
          } else if disX <= disY && cropperRect.right - disY >= imageRect.left {
            cropperRect := cropperRect.(top := currPos.y);
            cropperRect := cropperRect.(left := cropperRect.right - disY);
          }
        }
    }

    method DragTop(xOffset: int, yOffset: int)
      requires imageRect.Proper() && imageRect.Contains(currPos)
      modifies this`cropperRect
      ensures cropperRect == old(Target(TOP, xOffset, yOffset))
    {
      var disY := cropperRect.bottom - currPos.y;
      match cropperShape
      case UNDEFINED | FIXED_RECT | FIXED_ELLIPSE | SQUARE | CIRCLE =>
      case RECT | ELLIPSE =>
        if disY >= cropperMinimumHeight {
          cropperRect := cropperRect.(top := cropperRect.top + yOffset);
        }
    }

    method DragTopRight(xOffset: int, yOffset: int)
      requires imageRect.Proper() && imageRect.Contains(currPos)
      modifies this`cropperRect
      ensures cropperRect == old(Target(TOP_RIGHT, xOffset, yOffset))
    {
      var disX := currPos.x - cropperRect.left;
      var disY := cropperRect.bottom - currPos.y;
      match cropperShape
      case UNDEFINED | FIXED_RECT | FIXED_ELLIPSE =>
      case RECT | ELLIPSE =>
        if disX >= cropperMinimumWidth {
          cropperRect := cropperRect.(right := currPos.x);
        }
        if disY >= cropperMinimumHeight {
          cropperRect := cropperRect.(top := currPos.y);
        }
      case SQUARE | CIRCLE =>
        if disX >= cropperMinimumWidth && disY >= cropperMinimumHeight {
          if disX < disY && cropperRect.left + disY <= imageRect.right {
            cropperRect := cropperRect.(top := currPos.y);
            cropperRect := cropperRect.(right := cropperRect.left + disY);
          } else if disX >= disY && cropperRect.bottom - disX >= imageRect.top {
            cropperRect := cropperRect.(right := currPos.x);
            cropperRect := cropperRect.(top := cropperRect.bottom - disX);
          }
        }
    }

    method DragInside(xOffset: int, yOffset: int)
      modifies this`cropperRect
      ensures cropperRect == old(Target(INSIDE, xOffset, yOffset))
    {
      var dx, dy := xOffset, yOffset;
      if dx > 0 {
        if cropperRect.right + dx > imageRect.right {
          dx := 0;
        }
      } else if dx < 0 {
        if cropperRect.left + dx < imageRect.left {
          dx := 0;
        }
      }
      if dy > 0 {
        if cropperRect.bottom + dy > imageRect.bottom {
          dy := 0;
        }
      } else if dy < 0 {
        if cropperRect.top + dy < imageRect.top {
          dy := 0;
        }
      }
      MoveTo(cropperRect.left + dx, cropperRect.top + dy);
    }

    method MoveTo(x: int, y: int)
      modifies this`cropperRect
      ensures cropperRect == RectOfSize(x, y, old(cropperRect.Width()), old(cropperRect.Height()))
    {
      cropperRect := Rect(x, y, cropperRect.right + x - cropperRect.left, cropperRect.bottom + y - cropperRect.top);
    }

    /** The part of the original image that is copied: position and size, each truncated. */
    function GetCroppedImage(): (r: Rect)
      reads this
      requires rateNum > 0
      ensures r == Projected(View())
    {
      RectOfSize(Unscaled(cropperRect.left - imageRect.left), Unscaled(cropperRect.top - imageRect.top),
                 Unscaled(cropperRect.Width()), Unscaled(cropperRect.Height()))
    }

    /** `int(n / scaledRate)`. */
    function Unscaled(n: int): (r: int)
      requires rateNum > 0
      reads this`rateNum, this`rateDen
    {
      TruncDiv(n * rateDen, rateNum)
    }
  }

  // ----- back-projection -----

  function Projected(c: Cropper): (r: Rect)
    requires c.num > 0
  {
    RectOfSize(TruncDiv((c.crop.left - c.image.left) * c.den, c.num),
               TruncDiv((c.crop.top - c.image.top) * c.den, c.num),
               TruncDiv(c.crop.Width() * c.den, c.num), TruncDiv(c.crop.Height() * c.den, c.num))
  }

  /** The whole original image. */
  function Original(c: Cropper): (r: Rect)
  {
    RectOfSize(0, 0, c.origW, c.origH)
  }

  lemma MulStrict(x: int, y: int, n: int)
    requires n > 0
    ensures x > y ==> x * n >= y * n + n
  {
    assert x * n == y * n + (x - y) * n;
    if x > y {
      MulAtLeast(x - y, n);
    }
  }

  lemma MulAtLeast(d: int, n: int)
    requires d >= 1 && n > 0
    ensures d * n >= n
  {
  }

  lemma FloorAtMost(a: int, n: int, q: int)
    requires n > 0 && a <= q * n
    ensures a / n <= q
  {
    MulStrict(a / n, q, n);
  }

  lemma FloorAtLeast(a: int, n: int, q: int)
    requires n > 0 && q * n <= a
    ensures q <= a / n
  {
    MulStrict(q, a / n, n);
  }

  lemma FloorsAdd(a: int, b: int, n: int)
    requires n > 0
    ensures a / n + b / n <= (a + b) / n
  {
    assert (a / n + b / n) * n == (a / n) * n + (b / n) * n;
    FloorAtLeast(a + b, n, a / n + b / n);
  }

  /** One axis: an interval [at, at + size) of the image shown goes back into [0, orig). */
  lemma BackProjectAxis(at: int, size: int, shown: int, orig: int, num: int, den: int)
    requires num > 0 && den > 0 && 0 <= at && 0 <= size && at + size <= shown && shown * den <= orig * num
    ensures 0 <= TruncDiv(at * den, num) && 0 <= TruncDiv(size * den, num)
    ensures TruncDiv(at * den, num) + TruncDiv(size * den, num) <= orig
  {
    var a, s := at * den, size * den;
    assert a >= 0 && s >= 0;
    assert a + s == (at + size) * den;
    MonotoneMul(at + size, shown, den);
    FloorsAdd(a, s, num);
    FloorAtMost(a + s, num, orig);
  }

  lemma MonotoneMul(x: int, y: int, n: int)
    requires x <= y && n > 0
    ensures x * n <= y * n
  {
    assert y * n - x * n == (y - x) * n;
  }

  /** `q` is the number of whole original pixels in `n` pixels of the image shown. */
  predicate WholePixels(n: int, num: int, den: int, q: int)
  {
    q * num <= n * den < (q + 1) * num
  }

  /** Position and size of `r` are those of the crop rectangle in the image, in whole original pixels. */
  predicate Copies(c: Cropper, r: Rect)
  {
    && WholePixels(c.crop.left - c.image.left, c.num, c.den, r.left)
    && WholePixels(c.crop.top - c.image.top, c.num, c.den, r.top)
    && WholePixels(c.crop.Width(), c.num, c.den, r.Width())
    && WholePixels(c.crop.Height(), c.num, c.den, r.Height())
  }

  lemma FloorIsWhole(n: int, num: int, den: int)
    requires n >= 0 && num > 0 && den > 0
    ensures WholePixels(n, num, den, TruncDiv(n * den, num))
  {
    var a := n * den;
    assert a >= 0;
    assert (a / num) * num + a % num == a;
    assert (a / num + 1) * num == (a / num) * num + num;
  }

  /** A crop rectangle inside the image shown stands for a part of the original that is inside the original, and is
      where and as large as the crop rectangle is in the image. */
  lemma BackProjection(c: Cropper)
    requires c.Placed() && c.crop.Within(c.image) && c.crop.Proper()
    ensures Projected(c).Within(Original(c)) && Projected(c).Proper() && Copies(c, Projected(c))
    ensures c.crop.Square() ==> Projected(c).Square()
  {
    BackProjectAxis(c.crop.left - c.image.left, c.crop.Width(), c.image.Width(), c.origW, c.num, c.den);
    BackProjectAxis(c.crop.top - c.image.top, c.crop.Height(), c.image.Height(), c.origH, c.num, c.den);
    FloorIsWhole(c.crop.left - c.image.left, c.num, c.den);
    FloorIsWhole(c.crop.top - c.image.top, c.num, c.den);
    FloorIsWhole(c.crop.Width(), c.num, c.den);
    FloorIsWhole(c.crop.Height(), c.num, c.den);
  }

  /** How far, in the scale of `num` to an original pixel, `q` pixels fall short of `n` pixels of the image shown. */
  function Short(n: int, num: int, den: int, q: int): (d: int)
  {
    n * den - q * num
  }

  /** One axis of what is copied, scaled back: the near edge is less than one original pixel from the crop's, and the
      far edge less than two; less than one exactly if what both truncations cut off is less than one together. */
  lemma EdgesScaledBack(at: int, size: int, num: int, den: int, from: int, length: int)
    requires num > 0 && WholePixels(at, num, den, from) && WholePixels(size, num, den, length)
    ensures 0 <= Short(at, num, den, from) < num
    ensures 0 <= Short(at + size, num, den, from + length) < 2 * num
    ensures Short(at + size, num, den, from + length) < num
       <==> Short(at, num, den, from) + Short(size, num, den, length) < num
  {
    assert (from + 1) * num == from * num + num && (length + 1) * num == length * num + num;
    assert (at + size) * den == at * den + size * den;
    assert (from + length) * num == from * num + length * num;
  }

  /** What is copied, scaled back, against the crop rectangle: the left and top edges are less than one original pixel
      off, the right and bottom ones less than two. */
  lemma CopiedEdges(c: Cropper)
    requires c.Placed() && c.crop.Within(c.image) && c.crop.Proper()
    ensures var r := Projected(c);
            && 0 <= Short(c.crop.left - c.image.left, c.num, c.den, r.left) < c.num
            && 0 <= Short(c.crop.top - c.image.top, c.num, c.den, r.top) < c.num
            && 0 <= Short(c.crop.right + 1 - c.image.left, c.num, c.den, r.right + 1) < 2 * c.num
            && 0 <= Short(c.crop.bottom + 1 - c.image.top, c.num, c.den, r.bottom + 1) < 2 * c.num
  {
    BackProjection(c);
    var r := Projected(c);
    EdgesScaledBack(c.crop.left - c.image.left, c.crop.Width(), c.num, c.den, r.left, r.Width());
    EdgesScaledBack(c.crop.top - c.image.top, c.crop.Height(), c.num, c.den, r.top, r.Height());
  }

  /** The far edge does miss by more than one: an original of 6 pixels shown on 10, with the crop from 3 to 6, copies
      from 1 to 2 where the crop ends past the middle of pixel 4. */
  lemma FarEdgeMisses(c: Cropper)
    requires c.num == 10 && c.den == 6 && c.origW == c.origH == 6
    requires c.image == Rect(0, 0, 9, 9) && c.crop == Rect(3, 3, 6, 6)
    ensures c.Placed() && Projected(c) == Rect(1, 1, 2, 2) && Short(7, 10, 6, 3) == 12 > c.num
  {
  }

  // ----- the placement -----

  lemma ScaledFits(num: int, orig: int, den: int)
    requires num > 0 && orig > 0 && den > 0
    ensures 0 <= num * orig / den && (num * orig / den) * den <= orig * num
  {
    assert num * orig >= 0;
  }

  /** One axis of the placement: `side` of the label is filled by `fill` of the image, and `orig` of the image,
      scaled alike, fits `room` of the label. */
  lemma FitsAcross(side: int, fill: int, orig: int, room: int)
    requires side > 0 && fill > 0 && orig > 0 && orig * side <= fill * room
    ensures var shown := side * orig / fill;
            0 <= shown <= room && shown * fill <= orig * side
  {
    ScaledFits(side, orig, fill);
    assert side * orig == orig * side;
    FloorAtMost(side * orig, fill, room);
  }

  /** Setting an image places it inside the label, centred, without enlarging it past the original's proportions. */
  lemma PlacementFits(c: Cropper, imgW: int, imgH: int)
    requires imgW > 0 && imgH > 0 && c.labelW > 0 && c.labelH > 0 && PlacedBy(c, imgW, imgH)
    ensures c.Placed() && c.image.Width() <= c.labelW && c.image.Height() <= c.labelH
    ensures c.image == Centered(c.labelW, c.labelH, c.image.Width(), c.image.Height())
    ensures c.image.Within(Rect(0, 0, c.labelW - 1, c.labelH - 1))
  {
    if imgW * c.labelH < imgH * c.labelW {
      FitsAcross(c.labelH, imgH, imgW, c.labelW);
      assert c.image.Width() == c.labelH * imgW / imgH;
      assert c.image.Height() * c.den == c.origH * c.num;
    } else {
      assert imgH * c.labelW == c.labelW * imgH;
      FitsAcross(c.labelW, imgW, imgH, c.labelH);
      assert c.image.Height() == c.labelW * imgH / imgW;
      assert c.image.Width() * c.den == c.origW * c.num;
    }
  }

  /** The image shown fills the label in one direction, and in each direction is as large as the original, scaled, in
      whole pixels; so it keeps the original's proportions to the pixel. */
  lemma PlacementExact(c: Cropper, imgW: int, imgH: int)
    requires imgW > 0 && imgH > 0 && c.labelW > 0 && c.labelH > 0 && PlacedBy(c, imgW, imgH)
    ensures WholePixels(imgW, c.den, c.num, c.image.Width()) && WholePixels(imgH, c.den, c.num, c.image.Height())
    ensures c.image.Width() == c.labelW || c.image.Height() == c.labelH
  {
    if imgW * c.labelH < imgH * c.labelW {
      assert c.labelH * imgW == imgW * c.num;
      FloorIsWhole(imgW, c.den, c.num);
      WholeItself(c.labelH, imgH);
    } else {
      assert c.labelW * imgH == imgH * c.num;
      FloorIsWhole(imgH, c.den, c.num);
      WholeItself(c.labelW, imgW);
    }
  }

  lemma WholeItself(n: int, k: int)
    requires k > 0
    ensures WholePixels(k, k, n, n)
  {
    assert (n + 1) * k == n * k + k;
  }

  /** How large the crop rectangle is put back: three quarters of the shorter side shown, rounded down, for free and
      square shapes, and the fixed size, scaled and rounded down, for fixed ones; in the middle to half a pixel. */
  lemma ResetExact(c: Cropper, before: Rect)
    requires c.num > 0 && c.den > 0 && CropReset(c, before) && c.shape != UNDEFINED
    ensures (c.shape.Free() || c.shape.KeepsSquare()) && c.tempW >= 0 && c.tempH >= 0 ==>
              && c.crop.Width() == c.crop.Height()
              && 4 * c.crop.Width() <= 3 * (if c.tempW <= c.tempH then c.tempW else c.tempH) < 4 * (c.crop.Width() + 1)
    ensures (c.shape == FIXED_RECT || c.shape == FIXED_ELLIPSE) && c.fixedW >= 0 && c.fixedH >= 0 ==>
              && WholePixels(c.fixedW, c.den, c.num, c.crop.Width())
              && WholePixels(c.fixedH, c.den, c.num, c.crop.Height())
    ensures -1 <= c.crop.left + c.crop.right + 1 - c.labelW <= 1 && -1 <= c.crop.top + c.crop.bottom + 1 - c.labelH <= 1
  {
    if (c.shape == FIXED_RECT || c.shape == FIXED_ELLIPSE) && c.fixedW >= 0 && c.fixedH >= 0 {
      FloorIsWhole(c.fixedW, c.den, c.num);
      FloorIsWhole(c.fixedH, c.den, c.num);
    }
  }

  /** Two rectangles centred in the label lie inside each other if their sizes do. */
  lemma CenteredWithin(labelW: int, labelH: int, w: int, h: int, w': int, h': int)
    requires 0 <= w <= w' <= labelW && 0 <= h <= h' <= labelH
    ensures Centered(labelW, labelH, w, h).Within(Centered(labelW, labelH, w', h'))
  {
  }

  /** After `setOriginalImage` the crop rectangle of a free or square shape is a square inside the image. */
  lemma ResetInside(c: Cropper, imgW: int, imgH: int)
    requires imgW > 0 && imgH > 0 && c.labelW > 0 && c.labelH > 0 && PlacedBy(c, imgW, imgH)
    requires c.shape.KeepsSquare() || c.shape.Free()
    requires 0 <= c.tempW <= c.image.Width() && 0 <= c.tempH <= c.image.Height()
    requires c.den > 0 && CropReset(c, c.crop)
    ensures c.crop.Square() && c.crop.Proper() && c.crop.Within(c.image)
  {
    PlacementFits(c, imgW, imgH);
    var edge := DefaultEdge(c.tempW, c.tempH);
    CenteredWithin(c.labelW, c.labelH, edge, edge, c.image.Width(), c.image.Height());
  }

  // ----- whole runs -----

  /** What every event keeps for the square shapes. */
  predicate SafeSquare(c: Cropper)
  {
    && c.shape.KeepsSquare() && c.Placed()
    && c.crop.Square() && c.crop.Proper() && c.crop.Within(c.image)
    && (c.minW >= 0 || c.minH >= 0)
  }

  lemma EventKeepsSafeSquare(c: Cropper, e: Event)
    requires SafeSquare(c)
    ensures SafeSquare(After(c, e))
    ensures var r := After(c, e);
            r.crop.Width() != c.crop.Width() ==>
              r.crop.right - r.crop.left >= c.minW && r.crop.right - r.crop.left >= c.minH
  {
    if e.Move? && c.pressed && c.image.Contains(e.p) {
      SquareDragSafe(c.shape, ZoneFor(c, e.p), c.crop, c.image, e.p, e.p.x - c.last.x, e.p.y - c.last.y,
                     c.minW, c.minH);
    }
  }

  lemma {:induction false} RunKeepsSafeSquare(c: Cropper, es: seq<Event>)
    requires SafeSquare(c)
    ensures SafeSquare(AfterAll(c, es))
    decreases |es|
  {
    if es == [] {
    } else {
      EventKeepsSafeSquare(c, es[0]);
      RunKeepsSafeSquare(After(c, es[0]), es[1..]);
    }
  }

  /** From `setOriginalImage` on, whatever the mouse does, the square shapes stay square inside the image and what
      `getCroppedImage` copies is a square part of the original. */
  lemma CropSafety(c: Cropper, imgW: int, imgH: int, es: seq<Event>)
    requires imgW > 0 && imgH > 0 && c.labelW > 0 && c.labelH > 0 && PlacedBy(c, imgW, imgH)
    requires c.shape.KeepsSquare() && c.den > 0 && CropReset(c, c.crop) && (c.minW >= 0 || c.minH >= 0)
    requires 0 <= c.tempW <= c.image.Width() && 0 <= c.tempH <= c.image.Height()
    ensures var r := AfterAll(c, es);
            && r.crop.Square() && r.crop.Within(c.image) && r.num > 0
            && Projected(r).Square() && Projected(r).Within(Rect(0, 0, imgW - 1, imgH - 1)) && Copies(r, Projected(r))
  {
    PlacementFits(c, imgW, imgH);
    ResetInside(c, imgW, imgH);
    RunKeepsSafeSquare(c, es);
    RunKeepsPlace(c, es);
    BackProjection(AfterAll(c, es));
  }

  lemma {:induction false} RunKeepsPlace(c: Cropper, es: seq<Event>)
    ensures var r := AfterAll(c, es);
            && r.origW == c.origW && r.origH == c.origH && r.image == c.image && r.num == c.num && r.den == c.den
    decreases |es|
  {
    if es == [] {
    } else {
      RunKeepsPlace(After(c, es[0]), es[1..]);
    }
  }

  // ----- sides dragged by the mouse's offset -----

  function EdgeOf(z: Zone, r: Rect): (x: int)
  {
    match z
    case BOTTOM => r.bottom
    case TOP => r.top
    case _ => r.left
  }

  function OppositeOf(z: Zone, r: Rect): (x: int)
  {
    match z
    case BOTTOM => r.top
    case TOP => r.bottom
    case _ => r.right
  }

  function Coord(z: Zone, p: Point): (x: int)
  {
    if z == LEFT then p.x else p.y
  }

  function Outward(z: Zone): (s: int)
  {
    if z == BOTTOM then 1 else -1
  }

  /** How far the dragged edge is from the mouse. */
  function Gap(c: Cropper, z: Zone): (g: int)
  {
    EdgeOf(z, c.crop) - Coord(z, c.last)
  }

  /** A move into the image that drags side `z` and passes the minimum test. */
  predicate Accepted(c: Cropper, z: Zone, p: Point)
  {
    && c.pressed && c.image.Contains(p) && ZoneFor(c, p) == z
    && Outward(z) * (Coord(z, p) - OppositeOf(z, c.crop)) >= c.minH
  }

  /** During a drag of side `z` a move leaves the gap alone exactly when it is accepted or has no offset; a refused
      move changes the gap by its offset, for good. */
  lemma GapKeptIff(c: Cropper, z: Zone, p: Point)
    requires c.shape.Free() && z.ByOffset() && c.pressed && c.image.Contains(p) && ZoneFor(c, p) == z
    ensures Gap(AfterMove(c, p), z) == Gap(c, z) <==> Accepted(c, z, p) || Coord(z, p) == Coord(z, c.last)
    ensures !Accepted(c, z, p) ==> AfterMove(c, p).crop == c.crop
  {
  }

  function Moves(c: Cropper, ps: seq<Point>): (r: Cropper)
    decreases |ps|
  {
    if ps == [] then c else Moves(AfterMove(c, ps[0]), ps[1..])
  }

  predicate NoneRefused(c: Cropper, z: Zone, ps: seq<Point>)
    decreases |ps|
  {
    ps == [] || ((c.image.Contains(ps[0]) ==> Accepted(c, z, ps[0])) && NoneRefused(AfterMove(c, ps[0]), z, ps[1..]))
  }

  /** Where an accepted drag can leave the edge: beyond the image, or short of the minimum, by at most the gap. */
  predicate GapBounds(c: Cropper, z: Zone, gap: int)
  {
    && Outward(z) * EdgeOf(z, c.crop) <= Outward(z) * (EdgeOf(z, c.image) + gap)
    && Outward(z) * (EdgeOf(z, c.crop) - OppositeOf(z, c.crop)) >= c.minH + Outward(z) * gap
  }

  /** All four edges but the dragged one. */
  predicate OtherEdgesSame(z: Zone, r: Rect, s: Rect)
  {
    && (z != BOTTOM ==> r.bottom == s.bottom) && (z != TOP ==> r.top == s.top)
    && (z != LEFT ==> r.left == s.left) && r.right == s.right
  }

  /** An accepted move puts the edge at the gap's distance from the mouse and moves nothing else. */
  lemma AcceptedMoveKeepsGap(c: Cropper, z: Zone, p: Point)
    requires c.shape.Free() && z.ByOffset() && c.image.Proper() && Accepted(c, z, p)
    ensures var r := AfterMove(c, p);
            && EdgeOf(z, r.crop) == Coord(z, p) + Gap(c, z) && OtherEdgesSame(z, r.crop, c.crop)
            && Gap(r, z) == Gap(c, z) && OppositeOf(z, r.crop) == OppositeOf(z, c.crop) && GapBounds(r, z, Gap(c, z))
  {
  }

  /** A BOTTOM, TOP or LEFT drag in which no move is refused keeps the gap from the press, so after any move the edge
      passes the image's by at most the gap and the span is the minimum at least, less the gap. */
  lemma {:induction false} DeltaDrag(c: Cropper, z: Zone, ps: seq<Point>)
    requires c.shape.Free() && z.ByOffset() && c.image.Proper() && c.pressed && NoneRefused(c, z, ps)
    ensures var r := Moves(c, ps);
            && Gap(r, z) == Gap(c, z) && OppositeOf(z, r.crop) == OppositeOf(z, c.crop)
            && (r.crop == c.crop || GapBounds(r, z, Gap(c, z)))
    decreases |ps|
  {
    if ps == [] {
    } else {
      var next := AfterMove(c, ps[0]);
      if c.image.Contains(ps[0]) {
        AcceptedMoveKeepsGap(c, z, ps[0]);
      } else {
        assert next.crop == c.crop && next.last == c.last;
      }
      MovesKeepFrame(next, ps[1..]);
      DeltaDrag(next, z, ps[1..]);
    }
  }

  lemma {:induction false} MovesKeepFrame(c: Cropper, ps: seq<Point>)
    ensures Moves(c, ps).image == c.image && Moves(c, ps).minH == c.minH
    decreases |ps|
  {
    if ps == [] {
    } else {
      MovesKeepFrame(AfterMove(c, ps[0]), ps[1..]);
    }
  }

  lemma {:induction false} OnlyTheEdgeMoves(c: Cropper, z: Zone, ps: seq<Point>)
    requires c.shape.Free() && z.ByOffset() && NoneRefused(c, z, ps)
    ensures OtherEdgesSame(z, Moves(c, ps).crop, c.crop)
    decreases |ps|
  {
    if ps == [] {
    } else {
      OnlyTheEdgeMoves(AfterMove(c, ps[0]), z, ps[1..]);
    }
  }

  /** A drag of side `z` under way: the crop rectangle is inside a non-empty image and the image's own edge is far
      enough from the opposite side to be reached. */
  predicate Dragging(c: Cropper, z: Zone)
  {
    && c.shape.Free() && z.ByOffset() && c.pressed && c.zoneKnown && c.zone == z
    && c.image.Width() > 0 && c.image.Height() > 0 && c.crop.Within(c.image)
    && Outward(z) * (EdgeOf(z, c.image) - OppositeOf(z, c.crop)) >= c.minH
  }

  ghost predicate StaysInside(c: Cropper, z: Zone, ps: seq<Point>)
  {
    NoneRefused(c, z, ps) ==> Moves(c, ps).crop.Within(c.image)
  }

  /** A point of the image whose coordinate along the drag is `v`. */
  function PointAt(c: Cropper, z: Zone, v: int): (p: Point)
  {
    if z == LEFT then Point(v, c.image.top) else Point(c.image.left, v)
  }

  lemma OneMove(c: Cropper, z: Zone, p: Point)
    ensures Moves(c, [p]) == AfterMove(c, p)
    ensures NoneRefused(c, z, [p]) <==> (c.image.Contains(p) ==> Accepted(c, z, p))
  {
    assert [p][1..] == [];
  }

  lemma PastTheEdge(z: Zone, r: Rect, image: Rect)
    requires z.ByOffset() && Outward(z) * EdgeOf(z, r) > Outward(z) * EdgeOf(z, image)
    ensures !r.Within(image)
  {
  }

  /** What the press decides: a drag by offset without refused moves stays inside the image, whatever the moves, if and
      only if the mouse was not pressed inwards of the edge. */
  lemma GapDecides(c: Cropper, z: Zone)
    requires Dragging(c, z)
    ensures (forall ps :: StaysInside(c, z, ps)) <==> Outward(z) * Gap(c, z) <= 0
  {
    if Outward(z) * Gap(c, z) <= 0 {
      forall ps ensures StaysInside(c, z, ps) {
        if NoneRefused(c, z, ps) {
          DeltaDrag(c, z, ps);
          MovesKeepFrame(c, ps);
          OnlyTheEdgeMoves(c, z, ps);
        }
      }
    } else {
      var p := PointAt(c, z, EdgeOf(z, c.image));
      var ps := [p];
      AcceptedMoveKeepsGap(c, z, p);
      OneMove(c, z, p);
      PastTheEdge(z, AfterMove(c, p).crop, c.image);
      assert !StaysInside(c, z, ps);
    }
  }

  /** Refused moves void that: whatever the gap, pulling the mouse back to the opposite side, which is refused, and then
      out to the image's edge pushes the dragged edge out of the image. */
  lemma RefusedMoveLeadsOut(c: Cropper, z: Zone) returns (ps: seq<Point>)
    requires Dragging(c, z) && c.minH >= 1 && Outward(z) * (EdgeOf(z, c.crop) - OppositeOf(z, c.crop)) >= c.minH
    ensures |ps| == 2 && c.image.Contains(ps[0]) && c.image.Contains(ps[1])
    ensures !Accepted(c, z, ps[0]) && Accepted(AfterMove(c, ps[0]), z, ps[1])
    ensures !Moves(c, ps).crop.Within(c.image)
  {
    var back, out := PointAt(c, z, OppositeOf(z, c.crop)), PointAt(c, z, EdgeOf(z, c.image));
    ps := [back, out];
    var refused := AfterMove(c, back);
    GapKeptIff(c, z, back);
    assert refused.crop == c.crop && refused.last == back;
    assert Accepted(refused, z, out);
    AcceptedMoveKeepsGap(refused, z, out);
    PastTheEdge(z, AfterMove(refused, out).crop, c.image);
    OneMove(refused, z, out);
    assert ps[1..] == [out];
  }

  // ----- runs of the free shapes -----

  predicate Usable(c: Cropper)
  {
    c.crop.Within(c.image) && c.crop.Proper()
  }

  /** An accepted offset drag whose mouse comes closer to the image's edge than its gap allows, or so close to the
      opposite side that the gap turns the rectangle inside out. */
  predicate Overshoots(c: Cropper, e: Event)
  {
    e.Move? &&
    var z := ZoneFor(c, e.p);
    && z.ByOffset() && Accepted(c, z, e.p)
    && var edge := Coord(z, e.p) + Gap(c, z);
       || Outward(z) * edge > Outward(z) * EdgeOf(z, c.image)
       || Outward(z) * (edge - OppositeOf(z, c.crop)) < -1
  }

  /** Minimums below -1 would let a corner turn the rectangle inside out. */
  predicate FreeSetting(c: Cropper)
  {
    c.shape.Free() && c.image.Proper() && c.minW >= -1 && c.minH >= -1
  }

  /** A rectangle inside the image, one side of which is moved, is usable as far as that side is. */
  lemma UsableSide(c: Cropper, z: Zone, crop: Rect)
    requires z.ByOffset() && Usable(c) && OtherEdgesSame(z, crop, c.crop)
    ensures crop.Within(c.image) && crop.Proper()
       <==> Outward(z) * EdgeOf(z, crop) <= Outward(z) * EdgeOf(z, c.image)
            && Outward(z) * (EdgeOf(z, crop) - OppositeOf(z, c.crop)) >= -1
  {
  }

  lemma OffsetMoveUsableIff(c: Cropper, p: Point)
    requires FreeSetting(c) && Usable(c) && c.pressed && c.image.Contains(p) && ZoneFor(c, p).ByOffset()
    ensures Usable(AfterMove(c, p)) <==> !Overshoots(c, Move(p))
  {
    var z := ZoneFor(c, p);
    if Accepted(c, z, p) {
      AcceptedMoveKeepsGap(c, z, p);
      UsableSide(c, z, AfterMove(c, p).crop);
    } else {
      GapKeptIff(c, z, p);
    }
  }

  lemma OtherMoveUsable(c: Cropper, p: Point)
    requires FreeSetting(c) && Usable(c) && c.pressed && c.image.Contains(p) && !ZoneFor(c, p).ByOffset()
    ensures Usable(AfterMove(c, p))
  {
    var z, dx, dy := ZoneFor(c, p), p.x - c.last.x, p.y - c.last.y;
    FreeDragContainedIff(c.shape, z, c.crop, c.image, p, dx, dy, c.minW, c.minH);
    FreeDragProper(c.shape, z, c.crop, c.image, p, dx, dy, c.minW, c.minH);
  }

  predicate AllUsable(c: Cropper, es: seq<Event>)
    decreases |es|
  {
    Usable(c) && (es == [] || AllUsable(After(c, es[0]), es[1..]))
  }

  predicate NeverOvershoots(c: Cropper, es: seq<Event>)
    decreases |es|
  {
    es == [] || (!Overshoots(c, es[0]) && NeverOvershoots(After(c, es[0]), es[1..]))
  }

  /** Over every run of presses, moves and releases a free crop rectangle is inside the image all along if and only if
      no offset drag overshoots: corner, RIGHT and INSIDE drags and refused moves never take it out. */
  lemma {:induction false} FreeRunInsideIff(c: Cropper, es: seq<Event>)
    requires FreeSetting(c) && Usable(c)
    ensures AllUsable(c, es) <==> NeverOvershoots(c, es)
    decreases |es|
  {
    if es == [] {
    } else {
      var next := After(c, es[0]);
      if es[0].Move? && c.pressed && c.image.Contains(es[0].p) {
        if ZoneFor(c, es[0].p).ByOffset() {
          OffsetMoveUsableIff(c, es[0].p);
        } else {
          OtherMoveUsable(c, es[0].p);
        }
      } else {
        assert Usable(next) && !Overshoots(c, es[0]);
      }
      if Usable(next) {
        FreeRunInsideIff(next, es[1..]);
      }
    }
  }

  lemma {:induction false} UsableAtEnd(c: Cropper, es: seq<Event>)
    requires AllUsable(c, es)
    ensures Usable(AfterAll(c, es))
    decreases |es|
  {
    if es == [] {
    } else {
      UsableAtEnd(After(c, es[0]), es[1..]);
    }
  }

  /** From `setOriginalImage` on, in every run that never overshoots, the part that `getCroppedImage` copies for a free
      shape is inside the original. */
  lemma FreeCropSafety(c: Cropper, imgW: int, imgH: int, es: seq<Event>)
    requires imgW > 0 && imgH > 0 && c.labelW > 0 && c.labelH > 0 && PlacedBy(c, imgW, imgH)
    requires c.shape.Free() && c.den > 0 && CropReset(c, c.crop) && c.minW >= -1 && c.minH >= -1
    requires 0 <= c.tempW <= c.image.Width() && 0 <= c.tempH <= c.image.Height()
    requires NeverOvershoots(c, es)
    ensures var r := AfterAll(c, es);
            && r.num > 0 && r.crop.Within(c.image)
            && Projected(r).Proper() && Projected(r).Within(Rect(0, 0, imgW - 1, imgH - 1)) && Copies(r, Projected(r))
  {
    PlacementFits(c, imgW, imgH);
    ResetInside(c, imgW, imgH);
    FreeRunInsideIff(c, es);
    UsableAtEnd(c, es);
    RunKeepsPlace(c, es);
    BackProjection(AfterAll(c, es));
  }

  /** Containment does fail for free shapes: a drag of the bottom side pressed three pixels inside it pushes the
      edge out. */
  lemma BottomDragLeavesImage(c: Cropper)
    requires c.shape == RECT && c.image == Rect(0, 0, 99, 99) && c.crop == Rect(10, 10, 89, 89)
    requires c.dragSquareEdge == 8 && c.minW == 16 && c.minH == 16 && !c.zoneKnown
    ensures var r := AfterAll(c, [Press(Point(49, 86)), Move(Point(49, 87)), Move(Point(49, 98))]);
            r.crop == Rect(10, 10, 89, 101) && !r.crop.Within(r.image)
  {
    var c1 := After(c, Press(Point(49, 86)));
    var c2 := After(c1, Move(Point(49, 87)));
    assert c2.crop == Rect(10, 10, 89, 90) && c2.zone == BOTTOM;
    var c3 := After(c2, Move(Point(49, 98)));
    assert c3.crop == Rect(10, 10, 89, 101);
    var es := [Press(Point(49, 86)), Move(Point(49, 87)), Move(Point(49, 98))];
    assert es[1..] == [Move(Point(49, 87)), Move(Point(49, 98))] && es[1..][1..] == [Move(Point(49, 98))];
    assert es[1..][1..][1..] == [];
  }
}
