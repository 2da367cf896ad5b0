/** ViewParams: which part of an image the viewer shows and how large. The
    image point (imgX, imgY) is drawn in the top left corner of the viewer,
    and one image pixel covers scale viewer pixels in each direction.
    Doubles are modelled as reals; a quotient that Java would compute as
    NaN or an infinity (a division by a zero scale) is NotFinite. */
module View {
  import opened Options

  /** A javafx Point2D. */
  datatype Point = Point(x: real, y: real)

  /** The value clampImgX, clampImgY and clampScale leave in their field:
      min for a value below min, otherwise max for a value above max,
      otherwise the value itself. */
  function Clamp(v: real, min: real, max: real): (r: real)
    ensures r == v || r == min || r == max
  {
    if v < min then min else if v > max then max else v
  }

  /** With min <= max, clamping lands in [min, max], and it keeps exactly
      the values already there. */
  lemma ClampInRange(v: real, min: real, max: real)
    requires min <= max
    ensures min <= Clamp(v, min, max) <= max
    ensures Clamp(v, min, max) == v <==> min <= v <= max
  {
  }

  /** With min <= max, clamping twice is clamping once. */
  lemma ClampIdempotent(v: real, min: real, max: real)
    requires min <= max
    ensures Clamp(Clamp(v, min, max), min, max) == Clamp(v, min, max)
  {
  }

  /** With min > max a second clamp moves a value below min on to max:
      the bounds must be ordered for clamping to be idempotent. */
  lemma ClampUnorderedBounds(v: real, min: real, max: real)
    requires max < min && v < min
    ensures Clamp(v, min, max) == min
    ensures Clamp(Clamp(v, min, max), min, max) == max
  {
  }

  /** The quotient of a double by the scale. */
  function Scaled(a: real, scale: real): (r: Coordinate)
    ensures r.Finite? <==> scale != 0.0
    ensures r.Finite? ==> r.value * scale == a
  {
    if scale == 0.0 then NotFinite else Finite(a / scale)
  }

  /** A sum with a double that may not be finite. */
  function Offset(base: real, c: Coordinate): (r: Coordinate)
    ensures r.Finite? <==> c.Finite?
    ensures r.Finite? ==> r.value - base == c.value
  {
    if c.Finite? then Finite(base + c.value) else NotFinite
  }

  class ViewParams {
    var imgX: real
    var imgY: real
    var scale: real

    /** ViewParams(imgX, imgY, scale). */
    constructor (imgX: real, imgY: real, scale: real)
      ensures this.imgX == imgX && this.imgY == imgY && this.scale == scale
    {
      this.imgX := imgX;
      this.imgY := imgY;
      this.scale := scale;
    }

    /** ViewParams(): every field keeps Java's default 0. */
    constructor Origin()
      ensures imgX == 0.0 && imgY == 0.0 && scale == 0.0
    {
      imgX := 0.0;
      imgY := 0.0;
      scale := 0.0;
    }

    method SetImgX(imgX: real)
      modifies this`imgX
      ensures this.imgX == imgX
      ensures imgY == old(imgY) && scale == old(scale)
    {
      this.imgX := imgX;
    }

    method SetImgY(imgY: real)
      modifies this`imgY
      ensures this.imgY == imgY
      ensures imgX == old(imgX) && scale == old(scale)
    {
      this.imgY := imgY;
    }

    method SetScale(scale: real)
      modifies this`scale
      ensures this.scale == scale
      ensures imgX == old(imgX) && imgY == old(imgY)
    {
      this.scale := scale;
    }

    method ClampImgX(min: real, max: real)
      modifies this`imgX
      ensures imgX == Clamp(old(imgX), min, max)
      ensures imgY == old(imgY) && scale == old(scale)
    {
      if imgX < min {
        imgX := min;
      } else if imgX > max {
        imgX := max;
      }
    }

    method ClampImgY(min: real, max: real)
      modifies this`imgY
      ensures imgY == Clamp(old(imgY), min, max)
      ensures imgX == old(imgX) && scale == old(scale)
    {
      if imgY < min {
        imgY := min;
      } else if imgY > max {
        imgY := max;
      }
    }

    method ClampScale(min: real, max: real)
      modifies this`scale
      ensures scale == Clamp(old(scale), min, max)
      ensures imgX == old(imgX) && imgY == old(imgY)
    {
      if scale < min {
        scale := min;
      } else if scale > max {
        scale := max;
      }
    }

    /** imageToView(Point2D): the viewer position of an image point. */
    function ImageToView(p: Point): (r: Point)
      reads this
      ensures scale != 0.0 ==> Scaled(r.x, scale) == Finite(p.x - imgX) && Scaled(r.y, scale) == Finite(p.y - imgY)
    {
      Point((p.x - imgX) * scale, (p.y - imgY) * scale)
    }

    /** imageToView(double): a length in the image as a length in the viewer. */
    function ImageToViewDistance(d: real): (r: real)
      reads this
      ensures scale != 0.0 ==> Scaled(r, scale) == Finite(d)
    {
      d * scale
    }

    /** viewToImage(Point2D): the image point at a viewer position; not
        finite when the scale is 0. */
    function ViewToImage(p: Point): (r: (Coordinate, Coordinate))
      reads this
      ensures r.0.Finite? <==> scale != 0.0
      ensures r.1.Finite? <==> scale != 0.0
    {
      (Offset(imgX, Scaled(p.x, scale)), Offset(imgY, Scaled(p.y, scale)))
    }

    /** viewToImage(double): a length in the viewer as a length in the
        image; not finite when the scale is 0. */
    function ViewToImageDistance(d: real): (r: Coordinate)
      reads this
      ensures r.Finite? <==> scale != 0.0
    {
      Scaled(d, scale)
    }

    /** clone: a new object with the same three fields. */
    method Clone() returns (r: ViewParams)
      ensures fresh(r)
      ensures r.imgX == imgX && r.imgY == imgY && r.scale == scale
    {
      r := new ViewParams(imgX, imgY, scale);
    }
  }

  /** For a nonzero scale, viewToImage undoes imageToView. */
  lemma ViewOfImageRoundTrip(v: ViewParams, p: Point)
    requires v.scale != 0.0
    ensures v.ViewToImage(v.ImageToView(p)) == (Finite(p.x), Finite(p.y))
  {
  }

  /** For a nonzero scale, imageToView undoes viewToImage. */
  lemma ImageOfViewRoundTrip(v: ViewParams, p: Point)
    requires v.scale != 0.0
    ensures var (x, y) := v.ViewToImage(p);
      x.Finite? && y.Finite? && v.ImageToView(Point(x.value, y.value)) == p
  {
  }

  /** For a nonzero scale, the two distance conversions are inverse. */
  lemma DistanceRoundTrip(v: ViewParams, d: real)
    requires v.scale != 0.0
    ensures v.ViewToImageDistance(v.ImageToViewDistance(d)) == Finite(d)
    ensures v.ViewToImageDistance(d).Finite?
            && v.ImageToViewDistance(v.ViewToImageDistance(d).value) == d
  {
  }

}
