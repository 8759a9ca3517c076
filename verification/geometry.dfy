/** The pure arithmetic of one tilt update (`getValues` and the transform
    arguments `update` builds): pointer normalisation, tilt angles, percentages
    and glare opacity. */
module TiltGeometry {
  import opened Numbers
  import opened TiltSettings

  /** The element's measured box: bounding-rect corner and offset size. */
  datatype Rect = Rect(left: real, top: real, width: real, height: real)

  /** The page's client size, used in full-page mode. */
  datatype Viewport = Viewport(width: real, height: real)

  /** A pointer sample in viewport coordinates (`clientX`, `clientY`). */
  datatype Pointer = Pointer(x: Num, y: Num)

  /** What `getValues` returns, before `toFixed(2)` and without the glare angle. */
  datatype TiltValues = TiltValues(tiltX: Num, tiltY: Num, percentageX: Num, percentageY: Num)

  /** The rotation and scale arguments of the transform `update` applies. */
  datatype Transform = Transform(perspective: JsValue, rotateX: Num, rotateY: Num, scale: JsValue)

  /** +1, or -1 when `reverse` is set. */
  function ReverseSign(c: Config): (r: real)
    ensures r == 1.0 || r == -1.0
    ensures r == -1.0 <==> c.reverse
  {
    if c.reverse then -1.0 else 1.0
  }

  /** The pointer position relative to the element (or to the page in full-page
      mode), each coordinate clamped to the unit interval. */
  function Normalize(fullPage: bool, rect: Rect, view: Viewport, p: Pointer): (n: (Num, Num))
    ensures n.0.NaN? || (n.0.Fin? && 0.0 <= n.0.v <= 1.0)
    ensures n.1.NaN? || (n.1.Fin? && 0.0 <= n.1.v <= 1.0)
  {
    if fullPage then
      (Clamp01(Div(p.x, Fin(view.width))), Clamp01(Div(p.y, Fin(view.height))))
    else
      (Clamp01(Div(Sub(p.x, Fin(rect.left)), Fin(rect.width))),
       Clamp01(Div(Sub(p.y, Fin(rect.top)), Fin(rect.height))))
  }

  /** `reverse * (max - x * max * 2)`. */
  function TiltFromX(sign: real, max: real, x: Num): Num {
    if x.Fin? then Fin(sign * (max - x.v * max * 2.0)) else NaN
  }

  /** `reverse * (y * max * 2 - max)`. */
  function TiltFromY(sign: real, max: real, y: Num): Num {
    if y.Fin? then Fin(sign * (y.v * max * 2.0 - max)) else NaN
  }

  /** `x * 100`. */
  function Percent(x: Num): Num {
    if x.Fin? then Fin(x.v * 100.0) else NaN
  }

  /** `getValues`, for the pointer sample `p`. */
  function GetValues(c: Config, rect: Rect, view: Viewport, p: Pointer): (t: TiltValues)
    ensures t.tiltX.NaN? || (t.tiltX.Fin? && (c.max >= 0.0 ==> -c.max <= t.tiltX.v <= c.max))
    ensures t.tiltY.NaN? || (t.tiltY.Fin? && (c.max >= 0.0 ==> -c.max <= t.tiltY.v <= c.max))
    ensures t.percentageX.NaN? || (t.percentageX.Fin? && 0.0 <= t.percentageX.v <= 100.0)
    ensures t.percentageY.NaN? || (t.percentageY.Fin? && 0.0 <= t.percentageY.v <= 100.0)
  {
    var n := Normalize(c.fullPageListening, rect, view, p);
    TiltBounded(ReverseSign(c), c.max, n.0, n.1);
    TiltValues(TiltFromX(ReverseSign(c), c.max, n.0), TiltFromY(ReverseSign(c), c.max, n.1),
               Percent(n.0), Percent(n.1))
  }

  /** For a clamped coordinate and a non-negative maximum, both tilt formulas stay
      within `[-max, max]`. */
  lemma TiltBounded(sign: real, max: real, x: Num, y: Num)
    requires sign == 1.0 || sign == -1.0
    requires x.NaN? || (x.Fin? && 0.0 <= x.v <= 1.0)
    requires y.NaN? || (y.Fin? && 0.0 <= y.v <= 1.0)
    ensures TiltFromX(sign, max, x).NaN? <==> x.NaN?
    ensures TiltFromY(sign, max, y).NaN? <==> y.NaN?
    ensures x.Fin? && max >= 0.0 ==> -max <= TiltFromX(sign, max, x).v <= max
    ensures y.Fin? && max >= 0.0 ==> -max <= TiltFromY(sign, max, y).v <= max
  {
    if x.Fin? && max >= 0.0 {
      FormulaBounds(x.v, max, sign);
    }
    if y.Fin? && max >= 0.0 {
      FormulaBounds(y.v, max, sign);
    }
  }

  /** Both tilt formulas keep a coordinate of the unit interval within `[-max, max]`. */
  lemma FormulaBounds(f: real, max: real, sign: real)
    requires 0.0 <= f <= 1.0 && max >= 0.0
    requires sign == 1.0 || sign == -1.0
    ensures -max <= sign * (max - f * max * 2.0) <= max
    ensures -max <= sign * (f * max * 2.0 - max) <= max
  {
    ScaledFraction(f, max);
    Doubling(f * max, max, sign);
  }

  /** A fraction of a non-negative quantity lies between zero and the quantity. */
  lemma ScaledFraction(f: real, m: real)
    requires 0.0 <= f <= 1.0 && m >= 0.0
    ensures 0.0 <= f * m
    ensures f * m <= m
  {
    assert 0.0 <= f * m;
    assert f * m <= 1.0 * m;
  }

  /** Both tilt formulas, as functions of `part` in `[0, max]`. */
  lemma Doubling(part: real, max: real, sign: real)
    requires 0.0 <= part <= max
    requires sign == 1.0 || sign == -1.0
    ensures -max <= sign * (max - part * 2.0) <= max
    ensures -max <= sign * (part * 2.0 - max) <= max
  {
    if sign == -1.0 {
      assert sign * (max - part * 2.0) == part * 2.0 - max;
      assert sign * (part * 2.0 - max) == max - part * 2.0;
    }
  }

  /** A percentage of a non-negative quantity lies between zero and the quantity. */
  lemma ScaledPercent(p: real, g: real)
    requires 0.0 <= p <= 100.0 && g >= 0.0
    ensures 0.0 <= p * g / 100.0 <= g
  {
    assert (100.0 - p) * g >= 0.0;
    assert p * g >= 0.0;
  }

  /** The transform arguments `update` writes: the axis setting zeroes one
      rotation, the other carries the matching tilt. */
  function TransformFor(c: Config, t: TiltValues): (r: Transform)
    ensures r.perspective == c.perspective && r.scale == c.scale
    ensures r.rotateX == (if c.axis == AxisX then Fin(0.0) else t.tiltY)
    ensures r.rotateY == (if c.axis == AxisY then Fin(0.0) else t.tiltX)
  {
    Transform(c.perspective,
              if c.axis == AxisX then Fin(0.0) else t.tiltY,
              if c.axis == AxisY then Fin(0.0) else t.tiltX,
              c.scale)
  }

  /** The glare opacity `update` writes: `percentageY * max-glare / 100`. */
  function GlareOpacity(c: Config, t: TiltValues): (o: Num)
    ensures t.percentageY.Fin? && 0.0 <= t.percentageY.v <= 100.0 && c.maxGlare >= 0.0 ==>
              o.Fin? && 0.0 <= o.v <= c.maxGlare
  {
    if t.percentageY.Fin? then
      var p := t.percentageY.v;
      if 0.0 <= p <= 100.0 && c.maxGlare >= 0.0 then
        ScaledPercent(p, c.maxGlare);
        Fin(p * c.maxGlare / 100.0)
      else Fin(p * c.maxGlare / 100.0)
    else NaN
  }

  /** A finite pointer over an element (or page) of positive size normalises to
      finite coordinates; inside the box they are the exact relative position. */
  lemma NormalizeFinite(fullPage: bool, rect: Rect, view: Viewport, px: real, py: real)
    requires fullPage ==> view.width > 0.0 && view.height > 0.0
    requires !fullPage ==> rect.width > 0.0 && rect.height > 0.0
    ensures var n := Normalize(fullPage, rect, view, Pointer(Fin(px), Fin(py)));
            n.0.Fin? && n.1.Fin?
    ensures var n := Normalize(fullPage, rect, view, Pointer(Fin(px), Fin(py)));
            !fullPage && rect.left <= px <= rect.left + rect.width ==>
              n.0.v == (px - rect.left) / rect.width
  {
    if !fullPage && rect.left <= px <= rect.left + rect.width {
      UnitFraction(px - rect.left, rect.width);
    }
  }

  /** A part of a positive whole is a fraction in the unit interval. */
  lemma UnitFraction(part: real, whole: real)
    requires whole > 0.0 && 0.0 <= part <= whole
    ensures 0.0 <= part / whole <= 1.0
  {
    var f := part / whole;
    assert f * whole == part;
    assert (1.0 - f) * whole == whole - part;
  }

  /** A pointer outside the element still gives an in-range tilt: left of the box
      the horizontal coordinate saturates at 0, right of it at 1. */
  lemma OutsideSaturates(c: Config, rect: Rect, view: Viewport, px: real, py: real)
    requires !c.fullPageListening && rect.width > 0.0 && rect.height > 0.0
    ensures px <= rect.left ==> Normalize(false, rect, view, Pointer(Fin(px), Fin(py))).0 == Fin(0.0)
    ensures px >= rect.left + rect.width ==> Normalize(false, rect, view, Pointer(Fin(px), Fin(py))).0 == Fin(1.0)
  {
    var d := (px - rect.left) / rect.width;
    assert d * rect.width == px - rect.left;
    if px >= rect.left + rect.width {
      assert d >= 1.0;
    }
  }

  /** A zero-width element divides by zero: any horizontal offset saturates the
      coordinate, and a pointer exactly on the left edge gives NaN. */
  lemma ZeroWidth(rect: Rect, view: Viewport, px: real, py: real)
    requires rect.width == 0.0
    ensures px > rect.left ==> Normalize(false, rect, view, Pointer(Fin(px), Fin(py))).0 == Fin(1.0)
    ensures px < rect.left ==> Normalize(false, rect, view, Pointer(Fin(px), Fin(py))).0 == Fin(0.0)
    ensures px == rect.left ==> Normalize(false, rect, view, Pointer(Fin(px), Fin(py))).0.NaN?
  {
  }

  /** The centre of the element, or of the page in full-page mode. */
  function Centre(c: Config, rect: Rect, view: Viewport): Pointer {
    if c.fullPageListening then Pointer(Fin(view.width / 2.0), Fin(view.height / 2.0))
    else Pointer(Fin(rect.left + rect.width / 2.0), Fin(rect.top + rect.height / 2.0))
  }

  /** Halving a positive length and normalising by it gives one half. */
  lemma HalfOf(w: real)
    requires w > 0.0
    ensures (w / 2.0) / w == 0.5
  {
    assert 0.5 * w == w / 2.0;
  }

  /** At the centre the element lies flat and both percentages are 50. */
  lemma CentreIsLevel(c: Config, rect: Rect, view: Viewport)
    requires c.fullPageListening ==> view.width > 0.0 && view.height > 0.0
    requires !c.fullPageListening ==> rect.width > 0.0 && rect.height > 0.0
    ensures GetValues(c, rect, view, Centre(c, rect, view)) ==
              TiltValues(Fin(0.0), Fin(0.0), Fin(50.0), Fin(50.0))
  {
    var n := Normalize(c.fullPageListening, rect, view, Centre(c, rect, view));
    if c.fullPageListening {
      HalfOf(view.width);
      HalfOf(view.height);
    } else {
      HalfOf(rect.width);
      HalfOf(rect.height);
      assert rect.left + rect.width / 2.0 - rect.left == rect.width / 2.0;
      assert rect.top + rect.height / 2.0 - rect.top == rect.height / 2.0;
    }
    assert n == (Fin(0.5), Fin(0.5));
  }

  /** At the top-left corner the tilt is `(reverse * max, -reverse * max)`. */
  lemma TopLeftCorner(c: Config, rect: Rect, view: Viewport)
    requires !c.fullPageListening && rect.width > 0.0 && rect.height > 0.0
    ensures var t := GetValues(c, rect, view, Pointer(Fin(rect.left), Fin(rect.top)));
            t.tiltX == Fin(ReverseSign(c) * c.max) && t.tiltY == Fin(-ReverseSign(c) * c.max)
  {
    var n := Normalize(false, rect, view, Pointer(Fin(rect.left), Fin(rect.top)));
    assert n == (Fin(0.0), Fin(0.0));
  }

  /** Flipping `reverse` negates both tilts and leaves the percentages alone. */
  lemma ReverseNegates(c: Config, rect: Rect, view: Viewport, p: Pointer)
    ensures var t := GetValues(c, rect, view, p);
            var u := GetValues(c.(reverse := !c.reverse), rect, view, p);
            u.tiltX == Neg(t.tiltX) && u.tiltY == Neg(t.tiltY) &&
            u.percentageX == t.percentageX && u.percentageY == t.percentageY
  {
    var n := Normalize(c.fullPageListening, rect, view, p);
    var s := ReverseSign(c);
    assert ReverseSign(c.(reverse := !c.reverse)) == -s;
    if n.0.Fin? {
      var e := c.max - n.0.v * c.max * 2.0;
      assert (-s) * e == -(s * e);
    }
    if n.1.Fin? {
      var e := n.1.v * c.max * 2.0 - c.max;
      assert (-s) * e == -(s * e);
    }
  }
}
