/** One attached tilt instance as a value: its configuration, the measurements
    it keeps, the animation-frame callbacks it has queued, the gyroscope
    calibration, and what the last update applied. Every handler of the class is
    a function from instance to instance; layout reads (`getBoundingClientRect`,
    `offsetWidth`, the client size) arrive as parameters. */
module TiltInstance {
  import opened Optional
  import opened Numbers
  import opened TiltSettings
  import opened TiltGeometry

  /** A callback waiting for the next animation frame: the coalesced `update`, or
      a `reset` scheduled by the leave handler. */
  datatype Callback = RunUpdate | RunReset

  /** The glare layer: at rest (rotated 180 degrees, opacity 0) or lit with an
      opacity. Its rotation angle is not modelled. */
  datatype Glare = GlareRest | GlareLit(opacity: Num)

  /** A calibrated neutral orientation (`gammazero`, `betazero`). */
  datatype Baseline = Baseline(gamma: real, beta: real)

  /** Calibration state: samples still to average, and the baseline so far
      (`None` while `gammazero` is `null`). */
  datatype Gyro = Gyro(samples: real, zero: Option<Baseline>)

  datatype Instance = Instance(
    element: nat,
    cfg: Config,
    surface: Surface,
    listensResize: bool,
    listensOrientation: bool,
    rect: Rect,
    view: Viewport,
    event: Pointer,
    updatePending: bool,
    frameQueue: seq<Callback>,
    gyro: Gyro,
    transform: Transform,
    glare: Glare,
    lastChange: TiltValues)

  /** Number of occurrences of `c` in `q`. */
  function Count(q: seq<Callback>, c: Callback): nat {
    if q == [] then 0 else (if q[0] == c then 1 else 0) + Count(q[1..], c)
  }

  lemma {:induction false} CountAppend(a: seq<Callback>, b: seq<Callback>, c: Callback)
    ensures Count(a + b, c) == Count(a, c) + Count(b, c)
  {
    if a == [] {
      assert a + b == b;
    } else {
      assert (a + b)[1..] == a[1..] + b;
      CountAppend(a[1..], b, c);
    }
  }

  lemma {:induction false} CountZero(q: seq<Callback>, c: Callback)
    ensures Count(q, c) == 0 <==> c !in q
  {
    if q != [] {
      CountZero(q[1..], c);
      assert q == [q[0]] + q[1..];
    }
  }

  /** `cancelAnimationFrame(this.updateCall)`: the queued update goes, resets stay
      in order. */
  function CancelUpdate(q: seq<Callback>): (r: seq<Callback>)
    ensures RunUpdate !in r
    ensures RunUpdate !in q ==> r == q
    ensures Count(r, RunReset) == Count(q, RunReset)
  {
    if q == [] then []
    else if q[0] == RunUpdate then CancelUpdate(q[1..])
    else [q[0]] + CancelUpdate(q[1..])
  }

  /** The coalescing rule: an update is pending exactly when one update callback,
      and no other, is queued. */
  predicate OnePending(s: Instance) {
    Count(s.frameQueue, RunUpdate) == (if s.updatePending then 1 else 0)
  }

  /** `update`: compute the values for the stored sample, apply the transform
      (the axis setting zeroing one rotation), light the glare, clear the pending
      marker. Nothing else changes. */
  function Update(s: Instance): (r: Instance)
    ensures r.lastChange == GetValues(s.cfg, s.rect, s.view, s.event)
    ensures s.cfg.axis == AxisX ==> r.transform.rotateX == Fin(0.0)
    ensures s.cfg.axis == AxisY ==> r.transform.rotateY == Fin(0.0)
    ensures s.cfg.axis != AxisX ==> r.transform.rotateX == r.lastChange.tiltY
    ensures s.cfg.axis != AxisY ==> r.transform.rotateY == r.lastChange.tiltX
    ensures s.cfg.max >= 0.0 ==>
              (r.transform.rotateX.NaN? || -s.cfg.max <= r.transform.rotateX.v <= s.cfg.max) &&
              (r.transform.rotateY.NaN? || -s.cfg.max <= r.transform.rotateY.v <= s.cfg.max)
    ensures r.transform.scale == s.cfg.scale
    ensures r.transform.perspective == s.cfg.perspective
    ensures s.cfg.glare ==> r.glare == GlareLit(GlareOpacity(s.cfg, r.lastChange))
    ensures !s.cfg.glare ==> r.glare == s.glare
    ensures !r.updatePending
    ensures r.(transform := s.transform, glare := s.glare, lastChange := s.lastChange,
               updatePending := s.updatePending) == s
  {
    var values := GetValues(s.cfg, s.rect, s.view, s.event);
    s.(transform := TransformFor(s.cfg, values),
       glare := if s.cfg.glare then GlareLit(GlareOpacity(s.cfg, values)) else s.glare,
       lastChange := values,
       updatePending := false)
  }

  /** The synthetic pointer `reset` feeds to `update`: the start angles mapped
      back through the tilt formulas onto the element (or the page). */
  function RestPointer(c: Config, rect: Rect, view: Viewport): Pointer {
    var fx := Div(Fin(c.startX + c.max), Fin(2.0 * c.max));
    var fy := Div(Fin(c.startY + c.max), Fin(2.0 * c.max));
    if c.fullPageListening then
      Pointer(Mul(fx, Fin(view.width)), Mul(fy, Fin(view.height)))
    else
      Pointer(Add(Fin(rect.left), Mul(fx, Fin(rect.width))),
              Add(Fin(rect.top), Mul(fy, Fin(rect.height))))
  }

  /** In element mode the rest pointer spans the element: a start angle of `-max`
      puts it on the left (top) edge and one of `max` on the right (bottom) edge. */
  lemma RestPointerSpan(c: Config, rect: Rect, view: Viewport)
    requires c.max > 0.0 && !c.fullPageListening
    ensures c.startX == -c.max ==> RestPointer(c, rect, view).x == Fin(rect.left)
    ensures c.startX == c.max ==> RestPointer(c, rect, view).x == Fin(rect.left + rect.width)
    ensures c.startY == -c.max ==> RestPointer(c, rect, view).y == Fin(rect.top)
    ensures c.startY == c.max ==> RestPointer(c, rect, view).y == Fin(rect.top + rect.height)
  {
    assert (c.max + c.max) / (2.0 * c.max) == 1.0;
  }

  /** `resetGlare`. */
  function ResetGlare(s: Instance): (r: Instance)
    ensures s.cfg.glare ==> r.glare == GlareRest
    ensures r.(glare := s.glare) == s
  {
    if s.cfg.glare then s.(glare := GlareRest) else s
  }

  /** `reset`: remeasure (the enter handler), move the stored sample to the rest
      pointer, update with the scale forced to 1, restore the scale, rest the
      glare. */
  function Reset(s: Instance, measured: Rect): (r: Instance)
    ensures r.cfg == s.cfg
    ensures r.rect == measured
    ensures r.event == RestPointer(s.cfg, measured, s.view)
    ensures r.lastChange == GetValues(s.cfg, measured, s.view, r.event)
    ensures r.transform.scale == JsNum(1.0)
    ensures s.cfg.glare ==> r.glare == GlareRest
    ensures !r.updatePending
    ensures r.frameQueue == s.frameQueue && r.gyro == s.gyro
    ensures r.transform == TransformFor(s.cfg.(scale := JsNum(1.0)), r.lastChange)
    ensures !s.cfg.glare ==> r.glare == s.glare
    ensures r.(rect := s.rect, event := s.event, transform := s.transform, glare := s.glare,
               lastChange := s.lastChange, updatePending := s.updatePending) == s
  {
    var entered := s.(rect := measured);
    var rest := entered.(event := RestPointer(s.cfg, measured, s.view));
    var updated := Update(rest.(cfg := s.cfg.(scale := JsNum(1.0))));
    ResetGlare(updated.(cfg := s.cfg))
  }

  /** `Math.min(Math.max(v, -m), m)` on reals. */
  function ClampTo(v: real, m: real): real {
    if v < -m then -m else if v > m then m else v
  }

  /** Dividing by a positive number and multiplying back is the identity. */
  lemma DivMulCancel(a: real, d: real)
    requires d > 0.0
    ensures (a / d) * d == a
  {
  }

  /** The fraction `f` of `[-max, max]` at which a start angle sits, clamped to the
      unit interval (`x`), gives back the start angle (clamped) through both tilt
      formulas. */
  lemma RestFraction(start: real, max: real, f: real) returns (x: real)
    requires max > 0.0 && f * (2.0 * max) == start + max
    ensures Clamp01(Fin(f)) == Fin(x)
    ensures max - x * max * 2.0 == -ClampTo(start, max)
    ensures x * max * 2.0 - max == ClampTo(start, max)
  {
    if start < -max {
      assert f < 0.0 by { assert f * (2.0 * max) < 0.0; }
      x := 0.0;
    } else if start > max {
      assert f > 1.0 by { assert f * (2.0 * max) > 2.0 * max; }
      x := 1.0;
    } else {
      assert 0.0 <= f <= 1.0 by {
        assert f * (2.0 * max) >= 0.0;
        assert f * (2.0 * max) <= 2.0 * max;
      }
      assert f * max * 2.0 == start + max;
      x := f;
    }
  }

  /** Scaling a fraction by a positive length and dividing by it again gives the
      fraction back. */
  lemma ScaleAndNormalize(f: real, size: real)
    requires size > 0.0
    ensures Div(Mul(Fin(f), Fin(size)), Fin(size)) == Fin(f)
  {
    var g := (f * size) / size;
    assert g * size == f * size;
    assert g == f by {
      assert (g - f) * size == 0.0;
    }
  }

  /** Placing a fraction along a positive length from `origin` and normalising by
      that length gives the fraction back. */
  lemma PlaceAndNormalize(origin: real, f: real, size: real)
    requires size > 0.0
    ensures Div(Sub(Add(Fin(origin), Mul(Fin(f), Fin(size))), Fin(origin)), Fin(size)) == Fin(f)
  {
    ScaleAndNormalize(f, size);
    assert origin + f * size - origin == f * size;
  }

  /** The fraction of `[-max, max]` at which `start` sits, as `reset` computes it. */
  lemma StartFraction(start: real, max: real) returns (f: real)
    requires max > 0.0
    ensures Div(Fin(start + max), Fin(2.0 * max)) == Fin(f)
    ensures f * (2.0 * max) == start + max
  {
    f := (start + max) / (2.0 * max);
    DivMulCancel(start + max, 2.0 * max);
  }

  /** Along one axis, the rest pointer placed on a positive length from `origin`
      and normalised again yields, through both tilt formulas, the start angle
      clamped to `[-max, max]`. */
  lemma AxisAtRest(sign: real, start: real, max: real, origin: real, size: real)
    requires max > 0.0 && size > 0.0
    ensures var f := Div(Fin(start + max), Fin(2.0 * max));
            var n := Clamp01(Div(Sub(Add(Fin(origin), Mul(f, Fin(size))), Fin(origin)), Fin(size)));
            TiltFromX(sign, max, n) == Fin(sign * -ClampTo(start, max)) &&
            TiltFromY(sign, max, n) == Fin(sign * ClampTo(start, max))
  {
    var fr := StartFraction(start, max);
    PlaceAndNormalize(origin, fr, size);
    var x := RestFraction(start, max, fr);
    TiltsAt(sign, max, x, x, -ClampTo(start, max), ClampTo(start, max));
  }

  /** `AxisAtRest` on the page, where no origin is added or subtracted. */
  lemma PageAxisAtRest(sign: real, start: real, max: real, size: real)
    requires max > 0.0 && size > 0.0
    ensures var f := Div(Fin(start + max), Fin(2.0 * max));
            var n := Clamp01(Div(Mul(f, Fin(size)), Fin(size)));
            TiltFromX(sign, max, n) == Fin(sign * -ClampTo(start, max)) &&
            TiltFromY(sign, max, n) == Fin(sign * ClampTo(start, max))
  {
    var fr := StartFraction(start, max);
    ScaleAndNormalize(fr, size);
    var x := RestFraction(start, max, fr);
    TiltsAt(sign, max, x, x, -ClampTo(start, max), ClampTo(start, max));
  }

  /** The values `update` computes for the rest pointer: the start angles,
      clamped to `[-max, max]`, with the reverse sign applied. */
  lemma RestValues(c: Config, measured: Rect, view: Viewport)
    requires c.max > 0.0
    requires c.fullPageListening ==> view.width > 0.0 && view.height > 0.0
    requires !c.fullPageListening ==> measured.width > 0.0 && measured.height > 0.0
    ensures var t := GetValues(c, measured, view, RestPointer(c, measured, view));
            t.tiltX == Fin(ReverseSign(c) * -ClampTo(c.startX, c.max)) &&
            t.tiltY == Fin(ReverseSign(c) * ClampTo(c.startY, c.max))
  {
    if c.fullPageListening {
      RestXOnPage(c, measured, view);
      RestYOnPage(c, measured, view);
    } else {
      RestXOnElement(c, measured, view);
      RestYOnElement(c, measured, view);
    }
  }

  /** The horizontal tilt at rest when the whole page is the surface. */
  lemma RestXOnPage(c: Config, measured: Rect, view: Viewport)
    requires c.max > 0.0 && c.fullPageListening && view.width > 0.0
    ensures TiltFromX(ReverseSign(c), c.max, Normalize(c.fullPageListening, measured, view, RestPointer(c, measured, view)).0)
            == Fin(ReverseSign(c) * -ClampTo(c.startX, c.max))
  {
    PageAxisAtRest(ReverseSign(c), c.startX, c.max, view.width);
  }

  /** The vertical tilt at rest when the whole page is the surface. */
  lemma RestYOnPage(c: Config, measured: Rect, view: Viewport)
    requires c.max > 0.0 && c.fullPageListening && view.height > 0.0
    ensures TiltFromY(ReverseSign(c), c.max, Normalize(c.fullPageListening, measured, view, RestPointer(c, measured, view)).1)
            == Fin(ReverseSign(c) * ClampTo(c.startY, c.max))
  {
    PageAxisAtRest(ReverseSign(c), c.startY, c.max, view.height);
  }

  /** The horizontal tilt at rest when the element is the surface. */
  lemma RestXOnElement(c: Config, measured: Rect, view: Viewport)
    requires c.max > 0.0 && !c.fullPageListening && measured.width > 0.0
    ensures TiltFromX(ReverseSign(c), c.max, Normalize(c.fullPageListening, measured, view, RestPointer(c, measured, view)).0)
            == Fin(ReverseSign(c) * -ClampTo(c.startX, c.max))
  {
    AxisAtRest(ReverseSign(c), c.startX, c.max, measured.left, measured.width);
  }

  /** The vertical tilt at rest when the element is the surface. */
  lemma RestYOnElement(c: Config, measured: Rect, view: Viewport)
    requires c.max > 0.0 && !c.fullPageListening && measured.height > 0.0
    ensures TiltFromY(ReverseSign(c), c.max, Normalize(c.fullPageListening, measured, view, RestPointer(c, measured, view)).1)
            == Fin(ReverseSign(c) * ClampTo(c.startY, c.max))
  {
    AxisAtRest(ReverseSign(c), c.startY, c.max, measured.top, measured.height);
  }

  /** The tilt formulas at known normalised coordinates. */
  lemma TiltsAt(sign: real, max: real, xv: real, yv: real, tx: real, ty: real)
    requires max - xv * max * 2.0 == tx
    requires yv * max * 2.0 - max == ty
    ensures TiltFromX(sign, max, Fin(xv)) == Fin(sign * tx)
    ensures TiltFromY(sign, max, Fin(yv)) == Fin(sign * ty)
  {
  }

  /** `reset` puts the element at the configured start angles, clamped to
      `[-max, max]`: tilt `(-reverse * startX, reverse * startY)`. */
  lemma ResetRestsAtStart(s: Instance, measured: Rect)
    requires s.cfg.max > 0.0
    requires s.cfg.fullPageListening ==> s.view.width > 0.0 && s.view.height > 0.0
    requires !s.cfg.fullPageListening ==> measured.width > 0.0 && measured.height > 0.0
    ensures var t := Reset(s, measured).lastChange;
            var sign := ReverseSign(s.cfg);
            t.tiltX == Fin(sign * -ClampTo(s.cfg.startX, s.cfg.max)) &&
            t.tiltY == Fin(sign * ClampTo(s.cfg.startY, s.cfg.max))
  {
    RestValues(s.cfg, measured, s.view);
  }

  /** With the defaults (`startX = startY = 0`) a reset lays the element flat. */
  lemma ResetWithZeroStartIsLevel(s: Instance, measured: Rect)
    requires s.cfg.max > 0.0 && s.cfg.startX == 0.0 && s.cfg.startY == 0.0
    requires s.cfg.fullPageListening ==> s.view.width > 0.0 && s.view.height > 0.0
    requires !s.cfg.fullPageListening ==> measured.width > 0.0 && measured.height > 0.0
    ensures Reset(s, measured).lastChange.tiltX == Fin(0.0)
    ensures Reset(s, measured).lastChange.tiltY == Fin(0.0)
  {
    ResetRestsAtStart(s, measured);
  }

  /** The mouse-enter handler: remeasure. */
  function OnMouseEnter(s: Instance, measured: Rect): (r: Instance)
    ensures r.rect == measured
    ensures r.(rect := s.rect) == s
  {
    s.(rect := measured)
  }

  /** The mouse-move handler: cancel the pending update if any, store the sample,
      queue one update. */
  function OnMouseMove(s: Instance, x: real, y: real): (r: Instance)
    ensures r.event == Pointer(Fin(x), Fin(y)) && r.updatePending
    ensures OnePending(s) ==> OnePending(r)
    ensures Count(r.frameQueue, RunReset) == Count(s.frameQueue, RunReset)
    ensures r.frameQueue == (if s.updatePending then CancelUpdate(s.frameQueue) else s.frameQueue) + [RunUpdate]
    ensures r.(event := s.event, frameQueue := s.frameQueue, updatePending := s.updatePending) == s
  {
    var q := if s.updatePending then CancelUpdate(s.frameQueue) else s.frameQueue;
    CountAppend(q, [RunUpdate], RunUpdate);
    CountAppend(q, [RunUpdate], RunReset);
    CountZero(q, RunUpdate);
    CountZero(s.frameQueue, RunUpdate);
    s.(event := Pointer(Fin(x), Fin(y)), frameQueue := q + [RunUpdate], updatePending := true)
  }

  /** The mouse-leave handler: queue a reset when `reset` is truthy. */
  function OnMouseLeave(s: Instance): (r: Instance)
    ensures r.cfg.reset <==> Count(r.frameQueue, RunReset) == Count(s.frameQueue, RunReset) + 1
    ensures r.cfg.reset ==> r.frameQueue == s.frameQueue + [RunReset]
    ensures r.(frameQueue := s.frameQueue) == s
    ensures OnePending(s) ==> OnePending(r)
  {
    CountAppend(s.frameQueue, [RunReset], RunReset);
    CountAppend(s.frameQueue, [RunReset], RunUpdate);
    if s.cfg.reset then s.(frameQueue := s.frameQueue + [RunReset]) else s
  }

  /** The resize handler, present only with glare or full-page listening:
      remeasure the client size. */
  function OnWindowResize(s: Instance, view: Viewport): (r: Instance)
    ensures r.view == (if s.listensResize then view else s.view)
    ensures r.(view := s.view) == s
  {
    if s.listensResize then s.(view := view) else s
  }

  /** One calibration step of the orientation handler: while samples remain, seed
      the baseline with the first sample and then average each new sample with
      it, and count the sample. */
  function Calibrate(g: Gyro, gamma: real, beta: real): (r: Gyro)
    ensures g.samples <= 0.0 ==> r == g
    ensures g.samples > 0.0 ==> r.samples == g.samples - 1.0 && r.zero.Some?
    ensures g.samples > 0.0 && g.zero.None? ==> r.zero == Some(Baseline(gamma, beta))
    ensures g.samples > 0.0 && g.zero.Some? ==>
              r.zero == Some(Baseline((gamma + g.zero.value.gamma) / 2.0, (beta + g.zero.value.beta) / 2.0))
  {
    if g.samples > 0.0 then
      match g.zero
      case None => Gyro(g.samples - 1.0, Some(Baseline(gamma, beta)))
      case Some(z) => Gyro(g.samples - 1.0, Some(Baseline((gamma + z.gamma) / 2.0, (beta + z.beta) / 2.0)))
    else g
  }

  /** The synthetic pointer the orientation handler feeds to `update`: the
      deviation from the baseline, over the configured angle range, scaled to
      the element's size. A `null` baseline counts as 0. */
  function GyroPointer(c: Config, rect: Rect, zero: Option<Baseline>, gamma: real, beta: real): Pointer {
    var perPixelX := Div(Fin(c.gyroMaxX - c.gyroMinX), Fin(rect.width));
    var perPixelY := Div(Fin(c.gyroMaxY - c.gyroMinY), Fin(rect.height));
    var zeroGamma := if zero.Some? then zero.value.gamma else 0.0;
    var zeroBeta := if zero.Some? then zero.value.beta else 0.0;
    var posX := Div(Fin(gamma - (c.gyroMinX + zeroGamma)), perPixelX);
    var posY := Div(Fin(beta - (c.gyroMinY + zeroBeta)), perPixelY);
    Pointer(Add(posX, Fin(rect.left)), Add(posY, Fin(rect.top)))
  }

  /** The device-orientation handler (registered only in gyroscope mode). A
      sample without `gamma` or `beta` changes nothing; otherwise remeasure,
      calibrate, store the synthetic sample and queue one update. */
  function OnDeviceOrientation(s: Instance, gamma: Option<real>, beta: Option<real>, measured: Rect): (r: Instance)
    ensures !s.listensOrientation || gamma.None? || beta.None? ==> r == s
    ensures s.listensOrientation && gamma.Some? && beta.Some? ==>
              r.gyro == Calibrate(s.gyro, gamma.value, beta.value) && r.rect == measured && r.updatePending
    ensures s.listensOrientation && gamma.Some? && beta.Some? ==>
              r.event == GyroPointer(s.cfg, measured, r.gyro.zero, gamma.value, beta.value) &&
              r.frameQueue == (if s.updatePending then CancelUpdate(s.frameQueue) else s.frameQueue) + [RunUpdate]
    ensures r.cfg == s.cfg && r.view == s.view
    ensures r.(rect := s.rect, gyro := s.gyro, event := s.event, frameQueue := s.frameQueue,
               updatePending := s.updatePending) == s
    ensures OnePending(s) ==> OnePending(r)
  {
    if !s.listensOrientation || gamma.None? || beta.None? then s
    else
      var g := Calibrate(s.gyro, gamma.value, beta.value);
      var moved := OnMouseMove(s.(rect := measured, gyro := g), 0.0, 0.0);
      moved.(event := GyroPointer(s.cfg, measured, g.zero, gamma.value, beta.value))
  }

  /** Runs the callbacks of one animation frame in the order they were queued. */
  function RunCallbacks(s: Instance, cbs: seq<Callback>, measured: Rect): (r: Instance)
    ensures cbs != [] ==> !r.updatePending
    ensures cbs == [] ==> r == s
    ensures r.frameQueue == s.frameQueue
    ensures r.cfg == s.cfg
    ensures cbs != [] ==> r.lastChange == GetValues(r.cfg, r.rect, r.view, r.event)
    decreases |cbs|
  {
    if cbs == [] then s
    else
      var next := if cbs[0] == RunUpdate then Update(s) else Reset(s, measured);
      RunCallbacks(next, cbs[1..], measured)
  }

  /** An animation frame: take the queued callbacks and run them. Afterwards
      nothing is queued and, if anything ran, no update is pending. */
  function AnimationFrame(s: Instance, measured: Rect): (r: Instance)
    ensures r.frameQueue == []
    ensures r.updatePending <==> s.updatePending && s.frameQueue == []
    ensures OnePending(s) ==> OnePending(r)
    ensures r.cfg == s.cfg
    ensures s.frameQueue != [] ==> r.lastChange == GetValues(r.cfg, r.rect, r.view, r.event)
  {
    RunCallbacks(s.(frameQueue := []), s.frameQueue, measured)
  }

  /** Input the instance reacts to. */
  datatype Event =
    | MouseEnter(rect: Rect)
    | MouseMove(x: real, y: real)
    | MouseLeave
    | Resize(view: Viewport)
    | Orientation(gamma: Option<real>, beta: Option<real>, measured: Rect)
    | Frame(layout: Rect)

  function Handle(s: Instance, e: Event): Instance {
    match e
    case MouseEnter(rect) => OnMouseEnter(s, rect)
    case MouseMove(x, y) => OnMouseMove(s, x, y)
    case MouseLeave => OnMouseLeave(s)
    case Resize(view) => OnWindowResize(s, view)
    case Orientation(gamma, beta, measured) => OnDeviceOrientation(s, gamma, beta, measured)
    case Frame(layout) => AnimationFrame(s, layout)
  }

  function HandleAll(s: Instance, es: seq<Event>): Instance
    decreases |es|
  {
    if es == [] then s else HandleAll(Handle(s, es[0]), es[1..])
  }

  /** At most one update is ever outstanding: every handler, and so every
      sequence of events, keeps the coalescing rule. */
  lemma {:induction false} EventsKeepOnePending(s: Instance, es: seq<Event>)
    requires OnePending(s)
    ensures OnePending(HandleAll(s, es))
    decreases |es|
  {
    if es != [] {
      var t := Handle(s, es[0]);
      assert OnePending(t) by {
        match es[0]
        case MouseEnter(rect) =>
        case MouseMove(x, y) =>
        case MouseLeave =>
        case Resize(view) =>
        case Orientation(gamma, beta, measured) =>
        case Frame(layout) =>
      }
      EventsKeepOnePending(t, es[1..]);
    }
  }

  /** Two moves before a frame leave exactly what the second alone leaves: the
      earlier sample is dropped, not queued. */
  lemma LatestSampleWins(s: Instance, x1: real, y1: real, x2: real, y2: real)
    requires OnePending(s)
    ensures OnMouseMove(OnMouseMove(s, x1, y1), x2, y2) == OnMouseMove(s, x2, y2)
  {
    var q := if s.updatePending then CancelUpdate(s.frameQueue) else s.frameQueue;
    CountZero(s.frameQueue, RunUpdate);
    CancelAppendUpdate(q);
  }

  lemma {:induction false} CancelAppendUpdate(q: seq<Callback>)
    requires RunUpdate !in q
    ensures CancelUpdate(q + [RunUpdate]) == q
    decreases |q|
  {
    if q == [] {
      assert q + [RunUpdate] == [RunUpdate];
    } else {
      assert (q + [RunUpdate])[1..] == q[1..] + [RunUpdate];
      CancelAppendUpdate(q[1..]);
      assert q == [q[0]] + q[1..];
    }
  }

  /** A move followed by a frame with no reset queued shows the tilt of that
      move's sample. */
  lemma FrameShowsLatestMove(s: Instance, x: real, y: real, layout: Rect)
    requires OnePending(s) && RunReset !in s.frameQueue
    ensures AnimationFrame(OnMouseMove(s, x, y), layout).lastChange ==
              GetValues(s.cfg, s.rect, s.view, Pointer(Fin(x), Fin(y)))
  {
    var m := OnMouseMove(s, x, y);
    CountZero(s.frameQueue, RunReset);
    CountZero(m.frameQueue, RunReset);
    CountZero(m.frameQueue, RunUpdate);
    SingleUpdate(m.frameQueue);
    assert m.frameQueue == [RunUpdate];
  }

  /** A queue holding one update and no reset is just that update. */
  lemma SingleUpdate(q: seq<Callback>)
    requires Count(q, RunUpdate) == 1 && RunReset !in q
    ensures q == [RunUpdate]
  {
    OnlyUpdates(q);
    assert q[0] in q;
  }

  /** A queue without resets holds nothing but updates. */
  lemma {:induction false} OnlyUpdates(q: seq<Callback>)
    requires RunReset !in q
    ensures Count(q, RunUpdate) == |q|
    decreases |q|
  {
    if q != [] {
      assert q[0] in q;
      assert forall c :: c in q[1..] ==> c in q;
      OnlyUpdates(q[1..]);
    }
  }

  /** Calibration over a sequence of (gamma, beta) samples. */
  function CalibrateAll(g: Gyro, samples: seq<Baseline>): Gyro
    decreases |samples|
  {
    if samples == [] then g
    else CalibrateAll(Calibrate(g, samples[0].gamma, samples[0].beta), samples[1..])
  }

  /** Once the counter reaches zero the baseline is frozen. */
  lemma {:induction false} CalibrationFreezes(g: Gyro, samples: seq<Baseline>)
    requires g.samples <= 0.0
    ensures CalibrateAll(g, samples) == g
    decreases |samples|
  {
    if samples != [] {
      CalibrationFreezes(g, samples[1..]);
    }
  }

  /** From a whole number `n` of samples, the counter counts down one per sample
      and stops at zero. */
  lemma {:induction false} CalibrationCounts(g: Gyro, n: nat, samples: seq<Baseline>)
    requires g.samples == n as real
    ensures CalibrateAll(g, samples).samples == (if |samples| >= n then 0.0 else (n - |samples|) as real)
    ensures |samples| > 0 && n > 0 ==> CalibrateAll(g, samples).zero.Some?
    decreases |samples|
  {
    if samples != [] {
      var h := Calibrate(g, samples[0].gamma, samples[0].beta);
      if n == 0 {
        CalibrationFreezes(g, samples);
      } else {
        CalibrationCounts(h, n - 1, samples[1..]);
        if n - 1 == 0 {
          CalibrationFreezes(h, samples[1..]);
        }
      }
    }
  }

  /** Samples within a range keep the baseline within it: the baseline is always
      an average of samples. */
  lemma {:induction false} BaselineWithinSamples(g: Gyro, samples: seq<Baseline>, lo: real, hi: real)
    requires g.zero.Some? ==> lo <= g.zero.value.gamma <= hi && lo <= g.zero.value.beta <= hi
    requires forall i :: 0 <= i < |samples| ==>
               lo <= samples[i].gamma <= hi && lo <= samples[i].beta <= hi
    ensures var r := CalibrateAll(g, samples);
            r.zero.Some? ==> lo <= r.zero.value.gamma <= hi && lo <= r.zero.value.beta <= hi
    decreases |samples|
  {
    if samples != [] {
      assert lo <= samples[0].gamma <= hi && lo <= samples[0].beta <= hi;
      var h := Calibrate(g, samples[0].gamma, samples[0].beta);
      BaselineWithinSamples(h, samples[1..], lo, hi);
    }
  }

  /** The first sample seeds the baseline and the second is averaged with it. */
  lemma CalibrateFirstTwo(n: real, a: Baseline, b: Baseline)
    requires n >= 2.0
    ensures CalibrateAll(Gyro(n, None), [a]).zero == Some(a)
    ensures CalibrateAll(Gyro(n, None), [a, b]).zero ==
              Some(Baseline((b.gamma + a.gamma) / 2.0, (b.beta + a.beta) / 2.0))
  {
    var g1 := Calibrate(Gyro(n, None), a.gamma, a.beta);
    assert CalibrateAll(Gyro(n, None), [a]) == CalibrateAll(g1, []);
    assert [a, b][1..] == [b];
    assert CalibrateAll(Gyro(n, None), [a, b]) == CalibrateAll(g1, [b]);
    assert CalibrateAll(g1, [b]) == CalibrateAll(Calibrate(g1, b.gamma, b.beta), []);
  }

  /** A range of `r` degrees over `w` pixels: `r / (r / w) == w`. */
  lemma FullRange(r: real, w: real)
    requires r > 0.0 && w > 0.0
    ensures r / (r / w) == w
  {
    var d := r / w;
    assert d * w == r;
    assert d > 0.0;
  }

  /** In element mode the orientation range spans the element: a sample at the
      baseline plus the minimum angle maps to the left (top) edge and one at the
      baseline plus the maximum angle to the right (bottom) edge. */
  lemma GyroRangeSpansElement(c: Config, rect: Rect, z: Baseline)
    requires rect.width > 0.0 && rect.height > 0.0
    requires c.gyroMaxX > c.gyroMinX && c.gyroMaxY > c.gyroMinY
    ensures GyroPointer(c, rect, Some(z), z.gamma + c.gyroMinX, z.beta + c.gyroMinY)
            == Pointer(Fin(rect.left), Fin(rect.top))
    ensures GyroPointer(c, rect, Some(z), z.gamma + c.gyroMaxX, z.beta + c.gyroMaxY)
            == Pointer(Fin(rect.left + rect.width), Fin(rect.top + rect.height))
  {
    FullRange(c.gyroMaxX - c.gyroMinX, rect.width);
    FullRange(c.gyroMaxY - c.gyroMinY, rect.height);
    assert z.gamma + c.gyroMaxX - (c.gyroMinX + z.gamma) == c.gyroMaxX - c.gyroMinX;
    assert z.beta + c.gyroMaxY - (c.gyroMinY + z.beta) == c.gyroMaxY - c.gyroMinY;
  }

  /** Dividing a half-range by its per-pixel rate gives half the size. */
  lemma HalfRange(m: real, size: real)
    requires m > 0.0 && size > 0.0
    ensures m / ((m - -m) / size) == size / 2.0
  {
    var d := (m - -m) / size;
    assert d * size == 2.0 * m;
    assert d > 0.0;
    assert (size / 2.0) * d == m;
  }

  /** A sample equal to the (updated) baseline, with a symmetric angle range,
      puts the synthetic pointer at the centre of the element, so the next frame
      lays it flat. This covers the first sample after attaching. */
  lemma NeutralOrientationIsLevel(s: Instance, gamma: real, beta: real, measured: Rect)
    requires s.listensOrientation && !s.cfg.fullPageListening
    requires measured.width > 0.0 && measured.height > 0.0
    requires s.cfg.gyroMaxX > 0.0 && s.cfg.gyroMinX == -s.cfg.gyroMaxX
    requires s.cfg.gyroMaxY > 0.0 && s.cfg.gyroMinY == -s.cfg.gyroMaxY
    requires Calibrate(s.gyro, gamma, beta).zero == Some(Baseline(gamma, beta))
    ensures var r := OnDeviceOrientation(s, Some(gamma), Some(beta), measured);
            r.event == Centre(s.cfg, measured, s.view) &&
            Update(r).lastChange.tiltX == Fin(0.0) && Update(r).lastChange.tiltY == Fin(0.0)
  {
    var c := s.cfg;
    HalfRange(c.gyroMaxX, measured.width);
    HalfRange(c.gyroMaxY, measured.height);
    assert gamma - (c.gyroMinX + gamma) == c.gyroMaxX;
    assert beta - (c.gyroMinY + beta) == c.gyroMaxY;
    var r := OnDeviceOrientation(s, Some(gamma), Some(beta), measured);
    assert r.event == Centre(c, measured, s.view);
    CentreIsLevel(c, measured, s.view);
  }

  /** The instance the constructor builds from resolved settings: the listener
      surface and subscriptions are chosen, the element is reset to its start
      angles, and only then, without `reset-to-start`, the start angles are
      zeroed for later resets. */
  function Construct(element: nat, c: Config, query: string -> Option<nat>,
                     measured: Rect, view: Viewport): (s: Instance)
    ensures && s.element == element
            && s.surface == ListenerSurface(element, c.fullPageListening, c.mouseEventElement, query)
            && (s.listensResize <==> c.glare || c.fullPageListening)
            && (s.listensOrientation <==> c.gyroscope)
            && s.frameQueue == [] && !s.updatePending && OnePending(s)
            && s.gyro == Gyro(c.gyroscopeSamples, None)
            && s.rect == measured && s.view == view
            && s.lastChange == Reset(s.(cfg := c), measured).lastChange
            && (c.resetToStart ==> s.cfg == c)
            && (!c.resetToStart ==> s.cfg == c.(startX := 0.0, startY := 0.0))
  {
    var initial := Instance(
      element,
      c,
      ListenerSurface(element, c.fullPageListening, c.mouseEventElement, query),
      c.glare || c.fullPageListening,
      c.gyroscope,
      measured,
      view,
      Pointer(NaN, NaN),
      false,
      [],
      Gyro(c.gyroscopeSamples, None),
      Transform(c.perspective, NaN, NaN, c.scale),
      GlareRest,
      TiltValues(NaN, NaN, NaN, NaN));
    var rested := Reset(initial, measured);
    assert rested.(cfg := c) == rested;
    if c.resetToStart then rested else rested.(cfg := c.(startX := 0.0, startY := 0.0))
  }

  /** `new VanillaTilt(element, settings)`: the settings are resolved and read,
      then the instance is built; `None` when an arithmetic option does not hold
      a number. */
  function Attach(element: nat, overrides: map<string, JsValue>,
                  attribute: string -> Option<string>, parse: string -> Option<JsValue>,
                  query: string -> Option<nat>, measured: Rect, view: Viewport): (r: Option<Instance>)
    ensures r.Some? <==> ToConfig(ExtendSettings(overrides, attribute, parse)).Some?
    ensures r.Some? ==>
              r.value == Construct(element, ToConfig(ExtendSettings(overrides, attribute, parse)).value,
                                   query, measured, view)
  {
    match ToConfig(ExtendSettings(overrides, attribute, parse))
    case None => None
    case Some(c) => Some(Construct(element, c, query, measured, view))
  }

  /** An element without `data-tilt-*` attributes, attached without settings,
      gets the default reading: it listens to orientation but not to resizes,
      and its reset lays it flat. */
  lemma AttachPlainElement(element: nat, attribute: string -> Option<string>,
                           parse: string -> Option<JsValue>, query: string -> Option<nat>,
                           measured: Rect, view: Viewport)
    requires forall k :: k in Defaults ==> attribute(AttributeName(k)).None?
    requires measured.width > 0.0 && measured.height > 0.0
    ensures var r := Attach(element, map[], attribute, parse, query, measured, view);
            && r.Some? && r.value.listensOrientation && !r.value.listensResize
            && r.value.lastChange.tiltX == Fin(0.0) && r.value.lastChange.tiltY == Fin(0.0)
  {
    DefaultsWhenUnset(attribute, parse);
    DefaultConfig();
    var c := ToConfig(Defaults).value;
    var s := Construct(element, c, query, measured, view);
    ResetWithZeroStartIsLevel(s.(cfg := c), measured);
  }

  /** What `VanillaTilt.init` may be handed. */
  datatype Targets = OneNode(node: nat) | NodeList(nodes: seq<nat>) | ArrayOf(items: seq<Item>) | NotAList

  /** An array entry: a node, a non-node object that already has a
      `vanillaTilt` property, another non-node object, or a primitive. */
  datatype Item = NodeItem(node: nat) | TaggedObject | PlainObject | Primitive

  /** The attached instances after `init`, and whether it threw part-way. */
  datatype InitOutcome<I> = InitOutcome(registry: map<nat, I>, threw: bool)

  function NodeItems(nodes: seq<nat>): (items: seq<Item>)
    ensures |items| == |nodes|
    ensures forall i :: 0 <= i < |nodes| ==> items[i] == NodeItem(nodes[i])
  {
    seq(|nodes|, i requires 0 <= i < |nodes| => NodeItem(nodes[i]))
  }

  function ItemNodes(items: seq<Item>): set<nat> {
    set i | 0 <= i < |items| && items[i].NodeItem? :: items[i].node
  }

  /** The `forEach` of `init`: a node not yet attached gets `make(node)`, an
      attached one is skipped; a tagged object is skipped; any other entry makes
      the constructor (or the `in` test) throw, which ends the loop with the
      earlier entries attached. */
  function AttachEach<I>(items: seq<Item>, reg: map<nat, I>, make: nat -> I): (r: InitOutcome<I>)
    ensures forall n :: n in reg ==> n in r.registry && r.registry[n] == reg[n]
    ensures forall n :: n in r.registry && n !in reg ==> r.registry[n] == make(n)
    ensures r.registry.Keys <= reg.Keys + ItemNodes(items)
    ensures !r.threw <==> forall i :: 0 <= i < |items| ==> items[i].NodeItem? || items[i].TaggedObject?
    ensures !r.threw ==> r.registry.Keys == reg.Keys + ItemNodes(items)
    decreases |items|
  {
    if items == [] then InitOutcome(reg, false)
    else
      assert ItemNodes(items) == ItemNodes(items[1..]) + (if items[0].NodeItem? then {items[0].node} else {}) by {
        forall n | n in ItemNodes(items) ensures n in ItemNodes(items[1..]) + (if items[0].NodeItem? then {items[0].node} else {}) {
          var i :| 0 <= i < |items| && items[i].NodeItem? && items[i].node == n;
          if i > 0 { assert items[1..][i - 1] == items[i]; }
        }
        forall n | n in ItemNodes(items[1..]) ensures n in ItemNodes(items) {
          var i :| 0 <= i < |items[1..]| && items[1..][i].NodeItem? && items[1..][i].node == n;
          assert items[i + 1] == items[1..][i];
        }
      }
      match items[0]
      case NodeItem(n) => AttachEach(items[1..], if n in reg then reg else reg[n := make(n)], make)
      case TaggedObject => AttachEach(items[1..], reg, make)
      case _ => InitOutcome(reg, true)
  }

  /** `VanillaTilt.init`: a single node is wrapped in a list, a node list or
      array is walked, anything else is ignored. `make` is the constructor for
      an element (`Attach` with the element's attributes and layout). */
  function Init<I>(t: Targets, reg: map<nat, I>, make: nat -> I): (r: InitOutcome<I>)
    ensures t.NotAList? ==> r == InitOutcome(reg, false)
    ensures t.OneNode? ==> !r.threw && r.registry.Keys == reg.Keys + {t.node}
    ensures forall n :: n in reg ==> n in r.registry && r.registry[n] == reg[n]
    ensures forall n :: n in r.registry && n !in reg ==> r.registry[n] == make(n)
  {
    match t
    case OneNode(n) =>
      assert ItemNodes([NodeItem(n)]) == {n} by {
        assert [NodeItem(n)][0].node == n;
      }
      AttachEach([NodeItem(n)], reg, make)
    case NodeList(ns) => AttachEach(NodeItems(ns), reg, make)
    case ArrayOf(items) => AttachEach(items, reg, make)
    case NotAList => InitOutcome(reg, false)
  }

  /** A node list attaches every listed node that was not attached yet and
      keeps every existing instance. */
  lemma InitNodeList<I>(ns: seq<nat>, reg: map<nat, I>, make: nat -> I)
    ensures var r := Init(NodeList(ns), reg, make);
            && !r.threw
            && r.registry.Keys == reg.Keys + (set i | 0 <= i < |ns| :: ns[i])
            && (forall n :: n in reg ==> r.registry[n] == reg[n])
            && (forall n :: n in r.registry && n !in reg ==> r.registry[n] == make(n))
  {
    var items := NodeItems(ns);
    assert ItemNodes(items) == set i | 0 <= i < |ns| :: ns[i] by {
      forall n | n in (set i | 0 <= i < |ns| :: ns[i]) ensures n in ItemNodes(items) {
        var i :| 0 <= i < |ns| && ns[i] == n;
        assert items[i].NodeItem? && items[i].node == n;
      }
    }
  }

  /** The page script first attaches the `.js-tilt` element with its own
      settings, then every `.js-tilt` element with none: the first element keeps
      the instance of the first call. */
  lemma FirstSettingsKept<I>(a: nat, ns: seq<nat>, reg: map<nat, I>, make1: nat -> I, make2: nat -> I)
    requires a !in reg
    ensures var r := Init(NodeList(ns), Init(OneNode(a), reg, make1).registry, make2);
            a in r.registry && r.registry[a] == make1(a)
  {
    assert ItemNodes([NodeItem(a)]) == {a} by {
      assert [NodeItem(a)][0].node == a;
    }
  }

  /** Running `init` twice on the same node list is the same as running it once. */
  lemma InitIdempotent<I>(ns: seq<nat>, reg: map<nat, I>, make: nat -> I)
    ensures var once := Init(NodeList(ns), reg, make);
            Init(NodeList(ns), once.registry, make) == once
  {
    var once := Init(NodeList(ns), reg, make);
    InitNodeList(ns, reg, make);
    var twice := Init(NodeList(ns), once.registry, make);
    InitNodeList(ns, once.registry, make);
    assert twice.registry.Keys == once.registry.Keys;
    assert forall n :: n in once.registry ==> twice.registry[n] == once.registry[n];
    assert twice.registry == once.registry;
  }
}
