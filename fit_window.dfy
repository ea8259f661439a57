/** Fit windows: the ranges the scripts hand to a fitter. */
module FitWindow {
  import opened Numerics

  /** A closed range [low, high]; low > high is an empty (inverted) range. */
  datatype Window = Window(low: real, high: real) {
    predicate Contains(x: real) { low <= x <= high }
    predicate Within(outer: Window) { outer.low <= low && high <= outer.high }
  }

  /** A histogram axis [xmin, xmax]; ROOT axes are never empty. */
  type Axis = w: Window | w.low < w.high witness Window(0.0, 1.0)

  /** [centre - k*scale, centre + k*scale], not clipped. */
  function Around(centre: real, k: real, scale: real): (w: Window)
    ensures w.Contains(centre) <==> k * scale >= 0.0
    ensures w.low <= w.high <==> k * scale >= 0.0
    ensures w.high - centre == centre - w.low
  {
    Window(centre - k * scale, centre + k * scale)
  }

  /** [max(xmin, centre - k*scale), min(xmax, centre + k*scale)]: Around, with each edge clipped to the axis. */
  function ClippedAround(axis: Axis, centre: real, k: real, scale: real): (w: Window)
    ensures w.Within(axis)
    ensures w.Within(Around(centre, k, scale))
    ensures axis.Contains(centre) && k * scale >= 0.0 ==> w.Contains(centre)
    ensures Around(centre, k, scale).Within(axis) ==> w == Around(centre, k, scale)
  {
    var u := Around(centre, k, scale);
    Window(Max(axis.low, u.low), Min(axis.high, u.high))
  }
}
