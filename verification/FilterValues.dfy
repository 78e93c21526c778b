// Which curves the built-in polynomial filters are: their windows, their values
// at four points, and the laws their constants were chosen for.

module FilterValues {
  import opened Numbers
  import opened ContributionWindows
  import opened CubicFilters

  /** A filter's window and blur, and its values at none, a half, one and one and a half times the blur. */
  datatype Curve = Curve(window: real, blur: real, centre: real, half: real, knot: real, lobe: real)

  function CurveOf(f: BuiltIn): (curve: Curve)
    ensures curve.blur > 0.0
  {
    match f
    case Triangle => Curve(1.0, 1.0, 1.0, 0.5, 0.0, 0.0)
    case Box => Curve(0.5, 1.0, 1.0, 0.0, 0.0, 0.0)
    case CubicBSpline => Curve(2.0, 1.0, 0.666666667, 0.479166667, 0.166666667, 0.020833333)
    case Hermite => Curve(1.0, 1.0, 1.0, 0.5, 0.0, 0.0)
    case CubicFast => Curve(2.0, 1.0, 1.0, 0.625, 0.0, -0.125)
    case Cubic => Curve(2.0, 1.0, 1.0, 0.625, 0.0, -0.125)
    case CubicSharp => Curve(2.0, 0.9549963639785485, 1.0, 0.625, 0.0, -0.125)
    case CatmullRom => Curve(2.0, 1.0, 1.0, 0.5625, 0.0, -0.0625)
    case CatmullRomFast => Curve(1.0, 1.0, 1.0, 0.5625, 0.0, -0.0625)
    case CatmullRomFastSharp => Curve(1.0, 0.8125, 1.0, 0.5625, 0.0, -0.0625)
    case NCubic => Curve(2.5, 1.0 / 1.1685777620836932, 0.873928082, 0.530982020, 0.063035959, -0.030982020)
    case NCubicSharp => Curve(2.5, 1.0 / 1.105822933719019, 0.912661829, 0.540665457, 0.043669085, -0.040665457)
    case Fastest => Curve(0.74, 0.74, 0.873928082, 0.530982020, 0.063035959, -0.030982020)
    case Mitchell => Curve(2.0, 1.0, 0.888888889, 0.534722222, 0.055555556, -0.034722222)
    case MitchellFast => Curve(1.0, 1.0, 0.888888889, 0.534722222, 0.055555556, -0.034722222)
    case Robidoux => Curve(2.0, 1.0, 0.873928082, 0.530982020, 0.063035959, -0.030982020)
    case RobidouxFast => Curve(1.05, 1.0, 0.873928082, 0.530982020, 0.063035959, -0.030982020)
    case RobidouxSharp => Curve(2.0, 1.0, 0.912661829, 0.540665457, 0.043669085, -0.040665457)
  }

  predicate Close(x: real, y: real) {
    -0.00000001 < x - y < 0.00000001
  }

  /** The filter runs through these points. */
  predicate Fits(filter: real -> real, curve: Curve) {
    && Close(filter(0.0), curve.centre) && Close(filter(0.5 * curve.blur), curve.half)
    && Close(filter(curve.blur), curve.knot) && Close(filter(1.5 * curve.blur), curve.lobe)
  }

  lemma {:induction false} Multiple(m: real, blur: real)
    requires m >= 0.0 && blur > 0.0
    ensures Magnitude(m * blur) / blur == m
  {
    assert m * blur >= 0.0;
  }

  lemma {:induction false} MultiplesOf(blur: real)
    requires blur > 0.0
    ensures Magnitude(0.0) / blur == 0.0 && Magnitude(0.5 * blur) / blur == 0.5
    ensures Magnitude(blur) / blur == 1.0 && Magnitude(1.5 * blur) / blur == 1.5
  {
    Multiple(0.5, blur);
    Multiple(1.0, blur);
    Multiple(1.5, blur);
  }

  /** A cubic by its two parameters. */
  lemma {:induction false} CubicThrough(window: real, blur: real, b: real, c: real, goal: real)
    requires blur > 0.0
    ensures var filter := CustomCubic(window, blur, b, c, goal).filter;
            && filter(0.0) == 1.0 - b / 3.0 && filter(0.5 * blur) == 0.5 - b / 48.0 + c / 8.0
            && filter(blur) == b / 6.0 && filter(1.5 * blur) == b / 48.0 - c / 8.0
  {
    MultiplesOf(blur);
  }

  lemma {:induction false} OtherThrough(f: BuiltIn, goal: real)
    requires f == Triangle || f == Box || f == CubicFast
    ensures Fits(DetailsOf(f, goal).filter, CurveOf(f)) && DetailsOf(f, goal).window == CurveOf(f).window
  {
    MultiplesOf(1.0);
  }

  /** What a cubic filter is made of. */
  ghost predicate Made(f: BuiltIn, goal: real, b: real, c: real) {
    DetailsOf(f, goal) == CustomCubic(CurveOf(f).window, CurveOf(f).blur, b, c, goal)
  }

  lemma {:induction false} MadeThrough(f: BuiltIn, goal: real, b: real, c: real)
    requires Made(f, goal, b, c)
    requires Close(1.0 - b / 3.0, CurveOf(f).centre) && Close(0.5 - b / 48.0 + c / 8.0, CurveOf(f).half)
    requires Close(b / 6.0, CurveOf(f).knot) && Close(b / 48.0 - c / 8.0, CurveOf(f).lobe)
    ensures Fits(DetailsOf(f, goal).filter, CurveOf(f)) && DetailsOf(f, goal).window == CurveOf(f).window
    ensures DetailsOf(f, goal).sharpenPercentGoal == goal
  {
    hide CurveOf, DetailsOf;
    var curve := CurveOf(f);
    CubicThrough(curve.window, curve.blur, b, c, goal);
    WindowOf(curve.window, curve.blur, b, c, goal);
  }

  lemma {:induction false} WindowOf(window: real, blur: real, b: real, c: real, goal: real)
    requires blur > 0.0
    ensures CustomCubic(window, blur, b, c, goal).window == window
    ensures CustomCubic(window, blur, b, c, goal).sharpenPercentGoal == goal
  {}

  /** Every built-in filter has its window and runs through its four points. */
  lemma {:induction false} FilterIs(f: BuiltIn, goal: real)
    ensures Fits(DetailsOf(f, goal).filter, CurveOf(f))
    ensures DetailsOf(f, goal).window == CurveOf(f).window && DetailsOf(f, goal).sharpenPercentGoal == goal
  {
    hide Fits, CustomCubic;
    match f
    case Triangle => OtherThrough(f, goal);
    case Box => OtherThrough(f, goal);
    case CubicFast => OtherThrough(f, goal);
    case CubicBSpline => MadeThrough(f, goal, 1.0, 0.0);
    case Hermite => MadeThrough(f, goal, 0.0, 0.0);
    case Cubic => MadeThrough(f, goal, 0.0, 1.0);
    case CubicSharp => MadeThrough(f, goal, 0.0, 1.0);
    case CatmullRom => MadeThrough(f, goal, 0.0, 0.5);
    case CatmullRomFast => MadeThrough(f, goal, 0.0, 0.5);
    case CatmullRomFastSharp => MadeThrough(f, goal, 0.0, 0.5);
    case NCubic => MadeThrough(f, goal, ROBIDOUX_B, ROBIDOUX_C);
    case NCubicSharp => MadeThrough(f, goal, SHARP_B, SHARP_C);
    case Fastest => MadeThrough(f, goal, ROBIDOUX_B, ROBIDOUX_C);
    case Mitchell => MadeThrough(f, goal, 1.0 / 3.0, 1.0 / 3.0);
    case MitchellFast => MadeThrough(f, goal, 1.0 / 3.0, 1.0 / 3.0);
    case Robidoux => MadeThrough(f, goal, ROBIDOUX_B, ROBIDOUX_C);
    case RobidouxFast => MadeThrough(f, goal, ROBIDOUX_B, ROBIDOUX_C);
    case RobidouxSharp => MadeThrough(f, goal, SHARP_B, SHARP_C);
  }

  // ---------- laws ----------

  /** Wherever an output pixel lies among its four nearest input pixels, the weights of any cubic add up to one. */
  lemma {:induction false} CubicAddsUp(window: real, b: real, c: real, goal: real, t: real)
    requires 0.0 < t < 1.0
    ensures var filter := CustomCubic(window, 1.0, b, c, goal).filter;
            filter(-1.0 - t) + filter(-t) + filter(1.0 - t) + filter(2.0 - t) == 1.0
  {
    hide CustomCubic, Inner, Outer;
    Piece(window, b, c, goal, -1.0 - t);
    Piece(window, b, c, goal, -t);
    Piece(window, b, c, goal, 1.0 - t);
    Piece(window, b, c, goal, 2.0 - t);
    AddsUp(b, c, t);
  }

  lemma {:induction false} Piece(window: real, b: real, c: real, goal: real, x: real)
    ensures Magnitude(x) < 1.0 ==> CustomCubic(window, 1.0, b, c, goal).filter(x) == Inner(b, c, Magnitude(x))
    ensures 1.0 <= Magnitude(x) < 2.0 ==> CustomCubic(window, 1.0, b, c, goal).filter(x) == Outer(b, c, Magnitude(x))
  {}

  /** A piece of a cubic is linear in the two parameters. */
  lemma {:induction false} ByParameters(b: real, c: real, t: real)
    ensures Inner(b, c, t) == Inner(0.0, 0.0, t) + b * InnerB(t) + c * InnerC(t)
    ensures Outer(b, c, t) == b * OuterB(t) + c * OuterC(t)
  {
    InnerBy(b, c, t, t * t, t * t * t);
    OuterBy(b, c, t, t * t, t * t * t);
  }

  lemma {:induction false} InnerBy(b: real, c: real, t: real, square: real, cube: real)
    requires square == t * t && cube == t * t * t
    ensures Inner(b, c, t) == Inner(0.0, 0.0, t) + b * InnerB(t) + c * InnerC(t)
  {}

  lemma {:induction false} OuterBy(b: real, c: real, t: real, square: real, cube: real)
    requires square == t * t && cube == t * t * t
    ensures Outer(b, c, t) == b * OuterB(t) + c * OuterC(t)
  {}

  function InnerB(t: real): real {
    -1.0 / 3.0 + 2.0 * (t * t) - 1.5 * (t * t * t)
  }

  function InnerC(t: real): real {
    t * t - t * t * t
  }

  function OuterB(t: real): real {
    4.0 / 3.0 - 2.0 * t + t * t - t * t * t / 6.0
  }

  function OuterC(t: real): real {
    4.0 - 8.0 * t + 5.0 * (t * t) - t * t * t
  }

  lemma {:induction false} ShareB(t: real)
    ensures OuterB(1.0 + t) + InnerB(t) + InnerB(1.0 - t) + OuterB(2.0 - t) == 0.0
  {}

  lemma {:induction false} MirroredC(t: real)
    ensures OuterC(1.0 + t) == -InnerC(1.0 - t)
  {}

  lemma {:induction false} ShareC(t: real)
    ensures OuterC(1.0 + t) + InnerC(t) + InnerC(1.0 - t) + OuterC(2.0 - t) == 0.0
  {
    hide *;
    MirroredC(t);
    MirroredC(1.0 - t);
    assert 1.0 + (1.0 - t) == 2.0 - t && 1.0 - (1.0 - t) == t;
  }

  lemma {:induction false} ShareOne(t: real)
    ensures Inner(0.0, 0.0, t) + Inner(0.0, 0.0, 1.0 - t) == 1.0
  {}

  lemma {:induction false} SharesVanish(b: real, w: real, x: real, y: real, z: real)
    requires w + x + y + z == 0.0
    ensures b * w + b * x + b * y + b * z == 0.0
  {
    assert b * w + b * x + b * y + b * z == b * (w + x + y + z);
  }

  /** Four numbers, each a share of one and multiples of b and c, whose shares of b and of c vanish together. */
  lemma {:induction false} SumOfShares(w: real, x: real, y: real, z: real, b: (real, real, real, real),
                                       c: (real, real, real, real), one: real, other: real)
    requires w == b.0 + c.0 && x == one + b.1 + c.1 && y == other + b.2 + c.2 && z == b.3 + c.3
    requires b.0 + b.1 + b.2 + b.3 == 0.0 && c.0 + c.1 + c.2 + c.3 == 0.0 && one + other == 1.0
    ensures w + x + y + z == 1.0
  {}

  lemma {:induction false} AddsUp(b: real, c: real, t: real)
    ensures Outer(b, c, 1.0 + t) + Inner(b, c, t) + Inner(b, c, 1.0 - t) + Outer(b, c, 2.0 - t) == 1.0
  {
    hide *;
    ByParameters(b, c, 1.0 + t);
    ByParameters(b, c, t);
    ByParameters(b, c, 1.0 - t);
    ByParameters(b, c, 2.0 - t);
    ShareB(t);
    ShareC(t);
    ShareOne(t);
    SharesVanish(b, OuterB(1.0 + t), InnerB(t), InnerB(1.0 - t), OuterB(2.0 - t));
    SharesVanish(c, OuterC(1.0 + t), InnerC(t), InnerC(1.0 - t), OuterC(2.0 - t));
    SumOfShares(Outer(b, c, 1.0 + t), Inner(b, c, t), Inner(b, c, 1.0 - t), Outer(b, c, 2.0 - t),
                (b * OuterB(1.0 + t), b * InnerB(t), b * InnerB(1.0 - t), b * OuterB(2.0 - t)),
                (c * OuterC(1.0 + t), c * InnerC(t), c * InnerC(1.0 - t), c * OuterC(2.0 - t)),
                Inner(0.0, 0.0, t), Inner(0.0, 0.0, 1.0 - t));
  }

  /** The constants of the Robidoux filters: b + 2c is one, and with the root of two b is 12 / (19 + 9 root) or
      6 / (13 + 7 root). */
  lemma {:induction false} RobidouxConstants(root: real)
    requires root > 0.0 && root * root == 2.0
    ensures Close(ROBIDOUX_B + 2.0 * ROBIDOUX_C, 1.0) && Close(SHARP_B + 2.0 * SHARP_C, 1.0)
    ensures Close(ROBIDOUX_B * (19.0 + 9.0 * root), 12.0) && Close(SHARP_B * (13.0 + 7.0 * root), 6.0)
  {
    RootBetween(root);
  }

  lemma {:induction false} RootBetween(root: real)
    requires root > 0.0 && root * root == 2.0
    ensures 1.4142135623 < root < 1.4142135624
  {
    if root <= 1.4142135623 { SquareAtLeast(1.4142135623, root, root * root); }
    if root >= 1.4142135624 { SquareAtLeast(root, 1.4142135624, 1.4142135624 * 1.4142135624); }
  }

  /** The narrowed cubics have the zero of a Robidoux filter at one. */
  lemma {:induction false} NarrowedZero(goal: real)
    ensures Close(DetailsOf(NCubic, goal).filter(1.0), 0.0) && Close(DetailsOf(NCubicSharp, goal).filter(1.0), 0.0)
  {
    OuterFactors(ROBIDOUX_B, ROBIDOUX_C, 1.1685777620836932);
    OuterFactors(SHARP_B, SHARP_C, 1.105822933719019);
    assert Magnitude(1.0) / (1.0 / 1.1685777620836932) == 1.1685777620836932;
    assert Magnitude(1.0) / (1.0 / 1.105822933719019) == 1.105822933719019;
  }
}
