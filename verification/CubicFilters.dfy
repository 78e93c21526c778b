// The polynomial filters the scaler can be given, and that none of them ever
// exhausts the row cache.

module CubicFilters {
  import opened Numbers
  import opened WeightedRows
  import opened SlotTags
  import opened ContributionWindows
  import opened ContributionWeights
  import opened LineContributions
  import opened WindowRuns
  import opened DippedFilters

  // ---------- the filters ----------

  datatype Coefficients = Coefficients(p1: real, p2: real, p3: real, q1: real, q2: real, q3: real, q4: real)

  function DeriveCubicCoefficients(b: real, c: real): Coefficients {
    var bx2 := b + b;
    Coefficients(1.0 - 1.0 / 3.0 * b, -3.0 + bx2 + c, 2.0 - 1.5 * b - c,
                 4.0 / 3.0 * b + 4.0 * c, -8.0 * c - bx2, b + 5.0 * c, -1.0 / 6.0 * b - c)
  }

  function FlexCubic(k: Coefficients, blur: real, x: real): real
    requires blur > 0.0
  {
    var t := Magnitude(x) / blur;
    if t < 1.0 then k.p1 + t * (t * (k.p2 + t * k.p3))
    else if t < 2.0 then k.q1 + t * (k.q2 + t * (k.q3 + t * k.q4))
    else 0.0
  }

  function BicubicFast(blur: real, x: real): real
    requires blur > 0.0
  {
    var t := Magnitude(x) / blur;
    var square := t * t;
    if t < 1.0 then 1.0 - 2.0 * square + square * t
    else if t < 2.0 then 4.0 - 8.0 * t + 5.0 * square - square * t
    else 0.0
  }

  function TriangleFilter(blur: real, x: real): real
    requires blur > 0.0
  {
    var t := Magnitude(x) / blur;
    if t < 1.0 then 1.0 - t else 0.0
  }

  function BoxFilter(window: real, blur: real, x: real): real
    requires blur > 0.0
  {
    if -window <= x / blur < window then 1.0 else 0.0
  }

  function CustomCubic(window: real, blur: real, b: real, c: real, goal: real): Details
    requires blur > 0.0
  {
    Details(window, (x: real) => FlexCubic(DeriveCubicCoefficients(b, c), blur, x), goal)
  }

  /** The filters made of polynomials; Linear is Triangle by another name. */
  datatype BuiltIn =
    | Triangle | Box | CubicBSpline | Hermite
    | CubicFast | Cubic | CubicSharp | CatmullRom | CatmullRomFast | CatmullRomFastSharp
    | NCubic | NCubicSharp | Fastest
    | Mitchell | MitchellFast | Robidoux | RobidouxFast | RobidouxSharp

  const ROBIDOUX_B := 0.37821575509399867
  const ROBIDOUX_C := 0.31089212245300067
  const SHARP_B := 0.2620145123990142
  const SHARP_C := 0.3689927438004929

  function DetailsOf(f: BuiltIn, goal: real): Details {
    match f
    case Triangle => Details(1.0, (x: real) => TriangleFilter(1.0, x), goal)
    case Box => Details(0.5, (x: real) => BoxFilter(0.5, 1.0, x), goal)
    case CubicBSpline => CustomCubic(2.0, 1.0, 1.0, 0.0, goal)
    case Hermite => CustomCubic(1.0, 1.0, 0.0, 0.0, goal)
    case CubicFast => Details(2.0, (x: real) => BicubicFast(1.0, x), goal)
    case Cubic => CustomCubic(2.0, 1.0, 0.0, 1.0, goal)
    case CubicSharp => CustomCubic(2.0, 0.9549963639785485, 0.0, 1.0, goal)
    case CatmullRom => CustomCubic(2.0, 1.0, 0.0, 0.5, goal)
    case CatmullRomFast => CustomCubic(1.0, 1.0, 0.0, 0.5, goal)
    case CatmullRomFastSharp => CustomCubic(1.0, 13.0 / 16.0, 0.0, 0.5, goal)
    case NCubic => CustomCubic(2.5, 1.0 / 1.1685777620836932, ROBIDOUX_B, ROBIDOUX_C, goal)
    case NCubicSharp => CustomCubic(2.5, 1.0 / 1.105822933719019, SHARP_B, SHARP_C, goal)
    case Fastest => CustomCubic(0.74, 0.74, ROBIDOUX_B, ROBIDOUX_C, goal)
    case Mitchell => CustomCubic(2.0, 1.0, 1.0 / 3.0, 1.0 / 3.0, goal)
    case MitchellFast => CustomCubic(1.0, 1.0, 1.0 / 3.0, 1.0 / 3.0, goal)
    case Robidoux => CustomCubic(2.0, 1.0, ROBIDOUX_B, ROBIDOUX_C, goal)
    case RobidouxFast => CustomCubic(1.05, 1.0, ROBIDOUX_B, ROBIDOUX_C, goal)
    case RobidouxSharp => CustomCubic(2.0, 1.0, SHARP_B, SHARP_C, goal)
  }

  // ---------- the two pieces of a cubic ----------

  function Inner(b: real, c: real, t: real): real {
    var k := DeriveCubicCoefficients(b, c);
    k.p1 + t * (t * (k.p2 + t * k.p3))
  }

  function Outer(b: real, c: real, t: real): real {
    var k := DeriveCubicCoefficients(b, c);
    k.q1 + t * (k.q2 + t * (k.q3 + t * k.q4))
  }

  /** The inner piece: a sixth of b where it ends, and more before. */
  lemma {:induction false} InnerFactors(b: real, c: real, t: real)
    ensures Inner(b, c, t) ==
      b / 6.0 + ((1.0 - b / 2.0) * ((1.0 - t) * (1.0 + 2.0 * t)) + (b / 2.0 + c) * (t * t)) * (1.0 - t)
  {}

  /** The outer piece has a double zero at two and one zero more. */
  lemma {:induction false} OuterFactors(b: real, c: real, t: real)
    ensures Outer(b, c, t) == (2.0 - t) * (2.0 - t) * (b / 3.0 + c - t * (b / 6.0 + c))
  {}

  lemma {:induction false} AtLeastShare(a: real, x: real, least: real)
    requires a >= least && x >= 0.0
    ensures a * x >= least * x
  {
    assert (a - least) * x >= 0.0;
  }

  lemma {:induction false} ProductAtLeast(a: real, x: real, a0: real, x0: real)
    requires a >= a0 > 0.0 && x >= x0 > 0.0
    ensures a * x >= a0 * x0
  {
    AtLeastShare(a, x, a0);
    AtLeastShare(x, a0, x0);
    assert a0 * x0 == x0 * a0 && x * a0 == a0 * x;
  }

  lemma {:induction false} SquareAtLeast(x: real, y: real, square: real)
    requires x >= y >= 0.0 && square == y * y
    ensures x * x >= square
  {
    assert x * x - y * y == (x - y) * (x + y);
    assert (x - y) * (x + y) >= 0.0;
  }

  // ---------- lobed cubics ----------

  /** How far from its zero a cubic is sure to be more than next to nothing. */
  const CLOSE := 0.0000004

  /** The cubics with negative lobes that dip between one and five quarters, in units of their blur. */
  predicate Lobed(b: real, c: real) {
    0.0 <= b <= 0.4 && 0.3 <= c <= 1.0 && b / 6.0 + c <= 1.0
  }

  /** The zero of a lobed cubic lies between these, at some distance from either. */
  predicate ZeroBetween(b: real, c: real, core: real, dip: real) {
    && 0.6 < core < dip < 1.2 && dip >= 1.0 && (core <= 1.0 - CLOSE || (b >= 0.2 && core > 1.0))
    && (core + CLOSE) * (b / 6.0 + c) <= b / 3.0 + c <= (dip - CLOSE) * (b / 6.0 + c)
  }

  lemma {:induction false} SharesAdd(p: real, q: real, x: real, y: real)
    requires p >= 0.3 * x && q >= 0.3 * y && x + y >= 1.0
    ensures p + q >= 0.3
  {}

  lemma {:induction false} InnerShares(b: real, c: real, t: real)
    requires Lobed(b, c) && 0.0 <= t <= 1.0
    ensures (1.0 - b / 2.0) * ((1.0 - t) * (1.0 + 2.0 * t)) + (b / 2.0 + c) * (t * t) >= 0.3
  {
    var x, y := (1.0 - t) * (1.0 + 2.0 * t), t * t;
    ProductPositive(1.0 - t, 1.0 + 2.0 * t);
    ProductPositive(t, t);
    ProductPositive(t, 1.0 - t);
    assert x + y == 1.0 + t * (1.0 - t);
    var p, q := (1.0 - b / 2.0) * x, (b / 2.0 + c) * y;
    AtLeastShare(1.0 - b / 2.0, x, 0.3);
    AtLeastShare(b / 2.0 + c, y, 0.3);
    SharesAdd(p, q, x, y);
  }

  lemma {:induction false} InnerKept(b: real, c: real, t: real)
    requires Lobed(b, c) && 0.0 <= t <= 1.0 && (t <= 1.0 - CLOSE || b >= 0.2)
    ensures Inner(b, c, t) > NOTHING && Inner(b, c, t) >= b / 6.0 + 0.3 * (1.0 - t)
  {
    hide Inner;
    var share := (1.0 - b / 2.0) * ((1.0 - t) * (1.0 + 2.0 * t)) + (b / 2.0 + c) * (t * t);
    InnerFactors(b, c, t);
    InnerShares(b, c, t);
    AtLeastShare(share, 1.0 - t, 0.3);
    InnerSum(Inner(b, c, t), b, t, share * (1.0 - t));
  }

  lemma {:induction false} InnerSum(whole: real, b: real, t: real, product: real)
    requires whole == b / 6.0 + product && product >= 0.3 * (1.0 - t) && b >= 0.0 && t <= 1.0
    requires t <= 1.0 - CLOSE || b >= 0.2
    ensures whole > NOTHING && whole >= b / 6.0 + 0.3 * (1.0 - t)
  {}

  lemma {:induction false} CloseShare(k: real)
    requires k >= 0.3
    ensures CLOSE * k >= 0.00000012
  {}

  /** On either side of its zero the outer piece's last factor is more than next to nothing. */
  lemma {:induction false} LastFactor(k: real, a: real, core: real, dip: real, t: real)
    requires k >= 0.3 && (core + CLOSE) * k <= a <= (dip - CLOSE) * k && core < dip < 1.2
    ensures t <= core ==> a - t * k >= 0.00000012
    ensures t >= dip ==> t * k - a >= 0.00000012
    ensures t >= dip && t >= 1.5 ==> t * k - a >= 0.09
  {
    var p, q, r := (core + CLOSE) * k, t * k, (dip - CLOSE) * k;
    CloseShare(k);
    if t <= core {
      var rest := (core + CLOSE - t) * k;
      assert p - q == rest;
      AtLeastShare(core + CLOSE - t, k, CLOSE);
    }
    if t >= dip {
      var rest := (t - dip + CLOSE) * k;
      assert q - r == rest;
      AtLeastShare(t - dip + CLOSE, k, CLOSE);
      if t >= 1.5 { ProductAtLeast(t - dip + CLOSE, k, 0.3, 0.3); }
    }
  }

  /** The outer piece is its last factor times a square; this is how far it is from zero. */
  lemma {:induction false} OuterAbove(b: real, c: real, t: real, last: real, square: real, rest: real)
    requires (2.0 - t) * (2.0 - t) >= square > 0.0 && last >= rest > 0.0
    ensures last == b / 3.0 + c - t * (b / 6.0 + c) ==> Outer(b, c, t) >= square * rest
    ensures -last == b / 3.0 + c - t * (b / 6.0 + c) ==> -Outer(b, c, t) >= square * rest
  {
    hide Outer;
    OuterFactors(b, c, t);
    var whole := (2.0 - t) * (2.0 - t);
    ProductAtLeast(whole, last, square, rest);
    assert whole * -last == -(whole * last);
  }

  lemma {:induction false} OuterCore(b: real, c: real, core: real, dip: real, t: real)
    requires Lobed(b, c) && ZeroBetween(b, c, core, dip) && 1.0 <= t <= core
    ensures Outer(b, c, t) > NOTHING
  {
    hide Outer;
    var k, a := b / 6.0 + c, b / 3.0 + c;
    LastFactor(k, a, core, dip, t);
    SquareAtLeast(2.0 - t, 0.8, 0.64);
    OuterAbove(b, c, t, a - t * k, 0.64, 0.00000012);
  }

  lemma {:induction false} OuterLobe(b: real, c: real, core: real, dip: real, t: real)
    requires Lobed(b, c) && ZeroBetween(b, c, core, dip) && dip <= t < 1.99
    ensures Outer(b, c, t) < -NOTHING
  {
    hide Outer;
    var k, a := b / 6.0 + c, b / 3.0 + c;
    LastFactor(k, a, core, dip, t);
    if t < 1.5 {
      SquareAtLeast(2.0 - t, 0.5, 0.25);
      OuterAbove(b, c, t, t * k - a, 0.25, 0.00000012);
    } else {
      SquareAtLeast(2.0 - t, 0.01, 0.0001);
      OuterAbove(b, c, t, t * k - a, 0.0001, 0.09);
    }
  }

  /** Next to two the outer piece is next to nothing. */
  lemma {:induction false} OuterEnd(b: real, c: real, core: real, dip: real, t: real)
    requires Lobed(b, c) && ZeroBetween(b, c, core, dip) && 1.9999 <= t <= 2.0
    ensures -NOTHING <= Outer(b, c, t) <= NOTHING
  {
    hide Outer;
    var y, k := 2.0 - t, b / 6.0 + c;
    OuterAtDistance(b, c, y);
    ProductWithin(y, k);
    SmallSquare(y);
    SmallProduct(y * y, y * k - c);
  }

  lemma {:induction false} SameFactor(b: real, c: real, y: real)
    ensures b / 3.0 + c - (2.0 - y) * (b / 6.0 + c) == y * (b / 6.0 + c) - c
  {}

  lemma {:induction false} OuterAtDistance(b: real, c: real, y: real)
    ensures Outer(b, c, 2.0 - y) == y * y * (y * (b / 6.0 + c) - c)
  {
    var t := 2.0 - y;
    OuterFactors(b, c, t);
    assert 2.0 - t == y;
    SameFactor(b, c, y);
  }

  lemma {:induction false} ProductWithin(y: real, k: real)
    requires 0.0 <= y <= 1.0 && 0.0 <= k <= 1.0
    ensures 0.0 <= y * k <= 1.0
  {
    var rest := (1.0 - y) * k;
    ProductPositive(1.0 - y, k);
    ProductPositive(y, k);
    assert rest == k - y * k;
  }

  lemma {:induction false} SmallSquare(y: real)
    requires 0.0 <= y <= 0.0001
    ensures 0.0 <= y * y <= 0.00000001
  {
    var rest := (0.0001 - y) * y;
    ProductPositive(0.0001 - y, y);
    ProductPositive(y, y);
    assert rest == 0.0001 * y - y * y;
  }

  lemma {:induction false} SmallProduct(square: real, x: real)
    requires 0.0 <= square <= 0.00000001 && -1.0 <= x <= 1.0
    ensures -NOTHING <= square * x <= NOTHING
  {
    var above, below := square * (1.0 - x), square * (1.0 + x);
    ProductPositive(square, 1.0 - x);
    ProductPositive(square, 1.0 + x);
    assert above == square - square * x && below == square + square * x;
  }

  /** Towards its end the lobe only gets shallower. */
  lemma {:induction false} OuterTail(b: real, c: real, core: real, dip: real, s: real, t: real)
    requires Lobed(b, c) && ZeroBetween(b, c, core, dip) && 1.99 <= s <= t < 2.0
    ensures Outer(b, c, s) <= Outer(b, c, t) <= 0.0
  {
    hide Outer;
    OuterAtDistance(b, c, 2.0 - s);
    OuterAtDistance(b, c, 2.0 - t);
    Shallower(2.0 - s, 2.0 - t, b / 6.0 + c, c);
  }

  lemma {:induction false} Shallower(x: real, y: real, k: real, c: real)
    requires 0.0 < y <= x <= 0.01 && 0.0 <= k <= 1.0 && c >= 0.3
    ensures x * x * (x * k - c) <= y * y * (y * k - c) <= 0.0
  {
    ProductPositive(y, y);
    SmallShare(y, k);
    ProductPositive(y * y, c - y * k);
    Deepened(x, y, k, c);
    Negated(x * x, x * k, c);
    Negated(y * y, y * k, c);
  }

  lemma {:induction false} Negated(square: real, product: real, c: real)
    ensures square * (product - c) == -(square * (c - product))
  {}

  lemma {:induction false} SmallShare(y: real, k: real)
    requires 0.0 < y <= 0.01 && 0.0 <= k <= 1.0
    ensures y * k <= 0.01
  {
    var rest := y * (1.0 - k);
    ProductPositive(y, 1.0 - k);
    assert rest == y - y * k;
  }

  lemma {:induction false} Deepened(x: real, y: real, k: real, c: real)
    requires 0.0 < y <= x <= 0.01 && 0.0 <= k <= 1.0 && c >= 0.3
    ensures x * x * (c - x * k) >= y * y * (c - y * k)
  {
    var d, m := x - y, x * x + x * y + y * y;
    SmallSum(x, y, m);
    var rest := m * (1.0 - k);
    ProductPositive(m, 1.0 - k);
    assert rest == m - k * m;
    AtLeastShare(c, x + y, 0.3);
    EnoughShare(c * (x + y), k * m, m, x, y);
    ProductPositive(d, c * (x + y) - k * m);
    CubesApart(x, y, k, c);
  }

  lemma {:induction false} CubesApart(x: real, y: real, k: real, c: real)
    ensures x * x * (c - x * k) - y * y * (c - y * k) ==
      (x - y) * (c * (x + y) - k * (x * x + x * y + y * y))
  {}

  lemma {:induction false} SmallSum(x: real, y: real, m: real)
    requires 0.0 < y <= x <= 0.01 && m == x * x + x * y + y * y
    ensures 0.0 <= m <= 0.01 * x + 0.02 * y
  {
    var p, q, r := (0.01 - x) * x, (0.01 - x) * y, (0.01 - y) * y;
    ProductPositive(0.01 - x, x);
    ProductPositive(0.01 - x, y);
    ProductPositive(0.01 - y, y);
    ProductPositive(x, x);
    ProductPositive(x, y);
    ProductPositive(y, y);
    assert p == 0.01 * x - x * x && q == 0.01 * y - x * y && r == 0.01 * y - y * y;
  }

  lemma {:induction false} EnoughShare(p: real, q: real, m: real, x: real, y: real)
    requires p >= 0.3 * (x + y) && q <= m <= 0.01 * x + 0.02 * y && x >= 0.0 && y >= 0.0
    ensures p - q >= 0.0
  {}

  // ---------- where a lobed cubic is kept ----------

  lemma {:induction false} InBlurs(x: real, blur: real, k: real)
    requires blur > 0.0
    ensures Magnitude(x) / blur >= 0.0
    ensures Magnitude(x) < blur * k <==> Magnitude(x) / blur < k
    ensures Magnitude(x) > blur * k <==> Magnitude(x) / blur > k
  {
    var t := Magnitude(x) / blur;
    assert t * blur == Magnitude(x) && blur * k == k * blur;
    if t < 0.0 { MultiplyAbove(t, 0.0, blur); }
    if t < k { MultiplyAbove(t, k, blur); }
    if k < t { MultiplyAbove(k, t, blur); }
  }

  /** The pieces of a cubic filter at so many blurs from its centre. */
  function Piece(b: real, c: real, t: real): real {
    if t < 1.0 then Inner(b, c, t) else if t < 2.0 then Outer(b, c, t) else 0.0
  }

  lemma {:induction false} FlexIsPiece(b: real, c: real, blur: real, x: real)
    requires blur > 0.0
    ensures FlexCubic(DeriveCubicCoefficients(b, c), blur, x) == Piece(b, c, Magnitude(x) / blur)
  {
    hide DeriveCubicCoefficients, Magnitude;
  }

  lemma {:induction false} KeptByPiece(window: real, blur: real, b: real, c: real, goal: real, x: real)
    requires blur > 0.0
    ensures KeptAt(CustomCubic(window, blur, b, c, goal), x) <==> Kept(Piece(b, c, Magnitude(x) / blur))
  {
    hide DeriveCubicCoefficients, FlexCubic, Piece, Magnitude, Kept;
    FlexIsPiece(b, c, blur, x);
  }

  lemma {:induction false} ZeroBounds(b: real, c: real, core: real, dip: real)
    requires ZeroBetween(b, c, core, dip)
    ensures 0.6 < core < dip < 1.2 && dip >= 1.0 && (core <= 1.0 - CLOSE || (b >= 0.2 && core > 1.0))
  {}

  lemma {:induction false} PieceIs(b: real, c: real, t: real)
    ensures Piece(b, c, t) == if t < 1.0 then Inner(b, c, t) else if t < 2.0 then Outer(b, c, t) else 0.0
  {}

  lemma {:induction false} KeptIs(w: real)
    ensures Kept(w) <==> w > NOTHING || w < -NOTHING
  {}

  /** A lobed cubic is kept in its core and its lobes, and beyond their ends no more. */
  lemma {:induction false} PieceKept(b: real, c: real, core: real, dip: real, t: real)
    requires Lobed(b, c) && ZeroBetween(b, c, core, dip) && t >= 0.0
    ensures t < core || dip < t < 1.99 ==> Kept(Piece(b, c, t))
    ensures t >= 1.9999 ==> !Kept(Piece(b, c, t))
  {
    hide Inner, Outer, Piece, Kept, Lobed, ZeroBetween;
    ZeroBounds(b, c, core, dip);
    PieceIs(b, c, t);
    KeptIs(Piece(b, c, t));
    if t < core && t < 1.0 {
      InnerKept(b, c, t);
    } else if t < core {
      OuterCore(b, c, core, dip, t);
    } else if dip < t < 1.99 {
      OuterLobe(b, c, core, dip, t);
    } else if 1.9999 <= t < 2.0 {
      OuterEnd(b, c, core, dip, t);
    }
  }

  lemma {:induction false} PieceTail(b: real, c: real, core: real, dip: real, s: real, t: real)
    requires Lobed(b, c) && ZeroBetween(b, c, core, dip) && 1.99 <= s <= t && Kept(Piece(b, c, t))
    ensures Kept(Piece(b, c, s))
  {
    hide Inner, Outer, Piece, Kept, Lobed, ZeroBetween;
    PieceIs(b, c, s);
    PieceIs(b, c, t);
    KeptIs(Piece(b, c, s));
    KeptIs(Piece(b, c, t));
    if t < 2.0 { OuterTail(b, c, core, dip, s, t); }
  }

  /** Where core, dip, lobe and reach end for a blur. */
  datatype Ends = Ends(core: real, dip: real, lobe: real, reach: real)

  function EndsAt(blur: real, core: real, dip: real): Ends {
    Ends(blur * core, blur * dip, blur * 1.99, blur * 1.9999)
  }

  lemma {:induction false} CubicKept(window: real, blur: real, b: real, c: real, goal: real, core: real, dip: real,
                                     ends: Ends, x: real)
    requires blur > 0.0 && Lobed(b, c) && ZeroBetween(b, c, core, dip) && ends == EndsAt(blur, core, dip)
    ensures var d := CustomCubic(window, blur, b, c, goal);
            && (Magnitude(x) < ends.core ==> KeptAt(d, x))
            && (ends.dip < Magnitude(x) < ends.lobe ==> KeptAt(d, x))
            && (Magnitude(x) >= ends.reach ==> !KeptAt(d, x))
  {
    hide KeptAt, CustomCubic, Piece, Kept, Lobed, ZeroBetween, Magnitude;
    InBlurs(x, blur, core);
    InBlurs(x, blur, dip);
    InBlurs(x, blur, 1.99);
    InBlurs(x, blur, 1.9999);
    KeptByPiece(window, blur, b, c, goal, x);
    PieceKept(b, c, core, dip, Magnitude(x) / blur);
  }

  lemma {:induction false} CubicTail(window: real, blur: real, b: real, c: real, goal: real, core: real, dip: real,
                                     ends: Ends, x: real, y: real)
    requires blur > 0.0 && Lobed(b, c) && ZeroBetween(b, c, core, dip) && ends == EndsAt(blur, core, dip)
    requires ends.lobe <= Magnitude(x) <= Magnitude(y) && KeptAt(CustomCubic(window, blur, b, c, goal), y)
    ensures KeptAt(CustomCubic(window, blur, b, c, goal), x)
  {
    hide KeptAt, CustomCubic, Piece, Kept, Lobed, ZeroBetween, Magnitude;
    InBlurs(x, blur, 1.99);
    KeptByPiece(window, blur, b, c, goal, x);
    KeptByPiece(window, blur, b, c, goal, y);
    DivideBelow(Magnitude(x), Magnitude(y), blur);
    PieceTail(b, c, core, dip, Magnitude(x) / blur, Magnitude(y) / blur);
  }

  lemma {:induction false} CubicDips(window: real, blur: real, b: real, c: real, goal: real, core: real, dip: real,
                                     ends: Ends)
    requires blur > 0.0 && Lobed(b, c) && ZeroBetween(b, c, core, dip) && ends == EndsAt(blur, core, dip)
    requires ends.core > 0.5
    ensures Dips(CustomCubic(window, blur, b, c, goal), ends.core, ends.dip, ends.lobe, ends.reach)
  {
    hide KeptAt, CustomCubic, Lobed, ZeroBetween, Magnitude, EndsAt;
    var d := CustomCubic(window, blur, b, c, goal);
    ZeroBounds(b, c, core, dip);
    EndsOrder(blur, core, dip);
    forall x
      ensures Magnitude(x) < ends.core ==> KeptAt(d, x)
      ensures ends.dip < Magnitude(x) < ends.lobe ==> KeptAt(d, x)
      ensures Magnitude(x) >= ends.reach ==> !KeptAt(d, x)
    {
      CubicKept(window, blur, b, c, goal, core, dip, ends, x);
    }
    forall x, y | ends.lobe <= Magnitude(x) <= Magnitude(y) && KeptAt(d, y) ensures KeptAt(d, x) {
      CubicTail(window, blur, b, c, goal, core, dip, ends, x, y);
    }
  }

  lemma {:induction false} EndsOrder(blur: real, core: real, dip: real)
    requires blur > 0.0 && core < dip < 1.2
    ensures var ends := EndsAt(blur, core, dip); ends.core <= ends.dip < ends.lobe <= ends.reach
  {
    TimesAscends(blur, core, dip);
    TimesAscends(blur, dip, 1.99);
    TimesAscends(blur, 1.99, 1.9999);
  }

  // ---------- the lobed filters one by one ----------

  /** Which lobed filters have their dip at most one from the centre. */
  predicate IsNarrow(f: BuiltIn) {
    f in {CubicFast, Cubic, CubicSharp, CatmullRom, CatmullRomFast, CatmullRomFastSharp, NCubic, NCubicSharp, Fastest}
  }

  predicate IsWide(f: BuiltIn) {
    f in {Mitchell, MitchellFast, Robidoux, RobidouxFast, RobidouxSharp}
  }

  /** The parameters of a lobed filter. */
  function Blur(f: BuiltIn): real {
    match f
    case CubicSharp => 0.9549963639785485
    case CatmullRomFastSharp => 13.0 / 16.0
    case NCubic => 1.0 / 1.1685777620836932
    case NCubicSharp => 1.0 / 1.105822933719019
    case Fastest => 0.74
    case _ => 1.0
  }

  function B(f: BuiltIn): real {
    match f
    case NCubic => ROBIDOUX_B
    case Fastest => ROBIDOUX_B
    case Robidoux => ROBIDOUX_B
    case RobidouxFast => ROBIDOUX_B
    case NCubicSharp => SHARP_B
    case RobidouxSharp => SHARP_B
    case Mitchell => 1.0 / 3.0
    case MitchellFast => 1.0 / 3.0
    case _ => 0.0
  }

  function C(f: BuiltIn): real {
    match f
    case NCubic => ROBIDOUX_C
    case Fastest => ROBIDOUX_C
    case Robidoux => ROBIDOUX_C
    case RobidouxFast => ROBIDOUX_C
    case NCubicSharp => SHARP_C
    case RobidouxSharp => SHARP_C
    case Mitchell => 1.0 / 3.0
    case MitchellFast => 1.0 / 3.0
    case CatmullRom => 0.5
    case CatmullRomFast => 0.5
    case CatmullRomFastSharp => 0.5
    case _ => 1.0
  }

  /** Bounds of the dip, in blurs. */
  function Core(f: BuiltIn): real {
    if C(f) == ROBIDOUX_C then 1.168
    else if C(f) == SHARP_C then 1.105
    else if C(f) == 1.0 / 3.0 then 1.142
    else 0.9999996
  }

  function Dip(f: BuiltIn): real {
    if C(f) == ROBIDOUX_C then 1.169
    else if C(f) == SHARP_C then 1.1065
    else if C(f) == 1.0 / 3.0 then 1.1435
    else 1.0000004
  }

  function EndsOf(f: BuiltIn): Ends {
    EndsAt(Blur(f), Core(f), Dip(f))
  }

  lemma {:induction false} ZeroPlaced(f: BuiltIn)
    requires IsNarrow(f) || IsWide(f)
    ensures Lobed(B(f), C(f)) && ZeroBetween(B(f), C(f), Core(f), Dip(f))
  {}

  lemma {:induction false} NarrowPlaced(f: BuiltIn)
    requires IsNarrow(f)
    ensures Blur(f) > 0.0
    ensures var ends := EndsOf(f); ends.core > 0.5 && Narrow(ends.core, ends.dip, ends.lobe, ends.reach)
  {}

  lemma {:induction false} WidePlaced(f: BuiltIn)
    requires IsWide(f)
    ensures Blur(f) == 1.0
    ensures var ends := EndsOf(f);
            && ends.core > 0.5 && Wide(ends.core, ends.dip, ends.lobe, ends.reach)
            && (7.0 / 6.0 < ends.core || ends.dip < 7.0 / 6.0 < ends.lobe)
  {}

  /** The fast cubic is the cubic with b zero and c one. */
  lemma {:induction false} FastIsCubic(x: real)
    ensures BicubicFast(1.0, x) == FlexCubic(DeriveCubicCoefficients(0.0, 1.0), 1.0, x)
  {}

  /** Every lobed filter is kept where the cubic with its parameters is. */
  lemma {:induction false} LobedIsCubic(f: BuiltIn, goal: real, x: real)
    requires IsNarrow(f) || IsWide(f)
    ensures Blur(f) > 0.0
    ensures KeptAt(DetailsOf(f, goal), x) <==>
      KeptAt(CustomCubic(DetailsOf(f, goal).window, Blur(f), B(f), C(f), goal), x)
  {
    if f == CubicFast { FastIsCubic(x); }
  }

  lemma {:induction false} LobedWindow(f: BuiltIn, goal: real)
    requires IsNarrow(f) || IsWide(f)
    ensures DetailsOf(f, goal).window > 0.501
  {
    hide DeriveCubicCoefficients, Blur, B, C;
  }

  lemma {:induction false} LobedDips(f: BuiltIn, goal: real)
    requires IsNarrow(f) || IsWide(f)
    ensures DetailsOf(f, goal).window > 0.501
    ensures Dips(DetailsOf(f, goal), EndsOf(f).core, EndsOf(f).dip, EndsOf(f).lobe, EndsOf(f).reach)
  {
    hide KeptAt, CustomCubic, DetailsOf, Lobed, ZeroBetween, Blur, B, C, Core, Dip, Narrow, Wide, EndsAt;
    LobedWindow(f, goal);
    ZeroPlaced(f);
    if IsNarrow(f) { NarrowPlaced(f); } else { WidePlaced(f); }
    CubicDips(DetailsOf(f, goal).window, Blur(f), B(f), C(f), goal, Core(f), Dip(f), EndsOf(f));
    forall x ensures KeptAt(DetailsOf(f, goal), x) <==>
      KeptAt(CustomCubic(DetailsOf(f, goal).window, Blur(f), B(f), C(f), goal), x)
    {
      LobedIsCubic(f, goal, x);
    }
  }

  // ---------- filters without lobes ----------

  /** Kept between any two places where it is kept. */
  ghost predicate Convex(d: Details) {
    forall x, y, z :: x < y < z && KeptAt(d, x) && KeptAt(d, z) ==> KeptAt(d, y)
  }

  lemma {:induction false} ConvexHasNoInnerZero(d: Details, output: nat, input: nat)
    requires output > 0 && input > 0 && Convex(d)
    ensures NoInnerZero(d, output, input)
  {
    hide KeptAt, Place;
  }

  /** A filter that never grows away from its centre and is nowhere negative is kept on an interval. */
  lemma {:induction false} FallingIsConvex(d: Details)
    requires forall x, y :: Magnitude(x) <= Magnitude(y) ==> d.filter(x) >= d.filter(y) >= 0.0
    ensures Convex(d)
  {
    forall x, y, z | x < y < z && KeptAt(d, x) && KeptAt(d, z) ensures KeptAt(d, y) {
      assert Magnitude(y) <= Magnitude(x) || Magnitude(y) <= Magnitude(z);
      assert d.filter(y) >= d.filter(if Magnitude(y) <= Magnitude(x) then x else z) >= 0.0;
    }
  }

  lemma {:induction false} HermiteFalls(s: real, t: real)
    requires 0.0 <= s <= t <= 1.0
    ensures (1.0 - s) * (1.0 - s) * (1.0 + 2.0 * s) >= (1.0 - t) * (1.0 - t) * (1.0 + 2.0 * t) >= 0.0
  {
    var p := s * (3.0 - 2.0 * s - t) + t * (3.0 - 2.0 * t - s);
    ProductPositive(s, 3.0 - 2.0 * s - t);
    ProductPositive(t, 3.0 - 2.0 * t - s);
    ProductPositive(t - s, p);
    assert (1.0 - s) * (1.0 - s) * (1.0 + 2.0 * s) - (1.0 - t) * (1.0 - t) * (1.0 + 2.0 * t) == (t - s) * p;
    ProductPositive(1.0 - t, 1.0 - t);
    ProductPositive((1.0 - t) * (1.0 - t), 1.0 + 2.0 * t);
  }

  lemma {:induction false} SplineFalls(s: real, t: real)
    requires 0.0 <= s <= t <= 1.0
    ensures SplineShare(s) >= SplineShare(t) >= 0.0
  {
    var p := s * (1.0 - s / 2.0 - t / 2.0) + t * (1.0 - t / 2.0);
    ProductPositive(s, 1.0 - s / 2.0 - t / 2.0);
    ProductPositive(t, 1.0 - t / 2.0);
    ProductPositive(t - s, p);
    assert SplineShare(s) - SplineShare(t) == (t - s) * p;
    ProductPositive(1.0 - t, 1.0 + 2.0 * t);
    ProductPositive(t, t);
    ProductPositive(0.5 * ((1.0 - t) * (1.0 + 2.0 * t)) + 0.5 * (t * t), 1.0 - t);
  }

  function SplineShare(t: real): real {
    (0.5 * ((1.0 - t) * (1.0 + 2.0 * t)) + 0.5 * (t * t)) * (1.0 - t)
  }

  lemma {:induction false} InnerIs(t: real)
    ensures Inner(0.0, 0.0, t) == (1.0 - t) * (1.0 - t) * (1.0 + 2.0 * t)
    ensures Inner(1.0, 0.0, t) == 1.0 / 6.0 + SplineShare(t)
  {
    hide Inner;
    InnerFactors(0.0, 0.0, t);
    InnerFactors(1.0, 0.0, t);
  }

  lemma {:induction false} InnerFalls(s: real, t: real)
    requires 0.0 <= s <= t <= 1.0
    ensures Inner(0.0, 0.0, s) >= Inner(0.0, 0.0, t) >= 0.0
    ensures Inner(1.0, 0.0, s) >= Inner(1.0, 0.0, t) >= 1.0 / 6.0
  {
    hide Inner, SplineShare;
    InnerIs(s);
    InnerIs(t);
    HermiteFalls(s, t);
    SplineFalls(s, t);
  }

  lemma {:induction false} OuterCube(t: real)
    ensures Outer(0.0, 0.0, t) == 0.0 && Outer(1.0, 0.0, t) == (2.0 - t) * (2.0 - t) * (2.0 - t) / 6.0
  {
    hide Outer;
    OuterFactors(0.0, 0.0, t);
    OuterFactors(1.0, 0.0, t);
  }

  lemma {:induction false} CubeFalls(x: real, y: real)
    requires x >= y >= 0.0
    ensures x * x * x / 6.0 >= y * y * y / 6.0
  {
    ProductPositive(x, x);
    ProductPositive(x, y);
    ProductPositive(y, y);
    ProductPositive(x - y, x * x + x * y + y * y);
    assert x * x * x - y * y * y == (x - y) * (x * x + x * y + y * y);
  }

  lemma {:induction false} OuterFalls(s: real, t: real)
    requires 1.0 <= s <= t <= 2.0
    ensures Outer(0.0, 0.0, s) == 0.0 == Outer(0.0, 0.0, t)
    ensures 1.0 / 6.0 >= Outer(1.0, 0.0, s) >= Outer(1.0, 0.0, t) >= 0.0
  {
    hide Outer;
    OuterCube(s);
    OuterCube(t);
    CubeFalls(2.0 - s, 2.0 - t);
    CubeFalls(1.0, 2.0 - s);
    CubeFalls(2.0 - t, 0.0);
  }

  lemma {:induction false} PieceFalls(b: real, s: real, t: real)
    requires (b == 0.0 || b == 1.0) && 0.0 <= s <= t
    ensures Piece(b, 0.0, s) >= Piece(b, 0.0, t) >= 0.0
  {
    hide Inner, Outer;
    if s < 1.0 { InnerFalls(s, if t < 1.0 then t else 1.0); }
    if 1.0 <= t < 2.0 { OuterFalls(if s < 1.0 then 1.0 else s, t); }
    if 1.0 <= s < 2.0 { OuterFalls(s, 2.0); }
  }

  lemma {:induction false} PlainIsConvex(f: BuiltIn, goal: real)
    requires f.CubicBSpline? || f.Hermite? || f.Triangle? || f.Box?
    ensures Convex(DetailsOf(f, goal)) && DetailsOf(f, goal).window >= 0.0
  {
    hide Inner, Outer;
    var d := DetailsOf(f, goal);
    if !f.Box? {
      forall x, y | Magnitude(x) <= Magnitude(y) ensures d.filter(x) >= d.filter(y) >= 0.0 {
        if !f.Triangle? {
          var b := if f.Hermite? then 0.0 else 1.0;
          FilterIsPiece(d.window, b, 0.0, goal, x);
          FilterIsPiece(d.window, b, 0.0, goal, y);
          PieceFalls(b, Magnitude(x), Magnitude(y));
        }
      }
      FallingIsConvex(d);
    }
  }

  lemma {:induction false} FilterIsPiece(window: real, b: real, c: real, goal: real, x: real)
    ensures CustomCubic(window, 1.0, b, c, goal).filter(x) == Piece(b, c, Magnitude(x))
  {
    hide DeriveCubicCoefficients, FlexCubic, Piece, Magnitude;
    FlexIsPiece(b, c, 1.0, x);
    assert Magnitude(x) / 1.0 == Magnitude(x);
  }

  // ---------- what holds for all of them ----------

  /** No polynomial filter the scaler can be given ever makes it run out of row slots, at any sizes. */
  lemma {:induction false} BuiltInNeverFull(f: BuiltIn, goal: real, windows: seq<Window>, output: nat, input: nat,
                                            sharpenRatio: real)
    requires MadeBy(windows, DetailsOf(f, goal), output, input, sharpenRatio)
    ensures NeverFull(windows)
  {
    hide *;
    var d := DetailsOf(f, goal);
    var ends := EndsOf(f);
    WhichKind(f);
    if IsNarrow(f) {
      LobedDips(f, goal);
      NarrowPlaced(f);
      NarrowNeverFull(windows, d, ends.core, ends.dip, ends.lobe, ends.reach, output, input, sharpenRatio);
    } else if IsWide(f) {
      LobedDips(f, goal);
      WidePlaced(f);
      SeventhsKept(d, ends);
      WideNeverFull(windows, d, ends.core, ends.dip, ends.lobe, ends.reach, output, input, sharpenRatio);
    } else {
      PlainIsConvex(f, goal);
      SizesPositive(windows, d, output, input, sharpenRatio);
      ConvexHasNoInnerZero(d, output, input);
      IntervalNeverFull(windows, d, output, input, sharpenRatio);
    }
  }

  lemma {:induction false} WhichKind(f: BuiltIn)
    ensures IsNarrow(f) || IsWide(f) || f.CubicBSpline? || f.Hermite? || f.Triangle? || f.Box?
  {}

  lemma {:induction false} SeventhsKept(d: Details, ends: Ends)
    requires Dips(d, ends.core, ends.dip, ends.lobe, ends.reach)
    requires 7.0 / 6.0 < ends.core || ends.dip < 7.0 / 6.0 < ends.lobe
    ensures !SeventhsVanish(d)
  {
    hide KeptAt;
  }

  lemma {:induction false} SizesPositive(windows: seq<Window>, d: Details, output: nat, input: nat, sharpenRatio: real)
    requires MadeBy(windows, d, output, input, sharpenRatio)
    ensures output > 0 && input > 0
  {}

  /** Not that their windows never fall back: with CatmullRomFastSharp the fifth of eight rows made from three starts
      and ends before the fourth. */
  lemma {:induction false} BuiltInFallsBack(goal: real, windows: seq<Window>, sharpenRatio: real)
    requires MadeBy(windows, DetailsOf(CatmullRomFastSharp, goal), 8, 3, sharpenRatio)
    ensures FallsBack(windows[3], windows[4])
  {
    hide WindowOf, ErasesAt, DetailsOf;
    FastSharpRow(goal, 3, sharpenRatio);
    FastSharpRow(goal, 4, sharpenRatio);
  }

  lemma {:induction false} FastSharpRow(goal: real, u: nat, sharpenRatio: real)
    requires u == 3 || u == 4
    requires DetailsOf(CatmullRomFastSharp, goal).window >= 0.0
    requires !ErasesAt(DetailsOf(CatmullRomFastSharp, goal), u, 8, 3, sharpenRatio)
    ensures var w := WindowOf(DetailsOf(CatmullRomFastSharp, goal), u, 8, 3, sharpenRatio);
            if u == 3 then w.left == 1 && w.right == 2 else w.left == 0 && w.right == 1
  {
    hide WindowOf, LeftPixel, RightPixel, ErasesAt, KeptAt, Place, Center, DetailsOf, EndsAt, Core, Dip;
    var f := CatmullRomFastSharp;
    var d, ends := DetailsOf(f, goal), EndsOf(f);
    LobedDips(f, goal);
    FastSharpEnds();
    FastSharpZero(goal);
    EnlargedCentre(u, 8, 3);
    forall ix: int ensures Place(u, 8, 3, ix) == ix as real - Center(u, 8, 3) { EnlargedPlace(u, 8, 3, ix); }
    WindowEnds(d, u, 8, 3, sharpenRatio);
    var i := if u == 3 then 1 else 0;
    assert KeptAt(d, Place(u, 8, 3, i)) && KeptAt(d, Place(u, 8, 3, i + 1));
    KeptHeld(d, ends.core, ends.dip, ends.lobe, ends.reach, u, 8, 3, sharpenRatio, i);
    KeptHeld(d, ends.core, ends.dip, ends.lobe, ends.reach, u, 8, 3, sharpenRatio, i + 1);
  }

  lemma {:induction false} FastSharpEnds()
    ensures var ends := EndsOf(CatmullRomFastSharp);
            0.8 < ends.core && ends.dip < 0.82 && ends.lobe > 1.6 && ends.reach <= 2.0
  {}

  lemma {:induction false} FastSharpZero(goal: real)
    ensures !KeptAt(DetailsOf(CatmullRomFastSharp, goal), 0.8125)
    ensures !KeptAt(DetailsOf(CatmullRomFastSharp, goal), -0.8125)
  {
    hide KeptAt, CustomCubic, Inner, Outer, Kept;
    KeptByPiece(1.0, 0.8125, 0.0, 0.5, goal, 0.8125);
    KeptByPiece(1.0, 0.8125, 0.0, 0.5, goal, -0.8125);
    OuterFactors(0.0, 0.5, 1.0);
    KeptIs(0.0);
  }

  // ---------- a cubic that does run out ----------

  /** A custom cubic of the same family, its zero at seven sixths; b and c are close to those of Robidoux. */
  function SeventhsCubic(goal: real): Details {
    CustomCubic(2.0, 1.0, 0.375, 0.3125, goal)
  }

  lemma {:induction false} SeventhsDips(goal: real)
    ensures Dips(SeventhsCubic(goal), 1.166, 1.1675, 1.99, 1.9999) && Wide(1.166, 1.1675, 1.99, 1.9999)
    ensures SeventhsVanish(SeventhsCubic(goal))
  {
    hide KeptAt, CustomCubic, Piece, Kept;
    CubicDips(2.0, 1.0, 0.375, 0.3125, goal, 1.166, 1.1675, EndsAt(1.0, 1.166, 1.1675));
    KeptByPiece(2.0, 1.0, 0.375, 0.3125, goal, 7.0 / 6.0);
    KeptByPiece(2.0, 1.0, 0.375, 0.3125, goal, -7.0 / 6.0);
    SeventhsPiece();
  }

  lemma {:induction false} SeventhsPiece()
    ensures !Kept(Piece(0.375, 0.3125, Magnitude(7.0 / 6.0) / 1.0))
    ensures !Kept(Piece(0.375, 0.3125, Magnitude(-7.0 / 6.0) / 1.0))
  {
    hide Outer, Inner;
    OuterFactors(0.375, 0.3125, 7.0 / 6.0);
  }

  /** Its lobe is shallow, and near its centre it is well above zero. */
  lemma {:induction false} SeventhsBounds(goal: real, x: real)
    ensures SeventhsCubic(goal).filter(x) >= -0.0655
    ensures -0.5 <= x <= 0.5 ==> SeventhsCubic(goal).filter(x) >= 0.2125
  {
    hide Inner, Outer, Piece;
    var t := Magnitude(x);
    FilterIsPiece(2.0, 0.375, 0.3125, goal, x);
    PieceIs(0.375, 0.3125, t);
    if t < 1.0 {
      InnerKept(0.375, 0.3125, t);
    } else if t < 2.0 {
      OuterAtDistance(0.375, 0.3125, 2.0 - t);
      LobeShallow(2.0 - t);
    }
  }

  lemma {:induction false} LobeShallow(y: real)
    requires 0.0 <= y <= 1.0
    ensures y * y * (y * 0.375 - 0.3125) >= -0.0655
  {
    var p := y * (0.3125 - 0.375 * y);
    var square := (y - 5.0 / 12.0) * (y - 5.0 / 12.0);
    assert square >= 0.0;
    assert p == 0.3125 * 5.0 / 24.0 - 0.375 * square;
    assert y * y * (y * 0.375 - 0.3125) == -(y * p);
    if p >= 0.0 {
      var less := (0.0655 - p) * y;
      ProductPositive(0.0655 - p, y);
      assert less == 0.0655 * y - y * p;
    } else {
      ProductPositive(y, -p);
      assert y * -p == -(y * p);
    }
  }

  lemma {:induction false} TotalAtLeast(ws: seq<real>, k: nat)
    requires forall i :: 0 <= i < |ws| ==> ws[i] >= -0.0655
    requires k < |ws| ==> ws[k] >= 0.2125
    ensures Total(ws) >= (if k < |ws| then 0.278 else 0.0) - 0.0655 * |ws| as real
  {
    if ws != [] { TotalAtLeast(ws[..|ws| - 1], k); }
  }

  /** No row of the six loses its negative weights. */
  lemma {:induction false} SeventhsEraseNothing(goal: real, u: nat, sharpenRatio: real)
    requires u < 6 && sharpenRatio >= 0.0
    ensures !ErasesAt(SeventhsCubic(goal), u, 6, 4, sharpenRatio)
  {
    hide CustomCubic, SeventhsCubic, LeftPixel, RightPixel, Center, NegativeMass, PositiveMass, Total, DownscaleFactor;
    var d := SeventhsCubic(goal);
    WindowIsTwo(goal);
    WindowFits(d, u, 6, 4);
    var left, raw := LeftPixel(d, u, 6, 4), RawWeights(d, u, 6, 4);
    CenterInside(u, 6, 4);
    var k: nat := (Center(u, 6, 4) + 0.5).Floor;
    PlaceNear(u, 6, 4, k);
    NearestCovered(d, u, 6, 4, k);
    forall i | 0 <= i < |raw| ensures raw[i] >= -0.0655 && (left + i == k ==> raw[i] >= 0.2125) {
      SeventhsBounds(goal, Place(u, 6, 4, left + i));
      assert raw[i] == RawWeight(d, u, 6, 4, left + i);
    }
    TotalAtLeast(raw, k - left);
    TotalIsMasses(raw);
    NothingErased(raw, d.sharpenPercentGoal / 100.0, sharpenRatio);
  }

  lemma {:induction false} WindowIsTwo(goal: real)
    ensures SeventhsCubic(goal).window == 2.0
  {}

  /** Weights with a positive total are not erased. */
  lemma {:induction false} NothingErased(ws: seq<real>, goal: real, sharpenRatio: real)
    requires Total(ws) > 0.0 && sharpenRatio >= 0.0
    ensures !Erases(ws, goal, sharpenRatio)
  {
    hide NegativeMass, PositiveMass, Total;
    TotalIsMasses(ws);
  }

  /** So four rows enlarged to six by that custom cubic exhaust the row cache. */
  lemma {:induction false} SeventhsFillUp(goal: real, sharpenRatio: real)
    requires sharpenRatio >= 0.0
    ensures exists windows :: MadeBy(windows, SeventhsCubic(goal), 6, 4, sharpenRatio) && !NeverFull(windows)
  {
    hide WindowOf, ErasesAt, NeverFull, SeventhsCubic, KeptAt, Dips, Wide;
    var d := SeventhsCubic(goal);
    WindowIsTwo(goal);
    forall u: nat | u < 6 ensures !ErasesAt(d, u, 6, 4, sharpenRatio) { SeventhsEraseNothing(goal, u, sharpenRatio); }
    var windows := seq(6, u requires 0 <= u < 6 => WindowOf(d, u, 6, 4, sharpenRatio));
    assert MadeBy(windows, d, 6, 4, sharpenRatio);
    SeventhsDips(goal);
    FourToSixFillsUp(windows, d, 1.166, 1.1675, 1.99, 1.9999, sharpenRatio);
  }

  // ---------- Catmull-Rom interpolates ----------

  /** Places lie on a lattice as fine as the larger of the two sizes. */
  lemma {:induction false} OnLattice(u: nat, output: nat, input: nat, ix: int) returns (k: int)
    requires output > 0 && input > 0
    ensures Place(u, output, input, ix) * (2 * Max(output, input)) as real == k as real
  {
    if output < input {
      hide DownscaleFactor, Center;
      k := output * (2 * ix + 1) - input * (2 * u + 1);
      CentreScaled(u, output, input);
      ScaledLength(output, input);
      var f := DownscaleFactor(output, input);
      ReducedLattice(f, Center(u, output, input), u, output, input, ix, k);
    } else {
      hide Center, DownscaleFactor, Pitch;
      k := output * (2 * ix + 1) - input * (2 * u + 1);
      EnlargedPlace(u, output, input, ix);
      EnlargedLattice(u, output, input, ix, k);
    }
  }

  lemma {:induction false} ReducedLattice(f: real, centre: real, u: nat, output: nat, input: nat, ix: int, k: int)
    requires f * centre == u as real + 0.5 - 0.5 * f && f * input as real == output as real
    requires k == output * (2 * ix + 1) - input * (2 * u + 1)
    ensures f * (ix as real - centre) * (2 * input) as real == k as real
  {
    var n := input as real;
    Spread(f, ix as real, -centre);
    var x := f * ix as real - f * centre;
    assert x == f * (ix as real + 0.5) - (u as real + 0.5);
    assert x * (2.0 * n) == f * n * (2.0 * ix as real + 1.0) - n * (2.0 * u as real + 1.0);
    ToReals(output, input, ix, u, k);
  }

  lemma {:induction false} ToReals(output: nat, input: nat, ix: int, u: nat, k: int)
    requires k == output * (2 * ix + 1) - input * (2 * u + 1)
    ensures k as real == output as real * (2.0 * ix as real + 1.0) - input as real * (2.0 * u as real + 1.0)
  {
    assert (2 * ix + 1) as real == 2.0 * ix as real + 1.0 && (2 * u + 1) as real == 2.0 * u as real + 1.0;
    assert (output * (2 * ix + 1)) as real == output as real * (2 * ix + 1) as real;
    assert (input * (2 * u + 1)) as real == input as real * (2 * u + 1) as real;
  }

  lemma {:induction false} EnlargedLattice(u: nat, output: nat, input: nat, ix: int, k: int)
    requires 0 < input <= output && k == output * (2 * ix + 1) - input * (2 * u + 1)
    ensures (ix as real - Center(u, output, input)) * (2 * output) as real == k as real
  {
    var s, m := ScaleFactor(output, input), output as real;
    var p := (u as real + 0.5) / s;
    assert p * s == u as real + 0.5 && s * input as real == m;
    assert p * m == (u as real + 0.5) * input as real by { assert p * (s * input as real) == p * s * input as real; }
    var x := ix as real - (p - 0.5);
    assert x * (2.0 * m) == m * (2.0 * ix as real + 1.0) - 2.0 * (p * m);
    ToReals(output, input, ix, u, k);
  }

  lemma {:induction false} LatticeApart(x: real, m: nat, k: int)
    requires 0 < m <= 1000000 && x * (2 * m) as real == k as real && 1.0 - CLOSE <= x <= 1.0 + CLOSE
    ensures x == 1.0
  {
    var n, i := (2 * m) as real, k - 2 * m;
    var apart := (x - 1.0) * n;
    assert apart == i as real;
    MultiplyAtLeast(x - 1.0, CLOSE, n);
    MultiplyAtLeast(-CLOSE, x - 1.0, n);
    SmallApart(n);
    NoWholeBetween(i);
    if x > 1.0 { MultiplyAbove(0.0, x - 1.0, n); }
    if x < 1.0 { MultiplyAbove(x - 1.0, 0.0, n); }
  }

  lemma {:induction false} NoWholeBetween(i: int)
    ensures -1.0 < i as real < 1.0 ==> i == 0
  {}

  lemma {:induction false} SmallApart(n: real)
    requires 0.0 < n <= 2000000.0
    ensures CLOSE * n < 1.0 && -CLOSE * n > -1.0
  {}

  /** At up to a million rows the cubics that are one at the centre and zero at one interpolate. */
  lemma {:induction false} CatmullRomInterpolates(f: BuiltIn, goal: real, output: nat, input: nat)
    requires f in {CubicFast, Cubic, CatmullRom, CatmullRomFast}
    requires 0 < output <= 1000000 && 0 < input <= 1000000
    ensures Interpolating(DetailsOf(f, goal), output, input)
  {
    hide KeptAt, DetailsOf, InnerZero, Place;
    var d := DetailsOf(f, goal);
    forall u: nat, ix: int | u < output
      ensures InnerZero(d, output, input, Place(u, output, input, ix)) ==> IsWhole(Place(u, output, input, ix))
      ensures IsWhole(Place(u, output, input, ix)) && Place(u, output, input, ix) != 0.0 ==>
        !KeptAt(d, Place(u, output, input, ix))
    {
      var x := Place(u, output, input, ix);
      if InnerZero(d, output, input, x) {
        LobedDips(f, goal);
        UnitEnds(f);
        InnerZeroInDip(d, EndsOf(f).core, EndsOf(f).dip, EndsOf(f).lobe, EndsOf(f).reach, output, input, x);
        var k := OnLattice(u, output, input, ix);
        if x > 0.0 {
          LatticeApart(x, Max(output, input), k);
        } else {
          LatticeApart(-x, Max(output, input), -k);
        }
      }
      if IsWhole(x) && x != 0.0 { WholeNotKept(f, goal, x); }
    }
  }

  lemma {:induction false} UnitEnds(f: BuiltIn)
    requires f in {CubicFast, Cubic, CatmullRom, CatmullRomFast}
    ensures IsNarrow(f) && EndsOf(f).core == 1.0 - CLOSE && EndsOf(f).dip == 1.0 + CLOSE
  {}

  lemma {:induction false} WholeNotKept(f: BuiltIn, goal: real, x: real)
    requires f in {CubicFast, Cubic, CatmullRom, CatmullRomFast} && IsWhole(x) && x != 0.0
    ensures !KeptAt(DetailsOf(f, goal), x)
  {
    hide KeptAt, DetailsOf, CustomCubic, Inner, Outer, Piece, Kept;
    var t, c := Magnitude(x), C(f);
    WholeMagnitude(x);
    LobedIsCubic(f, goal, x);
    UnitBlur(f);
    KeptByPiece(DetailsOf(f, goal).window, 1.0, 0.0, c, goal, x);
    assert t / 1.0 == t;
    PieceIs(0.0, c, t);
    KeptIs(Piece(0.0, c, t));
    OuterFactors(0.0, c, 1.0);
  }

  lemma {:induction false} WholeMagnitude(x: real)
    requires IsWhole(x) && x != 0.0
    ensures Magnitude(x) == 1.0 || Magnitude(x) >= 2.0
  {
    var n := x.Floor;
    assert n == 1 || n == -1 || n >= 2 || n <= -2;
  }

  lemma {:induction false} UnitBlur(f: BuiltIn)
    requires f in {CubicFast, Cubic, CatmullRom, CatmullRomFast}
    ensures IsNarrow(f) && Blur(f) == 1.0 && B(f) == 0.0
  {}
}
