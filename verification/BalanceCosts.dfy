/**
  What the five balance-thickness costs measure at a point: each is a non-negative multiple of a square that vanishes
  exactly on the thicknesses it asks for, and the parts along and across the flow make up the whole gradient.
 */
module BalanceCosts {
  import opened LinearAlgebra
  import opened RealFacts
  import opened BalanceGradient

  /** What a response asks of the thickness and its slope at a point. */
  predicate Asked(resp: Response, q: Point, h: Field) {
    match resp
    case AbsMisfit => h.v == q.obs
    case AbsGradient => h.x == 0.0 && h.y == 0.0
    case AlongGradient => q.vx * h.x + q.vy * h.y == 0.0
    case AcrossGradient => q.vx * h.y - q.vy * h.x == 0.0
    case BalanceMisfit => q.vx * h.x + q.vy * h.y + h.v * (q.dvxdx + q.dvydy) + q.dhdt == q.smb - q.melt
    case Unsupported => true
  }

  function Slowed(q: Point): real
    requires q.speed >= 0.0
  {
    q.speed + 0.000000001
  }

  lemma UnitIs(q: Point, x: real, y: real)
    requires q.speed >= 0.0
    ensures Slowed(q) > 0.0
    ensures Times(Slowed(q), Unit1(q) * x + Unit2(q) * y) == q.vx * x + q.vy * y
    ensures Times(Slowed(q), -Unit2(q) * x + Unit1(q) * y) == q.vx * y - q.vy * x
  {
    var w := Slowed(q);
    Quotient(q.vx, w, Unit1(q));
    Quotient(q.vy, w, Unit2(q));
    hide Unit1;
    hide Unit2;
    Combine(w, Unit1(q), Unit2(q), q.vx, q.vy, x, y);
  }

  lemma Combine(w: real, u: real, v: real, a: real, b: real, x: real, y: real)
    requires w * u == a && w * v == b
    ensures Times(w, u * x + v * y) == a * x + b * y
    ensures Times(w, -v * x + u * y) == a * y - b * x
  {
    assert w * (u * x) == a * x && w * (v * y) == b * y;
    assert w * (u * y) == a * y && w * (-v * x) == -(b * x);
    Distribute(w, u * x, v * y);
    Distribute(w, -v * x, u * y);
  }

  /** A scaled number vanishes with the number. */
  lemma ScaledZero(w: real, s: real, r: real)
    requires w > 0.0 && Times(w, s) == r
    ensures s == 0.0 <==> r == 0.0
  {
  }

  lemma HalfSquare(c: real, s: real)
    requires c > 0.0
    ensures 0.5 * c * (s * s) >= 0.0
    ensures 0.5 * c * (s * s) == 0.0 <==> s == 0.0
  {
    SquareNonnegative(s);
    ProductNonnegative(c, s * s);
    if s > 0.0 {
      TimesPositive(s, s);
      TimesPositive(c, s * s);
    } else if s < 0.0 {
      TimesPositive(-s, -s);
      TimesPositive(c, s * s);
    }
  }

  /** The integrand as half the coefficient times a square. */
  function Residual(resp: Response, q: Point, h: Field): real
    requires q.speed >= 0.0
  {
    match resp
    case AbsMisfit => h.v - q.obs
    case AlongGradient => Unit1(q) * h.x + Unit2(q) * h.y
    case AcrossGradient => -Unit2(q) * h.x + Unit1(q) * h.y
    case BalanceMisfit => q.vx * h.x + q.vy * h.y + h.v * (q.dvxdx + q.dvydy) - (q.smb - q.melt - q.dhdt)
    case _ => 0.0
  }

  lemma CostIsSquare(resp: Response, q: Point, coef: real, h: Field)
    requires q.speed >= 0.0 && !resp.AbsGradient?
    ensures PointCost(resp, q, coef, h) == 0.5 * (coef * q.jdet * q.weight) * (Residual(resp, q, h) * Residual(resp, q, h))
  {
    hide Unit1;
    hide Unit2;
  }

  lemma GradientIsSquares(q: Point, coef: real, h: Field)
    requires q.speed >= 0.0
    ensures PointCost(AbsGradient, q, coef, h)
         == 0.5 * (coef * q.jdet * q.weight) * (h.x * h.x) + 0.5 * (coef * q.jdet * q.weight) * (h.y * h.y)
  {
  }

  /** The residual vanishes where the thickness is as asked. */
  lemma ResidualVanishesIff(resp: Response, q: Point, h: Field)
    requires q.speed >= 0.0 && !resp.AbsGradient? && !resp.Unsupported?
    ensures Residual(resp, q, h) == 0.0 <==> Asked(resp, q, h)
  {
    hide Unit1;
    hide Unit2;
    hide Times;
    hide Slowed;
    UnitIs(q, h.x, h.y);
    ScaledZero(Slowed(q), Unit1(q) * h.x + Unit2(q) * h.y, q.vx * h.x + q.vy * h.y);
    ScaledZero(Slowed(q), -Unit2(q) * h.x + Unit1(q) * h.y, q.vx * h.y - q.vy * h.x);
  }

  /** A cost vanishes exactly where the thickness is as asked, and costs something elsewhere. */
  lemma CostVanishesIff(resp: Response, q: Point, coef: real, h: Field)
    requires IsSpeed(q) && !resp.Unsupported? && coef * q.jdet * q.weight > 0.0
    ensures PointCost(resp, q, coef, h) >= 0.0
    ensures PointCost(resp, q, coef, h) == 0.0 <==> Asked(resp, q, h)
  {
    hide PointCost;
    hide Residual;
    var c := coef * q.jdet * q.weight;
    if resp.AbsGradient? {
      GradientIsSquares(q, coef, h);
      HalfSquare(c, h.x);
      HalfSquare(c, h.y);
    } else {
      hide Asked;
      CostIsSquare(resp, q, coef, h);
      HalfSquare(c, Residual(resp, q, h));
      ResidualVanishesIff(resp, q, h);
    }
  }

  /** Where the thickness is as asked, no vertex gets a gradient. */
  lemma GradientVanishes(resp: Response, q: Point, coef: real, h: Field, b: Field)
    requires IsSpeed(q) && Asked(resp, q, h)
    ensures PointGradient(resp, q, coef, h, b) == 0.0
  {
    hide Unit1;
    hide Unit2;
    match resp
    case AlongGradient =>
      DirectedVanishes(resp, q, coef, h, b);
    case AcrossGradient =>
      DirectedVanishes(resp, q, coef, h, b);
    case BalanceMisfit =>
      SameFactor(q.vx * h.x + q.vy * h.y + h.v * (q.dvxdx + q.dvydy), q.smb - q.melt - q.dhdt,
                 q.vx * b.x + q.vy * b.y + b.v * (q.dvxdx + q.dvydy));
    case _ =>
  }

  lemma DirectedVanishes(resp: Response, q: Point, coef: real, h: Field, b: Field)
    requires IsSpeed(q) && Asked(resp, q, h) && (resp.AlongGradient? || resp.AcrossGradient?)
    ensures PointGradient(resp, q, coef, h, b) == 0.0
  {
    hide Unit1;
    hide Unit2;
    ResidualVanishesIff(resp, q, h);
    var u, v := Unit1(q), Unit2(q);
    if resp.AlongGradient? {
      NoGradient(coef, h.x * u + h.y * v, b.x * u + b.y * v, q.jdet, q.weight);
    } else {
      NoGradient(coef, h.x * -v + h.y * u, b.x * -v + b.y * u, q.jdet, q.weight);
    }
  }

  lemma NoGradient(c: real, s: real, t: real, j: real, w: real)
    requires s == 0.0
    ensures -c * s * t * j * w == 0.0
  {
  }

  lemma SameFactor(a: real, b: real, t: real)
    requires a == b
    ensures a * t - b * t == 0.0
  {
  }

  /** The parts along and across the flow add up to the whole gradient, slowed by the regularised speed. */
  lemma AlongAndAcross(q: Point, coef: real, h: Field)
    requires IsSpeed(q)
    ensures var r := q.speed / (q.speed + 0.000000001);
      PointCost(AlongGradient, q, coef, h) + PointCost(AcrossGradient, q, coef, h)
      == r * r * PointCost(AbsGradient, q, coef, h)
  {
    hide PointCost;
    hide Unit1;
    hide Unit2;
    var w, r := Slowed(q), q.speed / (q.speed + 0.000000001);
    CostIsSquare(AlongGradient, q, coef, h);
    CostIsSquare(AcrossGradient, q, coef, h);
    GradientIsSquares(q, coef, h);
    UnitSquares(q, r);
    var u, v := Unit1(q), Unit2(q);
    TurnedSquares(u, v, h.x, h.y, r);
    ScaledSum(0.5 * (coef * q.jdet * q.weight), (u * h.x + v * h.y) * (u * h.x + v * h.y),
              (-v * h.x + u * h.y) * (-v * h.x + u * h.y), r, h.x * h.x, h.y * h.y);
  }

  lemma UnitSquares(q: Point, r: real)
    requires IsSpeed(q) && r == q.speed / (q.speed + 0.000000001)
    ensures Unit1(q) * Unit1(q) + Unit2(q) * Unit2(q) == r * r
  {
    var w := Slowed(q);
    Quotient(q.vx, w, Unit1(q));
    Quotient(q.vy, w, Unit2(q));
    Quotient(q.speed, w, r);
    SquaresScale(w, Unit1(q), Unit2(q), r, q.vx, q.vy, q.speed);
  }

  lemma SquaresScale(w: real, u: real, v: real, r: real, a: real, b: real, s: real)
    requires w > 0.0 && w * u == a && w * v == b && w * r == s && s * s == a * a + b * b
    ensures u * u + v * v == r * r
  {
    TimesPositive(w, w);
    SquareOf(w, u, a);
    SquareOf(w, v, b);
    SquareOf(w, r, s);
    Distribute(w * w, u * u, v * v);
    CancelEqual(u * u + v * v, r * r, w * w);
  }

  lemma SquareOf(w: real, u: real, a: real)
    requires w * u == a
    ensures w * w * (u * u) == a * a
  {
  }

  lemma TurnedSquares(u: real, v: real, x: real, y: real, r: real)
    requires u * u + v * v == r * r
    ensures (u * x + v * y) * (u * x + v * y) + (-v * x + u * y) * (-v * x + u * y) == r * r * (x * x + y * y)
  {
    assert (u * x + v * y) * (u * x + v * y) + (-v * x + u * y) * (-v * x + u * y) == (u * u + v * v) * (x * x + y * y);
  }

  lemma ScaledSum(c: real, s: real, t: real, r: real, a: real, b: real)
    requires s + t == r * r * (a + b)
    ensures c * s + c * t == r * r * (c * a + c * b)
  {
    Distribute(c, s, t);
    Distribute(c, a, b);
    assert c * (r * r * (a + b)) == r * r * (c * (a + b));
  }
}
