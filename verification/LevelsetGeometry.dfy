/**
  Where a level-set function crosses a triangle: the two zero points, and the distance of the vertices to the straight
  line through them. On a triangle the signed distances are proportional to the level set.
 */
module LevelsetGeometry {
  import opened LinearAlgebra
  import opened RealFacts

  datatype Vec = Vec(x: real, y: real)

  function Minus(a: Vec, b: Vec): Vec {
    Vec(a.x - b.x, a.y - b.y)
  }

  function Cross(a: Vec, b: Vec): real {
    a.x * b.y - a.y * b.x
  }

  function SquaredNorm(a: Vec): real {
    a.x * a.x + a.y * a.y
  }

  /** The point at fraction s of the way from a to b. */
  function Toward(a: Vec, b: Vec, s: real): Vec {
    Vec(a.x + s * (b.x - a.x), a.y + s * (b.y - a.y))
  }

  // ---------------------------------------------------------------- distance to a straight line

  /** norm is the square root that the program takes of the squared length of s1 - s0. */
  ghost predicate IsNorm(norm: real, s0: Vec, s1: Vec) {
    norm >= 0.0 && norm * norm == SquaredNorm(Minus(s1, s0))
  }

  /** The distance of q to the line through s0 and s1. */
  function GetDistanceToStraight(q: Vec, s0: Vec, s1: Vec, norm: real): real
    requires norm > 0.0
  {
    var a, b := Minus(q, s0), Minus(s1, s0);
    Abs(a.x * b.y - a.y * b.x) / norm
  }

  function Square(x: real): real {
    x * x
  }

  /** The squared distance of q to the point t of the line. */
  function ToPoint(q: Vec, s0: Vec, s1: Vec, t: real): real {
    SquaredNorm(Minus(q, Toward(s0, s1, t)))
  }

  /** How far the point t is from the foot of the perpendicular. */
  function FromFoot(q: Vec, s0: Vec, s1: Vec, norm: real, t: real): real {
    var a, b := Minus(q, s0), Minus(s1, s0);
    a.x * b.x + a.y * b.y - t * Square(norm)
  }

  function Foot(q: Vec, s0: Vec, s1: Vec, norm: real): real
    requires norm > 0.0
  {
    var a, b := Minus(q, s0), Minus(s1, s0);
    SquareFacts(norm, 0.0);
    (a.x * b.x + a.y * b.y) / Square(norm)
  }

  /** The distance to every point of the line is at least that, and it is reached at the foot of the perpendicular. */
  lemma DistanceIsLeast(q: Vec, s0: Vec, s1: Vec, norm: real, t: real)
    requires norm > 0.0 && IsNorm(norm, s0, s1)
    ensures var d := GetDistanceToStraight(q, s0, s1, norm);
      d >= 0.0 && Square(d) <= ToPoint(q, s0, s1, t) && Square(d) == ToPoint(q, s0, s1, Foot(q, s0, s1, norm))
  {
    hide *;
    var d, foot := GetDistanceToStraight(q, s0, s1, norm), Foot(q, s0, s1, norm);
    LeastAt(q, s0, s1, norm, t);
    LeastAt(q, s0, s1, norm, foot);
    FootIsFoot(q, s0, s1, norm);
    SquareFacts(norm, FromFoot(q, s0, s1, norm, t));
    LeastFrom(Square(norm), ToPoint(q, s0, s1, t), Square(d), Square(FromFoot(q, s0, s1, norm, t)));
    LeastFrom(Square(norm), ToPoint(q, s0, s1, foot), Square(d), Square(FromFoot(q, s0, s1, norm, foot)));
  }

  lemma LeastFrom(n: real, p: real, d: real, f: real)
    requires n > 0.0 && f >= 0.0 && Times(n, p) == Times(n, d) + f
    ensures d <= p && (f == 0.0 ==> d == p)
  {
    if p < d {
      TimesPositive(n, d - p);
    }
    if f == 0.0 {
      CancelEqual(d, p, n);
    }
  }

  lemma SquareFacts(n: real, g: real)
    requires n > 0.0
    ensures Square(n) > 0.0 && Square(g) >= 0.0 && Square(0.0) == 0.0
  {
    TimesPositive(n, n);
    assert Square(n) == Times(n, n);
    SquareNonnegative(g);
  }

  lemma FootIsFoot(q: Vec, s0: Vec, s1: Vec, norm: real)
    requires norm > 0.0
    ensures FromFoot(q, s0, s1, norm, Foot(q, s0, s1, norm)) == 0.0
  {
    var a, b := Minus(q, s0), Minus(s1, s0);
    SquareFacts(norm, 0.0);
    Quotient(a.x * b.x + a.y * b.y, Square(norm), Foot(q, s0, s1, norm));
  }

  /** The offset a of q from s0, less t times the direction b of the line. */
  function Offsets(a: Vec, b: Vec, t: real): real {
    Square(a.x - t * b.x) + Square(a.y - t * b.y)
  }

  function Ahead(a: Vec, b: Vec, t: real): real {
    a.x * b.x + a.y * b.y - t * SquaredNorm(b)
  }

  lemma ToPointIs(q: Vec, s0: Vec, s1: Vec, norm: real, t: real)
    requires norm > 0.0 && IsNorm(norm, s0, s1)
    ensures ToPoint(q, s0, s1, t) == Offsets(Minus(q, s0), Minus(s1, s0), t)
    ensures Square(norm) == SquaredNorm(Minus(s1, s0))
    ensures FromFoot(q, s0, s1, norm, t) == Ahead(Minus(q, s0), Minus(s1, s0), t)
  {
  }

  lemma LeastAt(q: Vec, s0: Vec, s1: Vec, norm: real, t: real)
    requires norm > 0.0 && IsNorm(norm, s0, s1)
    ensures var d := GetDistanceToStraight(q, s0, s1, norm);
      && d >= 0.0
      && Times(Square(norm), ToPoint(q, s0, s1, t)) == Times(Square(norm), Square(d)) + Square(FromFoot(q, s0, s1, norm, t))
  {
    hide *;
    ToPointIs(q, s0, s1, norm, t);
    LagrangeIdentity(Minus(q, s0), Minus(s1, s0), t);
    DistanceSquared(q, s0, s1, norm);
  }

  lemma DistanceSquared(q: Vec, s0: Vec, s1: Vec, norm: real)
    requires norm > 0.0
    ensures var d := GetDistanceToStraight(q, s0, s1, norm);
      d >= 0.0 && Times(Square(norm), Square(d)) == Square(Cross(Minus(q, s0), Minus(s1, s0)))
  {
    var c, d := Cross(Minus(q, s0), Minus(s1, s0)), GetDistanceToStraight(q, s0, s1, norm);
    Quotient(Abs(c), norm, d);
    QuotientNonnegative(Abs(c), norm);
    SquareOfProduct(norm, d, c);
  }

  lemma SquareOfProduct(n: real, d: real, c: real)
    requires n * d == Abs(c)
    ensures Times(Square(n), Square(d)) == Square(c)
  {
    assert Times(Square(n), Square(d)) == (n * d) * (n * d);
  }

  /** |b|^2 |a - t b|^2 = (a x b)^2 + (a . b - t |b|^2)^2 */
  lemma LagrangeIdentity(a: Vec, b: Vec, t: real)
    ensures Times(SquaredNorm(b), Offsets(a, b, t)) == Square(Cross(a, b)) + Square(Ahead(a, b, t))
  {
    LagrangeAlgebra(a.x, a.y, b.x, b.y, t);
  }

  lemma LagrangeAlgebra(p: real, q: real, u: real, v: real, t: real)
    ensures (u * u + v * v) * (Square(p - t * u) + Square(q - t * v))
         == Square(p * v - q * u) + Square(p * u + q * v - t * (u * u + v * v))
  {
  }
}
