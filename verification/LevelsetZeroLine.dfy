/** The zero points of a cut triangle lie on the zero line, and the distances to their line follow the level set. */
module LevelsetZeroLine {
  import opened LinearAlgebra
  import opened RealFacts
  import opened LevelsetGeometry
  import opened LevelsetTriangle

  // ---------------------------------------------------------------- the linear interpolant

  /** The gradient of the interpolant, times the area. */
  function Gradient(xs: seq<Vec>, ls: seq<real>): Vec
    requires Three(xs, ls)
  {
    var u, v := Minus(xs[1], xs[0]), Minus(xs[2], xs[0]);
    var a, b := ls[1] - ls[0], ls[2] - ls[0];
    Vec(a * v.y - b * u.y, b * u.x - a * v.x)
  }

  /** The linear interpolant of the vertex values, times the area. */
  function Interpolated(xs: seq<Vec>, ls: seq<real>, p: Vec): real
    requires Three(xs, ls)
  {
    var g, d := Gradient(xs, ls), Minus(p, xs[0]);
    Times(ls[0], Area(xs)) + (g.x * d.x + g.y * d.y)
  }

  /** It takes the vertex values. */
  lemma AtVertex(xs: seq<Vec>, ls: seq<real>, i: nat)
    requires Three(xs, ls) && i < 3
    ensures Interpolated(xs, ls, xs[i]) == Times(ls[i], Area(xs))
  {
  }

  /** It is linear along every segment. */
  lemma AlongSegment(xs: seq<Vec>, ls: seq<real>, a: Vec, b: Vec, t: real)
    requires Three(xs, ls)
    ensures Interpolated(xs, ls, Toward(a, b, t))
         == Interpolated(xs, ls, a) + Times(t, Interpolated(xs, ls, b) - Interpolated(xs, ls, a))
  {
  }

  lemma CrossingIsZero(xs: seq<Vec>, ls: seq<real>, a: nat, b: nat)
    requires Three(xs, ls) && a < 3 && b < 3 && ls[a] <= 0.0 < ls[b]
    ensures Interpolated(xs, ls, Crossing(xs, ls, a, b)) == 0.0
    ensures 0.0 <= Fraction(ls, 0.0, a, b) < 1.0
    ensures Fraction(ls, 0.0, a, b) == 0.0 <==> ls[a] == 0.0
  {
    hide Interpolated;
    hide Toward;
    var f, k := Fraction(ls, 0.0, a, b), Area(xs);
    AlongSegment(xs, ls, xs[a], xs[b], f);
    AtVertex(xs, ls, a);
    AtVertex(xs, ls, b);
    FractionFacts(-ls[a], ls[b] - ls[a], f);
    CrossingAlgebra(ls[a], ls[b], k, f);
  }

  lemma FractionFacts(n: real, d: real, f: real)
    requires 0.0 <= n < d && f == n / d
    ensures d * f == n && 0.0 <= f < 1.0
    ensures f == 0.0 <==> n == 0.0
  {
    Quotient(n, d, f);
    QuotientNonnegative(n, d);
    assert d * (f - 1.0) == n - d;
    if f >= 1.0 {
      ProductNonnegative(d, f - 1.0);
    }
  }

  /** Between an icy and a dry vertex, the level set takes the level at the fraction of the way that is computed. */
  lemma LevelAtFraction(ls: seq<real>, level: real, a: nat, b: nat)
    requires a < |ls| && b < |ls| && ls[a] <= level < ls[b]
    ensures var f := Fraction(ls, level, a, b);
      0.0 <= f < 1.0 && ls[a] + f * (ls[b] - ls[a]) == level
  {
    FractionFacts(level - ls[a], ls[b] - ls[a], Fraction(ls, level, a, b));
  }

  lemma CrossingAlgebra(a: real, b: real, k: real, f: real)
    requires (b - a) * f == -a
    ensures Times(a, k) + Times(f, Times(b, k) - Times(a, k)) == 0.0
  {
  }

  // ---------------------------------------------------------------- the two zero points

  ghost predicate Increasing(r: seq<nat>) {
    forall i, j :: 0 <= i < j < |r| ==> r[i] < r[j]
  }

  lemma IncreasingGrows(s: seq<nat>, k: nat)
    requires Increasing(s) && forall i :: 0 <= i < |s| ==> s[i] < k
    ensures Increasing(s + [k])
  {
  }

  lemma {:induction false} SideIncreasing(ls: seq<real>, level: real, below: bool, k: nat)
    requires k <= |ls|
    ensures Increasing(Side(ls, level, below, k))
  {
    hide Increasing;
    if k == 0 {
      EmptyIncreasing();
    } else {
      SideIncreasing(ls, level, below, k - 1);
      IncreasingGrows(Side(ls, level, below, k - 1), k - 1);
      assert Side(ls, level, below, k - 1) + [] == Side(ls, level, below, k - 1);
    }
  }

  lemma EmptyIncreasing()
    ensures Increasing([])
  {
  }

  lemma {:induction false} ZeroMembers(ls: seq<real>, k: nat)
    requires k <= |ls|
    ensures Increasing(Zeros(ls, k))
    ensures forall i :: 0 <= i < |Zeros(ls, k)| ==> ls[Zeros(ls, k)[i]] == 0.0
  {
    hide Increasing;
    if k == 0 {
      EmptyIncreasing();
    } else {
      ZeroMembers(ls, k - 1);
      IncreasingGrows(Zeros(ls, k - 1), k - 1);
      assert Zeros(ls, k - 1) + [] == Zeros(ls, k - 1);
    }
  }

  /** An icy triangle without dry vertices is cut only along an edge. */
  lemma TwoZeros(ls: seq<real>)
    requires |ls| == 3 && IsZeroLevelset(ls) && ls[0] <= 0.0 && ls[1] <= 0.0 && ls[2] <= 0.0
    ensures |Zeros(ls, 3)| == 2
  {
    var a, b, c := -ls[0], -ls[1], -ls[2];
    ProductNonnegative(a, b);
    ProductNonnegative(a, c);
    ProductNonnegative(b, c);
    assert a * b == ls[0] * ls[1] && a * c == ls[0] * ls[2] && b * c == ls[1] * ls[2];
    NoProduct(a, b);
    NoProduct(a, c);
    NoProduct(b, c);
    assert Zeros(ls, 1) == if ls[0] == 0.0 then [0] else [];
    assert |Zeros(ls, 2)| == |Zeros(ls, 1)| + if ls[1] == 0.0 then 1 else 0;
  }

  lemma NoProduct(a: real, b: real)
    ensures a * b == 0.0 ==> a == 0.0 || b == 0.0
  {
  }

  /** Two points toward different ends coincide only at the common start. */
  lemma Diverge(o: Vec, u: Vec, v: Vec, f: real, g: real)
    requires Toward(o, u, f) == Toward(o, v, g) && Cross(Minus(u, o), Minus(v, o)) != 0.0
    ensures f == 0.0
  {
  }

  lemma Corner(xs: seq<Vec>, o: nat, a: nat, b: nat)
    requires |xs| == 3 && o < 3 && a < 3 && b < 3 && o != a && o != b && a != b && Area(xs) != 0.0
    ensures Cross(Minus(xs[a], xs[o]), Minus(xs[b], xs[o])) != 0.0
    ensures xs[a] != xs[b]
  {
  }

  lemma Reverse(a: Vec, b: Vec, f: real)
    ensures Toward(a, b, f) == Toward(b, a, 1.0 - f)
  {
  }

  /** A cut triangle yields two distinct points, both on the zero line. */
  lemma ZeroPoints(xs: seq<Vec>, ls: seq<real>)
    requires Three(xs, ls) && Area(xs) != 0.0 && IsZeroLevelset(ls)
    ensures var r := ZeroSegment(xs, ls);
      r.Segment? && r.s0 != r.s1 && Interpolated(xs, ls, r.s0) == 0.0 && Interpolated(xs, ls, r.s1) == 0.0
  {
    hide Side;
    hide Zeros;
    hide Interpolated;
    hide Area;
    hide Fraction;
    hide Toward;
    var ice, dry := Side(ls, 0.0, true, 3), Side(ls, 0.0, false, 3);
    SideFacts(ls, 0.0, 3);
    SideIncreasing(ls, 0.0, true, 3);
    SideIncreasing(ls, 0.0, false, 3);
    if |ice| == 0 {
      AllThree(dry);
    } else if |ice| == 1 {
      OneIce(xs, ls, ice[0], dry[0], dry[1]);
    } else if |ice| == 2 {
      TwoIce(xs, ls, ice[0], ice[1], dry[0]);
    } else {
      AllThree(ice);
      TwoZeros(ls);
      ZeroMembers(ls, 3);
      var z := Zeros(ls, 3);
      AtVertex(xs, ls, z[0]);
      AtVertex(xs, ls, z[1]);
      var o := 3 - z[0] - z[1];
      Corner(xs, o, z[0], z[1]);
    }
  }

  lemma AllThree(r: seq<nat>)
    requires |r| == 3 && Increasing(r) && forall i :: 0 <= i < 3 ==> r[i] < 3
    ensures r[0] == 0 && r[1] == 1 && r[2] == 2
  {
    assert r[0] < r[1] && r[1] < r[2] && r[2] < 3;
  }

  lemma OneIce(xs: seq<Vec>, ls: seq<real>, i: nat, a: nat, b: nat)
    requires Three(xs, ls) && Area(xs) != 0.0 && i < 3 && a < b < 3 && i != a && i != b
    requires ls[i] < 0.0 && ls[a] > 0.0 && ls[b] > 0.0
    ensures Crossing(xs, ls, i, a) != Crossing(xs, ls, i, b)
    ensures Interpolated(xs, ls, Crossing(xs, ls, i, a)) == 0.0 && Interpolated(xs, ls, Crossing(xs, ls, i, b)) == 0.0
  {
    hide Interpolated;
    hide Area;
    hide Fraction;
    hide Toward;
    CrossingIsZero(xs, ls, i, a);
    CrossingIsZero(xs, ls, i, b);
    Corner(xs, i, a, b);
    if Crossing(xs, ls, i, a) == Crossing(xs, ls, i, b) {
      Diverge(xs[i], xs[a], xs[b], Fraction(ls, 0.0, i, a), Fraction(ls, 0.0, i, b));
      assert false;
    }
  }

  lemma TwoIce(xs: seq<Vec>, ls: seq<real>, i: nat, j: nat, n: nat)
    requires Three(xs, ls) && Area(xs) != 0.0 && i < j < 3 && n < 3 && n != i && n != j
    requires ls[i] <= 0.0 && ls[j] <= 0.0 && ls[n] > 0.0
    ensures Crossing(xs, ls, i, n) != Crossing(xs, ls, j, n)
    ensures Interpolated(xs, ls, Crossing(xs, ls, i, n)) == 0.0 && Interpolated(xs, ls, Crossing(xs, ls, j, n)) == 0.0
  {
    hide Interpolated;
    hide Area;
    hide Fraction;
    hide Toward;
    CrossingIsZero(xs, ls, i, n);
    CrossingIsZero(xs, ls, j, n);
    Corner(xs, n, i, j);
    if Crossing(xs, ls, i, n) == Crossing(xs, ls, j, n) {
      var f, g := Fraction(ls, 0.0, i, n), Fraction(ls, 0.0, j, n);
      Reverse(xs[i], xs[n], f);
      Reverse(xs[j], xs[n], g);
      Diverge(xs[n], xs[i], xs[j], 1.0 - f, 1.0 - g);
      assert false;
    }
  }

  /** With ice in the triangle, the program finds two zero points exactly when it calls the triangle cut. */
  lemma CutIff(xs: seq<Vec>, ls: seq<real>)
    requires Three(xs, ls) && Area(xs) != 0.0
    requires ls[0] < 0.0 || ls[1] < 0.0 || ls[2] < 0.0
    ensures IsZeroLevelset(ls) <==> ZeroSegment(xs, ls).Segment?
  {
    hide Side;
    hide Zeros;
    hide IsZeroLevelset;
    hide Crossing;
    if IsZeroLevelset(ls) {
      ZeroPoints(xs, ls);
    } else if ZeroSegment(xs, ls).Segment? {
      var ice, dry, zeros := Side(ls, 0.0, true, 3), Side(ls, 0.0, false, 3), Zeros(ls, 3);
      SideFacts(ls, 0.0, 3);
      ZeroMembers(ls, 3);
      if |ice| < 3 {
        SignChange(ls, dry[0]);
      } else {
        assert zeros[0] < zeros[1];
        ZeroEdge(ls, zeros[0], zeros[1]);
      }
    }
  }

  lemma SignChange(ls: seq<real>, j: nat)
    requires |ls| == 3 && j < 3 && ls[j] > 0.0
    requires ls[0] < 0.0 || ls[1] < 0.0 || ls[2] < 0.0
    ensures IsZeroLevelset(ls)
  {
  }

  lemma ZeroEdge(ls: seq<real>, i: nat, j: nat)
    requires |ls| == 3 && i < j < 3 && ls[i] == 0.0 && ls[j] == 0.0
    requires ls[0] < 0.0 || ls[1] < 0.0 || ls[2] < 0.0
    ensures IsZeroLevelset(ls)
  {
  }

  // ---------------------------------------------------------------- signed distances

  /** The signed area that decides the distance of p to the line. */
  function Offset(p: Vec, s0: Vec, s1: Vec): real {
    Cross(Minus(p, s0), Minus(s1, s0))
  }

  lemma NormPositive(norm: real, s0: Vec, s1: Vec)
    requires IsNorm(norm, s0, s1) && s0 != s1
    ensures norm > 0.0
  {
    var b := Minus(s1, s0);
    if norm == 0.0 {
      SquareNonnegative(b.x);
      SquareNonnegative(b.y);
      NoProduct(b.x, b.x);
      NoProduct(b.y, b.y);
    }
  }

  /** Vertex offsets times one constant are the level set times another. */
  lemma OffsetFollows(xs: seq<Vec>, ls: seq<real>, s0: Vec, s1: Vec, i: nat)
    requires Three(xs, ls) && i < 3 && Interpolated(xs, ls, s0) == 0.0 && Interpolated(xs, ls, s1) == 0.0
    ensures Times(Cross(Gradient(xs, ls), Minus(s1, s0)), Offset(xs[i], s0, s1))
         == Times(Times(ls[i], Area(xs)), SquaredNorm(Minus(s1, s0)))
  {
    hide Area;
    hide Gradient;
    AtVertex(xs, ls, i);
    var g, b, c, o := Gradient(xs, ls), Minus(s1, s0), Minus(xs[i], s0), xs[0];
    var k := Times(ls[0], Area(xs));
    DifferenceAlgebra(g.x, g.y, s1.x - o.x, s1.y - o.y, s0.x - o.x, s0.y - o.y, k, 0.0);
    DifferenceAlgebra(g.x, g.y, xs[i].x - o.x, xs[i].y - o.y, s0.x - o.x, s0.y - o.y, k, Times(ls[i], Area(xs)));
    FollowAlgebra(g.x, g.y, b.x, b.y, c.x, c.y, Times(ls[i], Area(xs)));
  }

  lemma DifferenceAlgebra(g: real, h: real, p: real, q: real, u: real, v: real, k: real, l: real)
    requires k + (g * p + h * q) == l && k + (g * u + h * v) == 0.0
    ensures g * (p - u) + h * (q - v) == l
  {
  }

  lemma FollowAlgebra(g: real, h: real, u: real, v: real, p: real, q: real, l: real)
    requires g * u + h * v == 0.0 && g * p + h * q == l
    ensures Times(g * v - h * u, p * v - q * u) == Times(l, u * u + v * v)
  {
  }

  function Sign(l: real): real {
    if l >= 0.0 then 1.0 else -1.0
  }

  function SignedDistance(xs: seq<Vec>, ls: seq<real>, norm: real, i: nat): real
    requires Three(xs, ls) && i < 3 && ZeroSegment(xs, ls).Segment? && norm > 0.0
  {
    Sign(ls[i]) * GetDistanceToStraight(xs[i], ZeroSegment(xs, ls).s0, ZeroSegment(xs, ls).s1, norm)
  }

  /**
    On a cut triangle the signed distances are proportional to the level set: reinitialisation moves no zero and flips
    no sign.
   */
  lemma DistancesFollow(xs: seq<Vec>, ls: seq<real>, norm: real, i: nat, j: nat)
    requires Three(xs, ls) && Area(xs) != 0.0 && IsZeroLevelset(ls) && i < 3 && j < 3
    requires ZeroSegment(xs, ls).Segment? ==> IsNorm(norm, ZeroSegment(xs, ls).s0, ZeroSegment(xs, ls).s1)
    ensures ZeroSegment(xs, ls).Segment? && norm > 0.0
    ensures SignedDistance(xs, ls, norm, i) * ls[j] == SignedDistance(xs, ls, norm, j) * ls[i]
    ensures SignedDistance(xs, ls, norm, i) > 0.0 <==> ls[i] > 0.0
    ensures SignedDistance(xs, ls, norm, i) < 0.0 <==> ls[i] < 0.0
  {
    hide *;
    ThreeEach(xs, ls);
    ZeroPoints(xs, ls);
    var s0, s1 := ZeroSegment(xs, ls).s0, ZeroSegment(xs, ls).s1;
    NormPositive(norm, s0, s1);
    OffsetsFollow(xs, ls, s0, s1, norm, i, j);
    OffsetIsDistance(xs[i], s0, s1, norm);
    OffsetIsDistance(xs[j], s0, s1, norm);
    SignedFollow(norm, GetDistanceToStraight(xs[i], s0, s1, norm), GetDistanceToStraight(xs[j], s0, s1, norm),
                 Offset(xs[i], s0, s1), Offset(xs[j], s0, s1), ls[i], ls[j]);
    SignedDistanceIs(xs, ls, norm, i);
    SignedDistanceIs(xs, ls, norm, j);
  }

  lemma ThreeEach(xs: seq<Vec>, ls: seq<real>)
    requires Three(xs, ls)
    ensures |xs| == 3 && |ls| == 3
  {
  }

  lemma SignedDistanceIs(xs: seq<Vec>, ls: seq<real>, norm: real, i: nat)
    requires Three(xs, ls) && i < 3 && ZeroSegment(xs, ls).Segment? && norm > 0.0
    ensures SignedDistance(xs, ls, norm, i)
         == Sign(ls[i]) * GetDistanceToStraight(xs[i], ZeroSegment(xs, ls).s0, ZeroSegment(xs, ls).s1, norm)
  {
  }

  lemma OffsetsFollow(xs: seq<Vec>, ls: seq<real>, s0: Vec, s1: Vec, norm: real, i: nat, j: nat)
    requires Three(xs, ls) && Area(xs) != 0.0 && IsZeroLevelset(ls) && i < 3 && j < 3
    requires Interpolated(xs, ls, s0) == 0.0 && Interpolated(xs, ls, s1) == 0.0 && norm > 0.0 && IsNorm(norm, s0, s1)
    ensures Offset(xs[i], s0, s1) * ls[j] == Offset(xs[j], s0, s1) * ls[i]
    ensures Offset(xs[i], s0, s1) == 0.0 <==> ls[i] == 0.0
    ensures Offset(xs[j], s0, s1) == 0.0 <==> ls[j] == 0.0
  {
    hide *;
    ThreeEach(xs, ls);
    var kappa, k := Cross(Gradient(xs, ls), Minus(s1, s0)), SquaredNorm(Minus(s1, s0));
    var v := SomeIce(ls);
    NormSquared(norm, s0, s1);
    OffsetFollows(xs, ls, s0, s1, i);
    OffsetFollows(xs, ls, s0, s1, j);
    OffsetFollows(xs, ls, s0, s1, v);
    KappaNonzero(kappa, Offset(xs[v], s0, s1), ls[v], Area(xs), k);
    Follow(kappa, Offset(xs[i], s0, s1), Offset(xs[j], s0, s1), ls[i], ls[j], Area(xs), k);
  }

  lemma SomeIce(ls: seq<real>) returns (v: nat)
    requires |ls| == 3 && IsZeroLevelset(ls)
    ensures v < 3 && ls[v] < 0.0
  {
    v := if ls[0] < 0.0 then 0 else if ls[1] < 0.0 then 1 else 2;
  }

  lemma NormSquared(norm: real, s0: Vec, s1: Vec)
    requires norm > 0.0 && IsNorm(norm, s0, s1)
    ensures SquaredNorm(Minus(s1, s0)) > 0.0
  {
    SquareFacts(norm, 0.0);
  }

  lemma OffsetIsDistance(p: Vec, s0: Vec, s1: Vec, norm: real)
    requires norm > 0.0
    ensures norm * GetDistanceToStraight(p, s0, s1, norm) == Abs(Offset(p, s0, s1))
  {
  }

  lemma KappaNonzero(kappa: real, x: real, l: real, a: real, k: real)
    requires Times(kappa, x) == Times(Times(l, a), k) && l != 0.0 && a != 0.0 && k != 0.0
    ensures kappa != 0.0
  {
  }

  lemma Follow(kappa: real, x: real, y: real, l: real, m: real, a: real, k: real)
    requires kappa != 0.0 && a != 0.0 && k != 0.0
    requires Times(kappa, x) == Times(Times(l, a), k) && Times(kappa, y) == Times(Times(m, a), k)
    ensures x * m == y * l
    ensures x == 0.0 <==> l == 0.0
    ensures y == 0.0 <==> m == 0.0
  {
  }

  lemma SignedFollow(norm: real, d: real, e: real, x: real, y: real, l: real, m: real)
    requires norm > 0.0 && norm * d == Abs(x) && norm * e == Abs(y) && x * m == y * l
    requires (x == 0.0 <==> l == 0.0) && (y == 0.0 <==> m == 0.0)
    ensures Sign(l) * d * m == Sign(m) * e * l
    ensures Sign(l) * d > 0.0 <==> l > 0.0
    ensures Sign(l) * d < 0.0 <==> l < 0.0
  {
  }

}
