/** The reinitialised level set: near distances, far values, signs, and the marker test that mistakes distance 1. */
module LevelsetResult {
  import opened RealFacts
  import opened LevelsetGeometry
  import opened LevelsetTriangle
  import opened LevelsetZeroLine
  import opened LevelsetReinit
  import opened LevelsetDistances

  /** An interface vertex is no farther from its zero line than from any point of it. */
  lemma NearestPoint(m: Mesh, v: nat, t: Triangle, k: nat, p: real)
    requires m.Valid() && v < |m.lsf| && Contact(m, v, t, k)
    ensures After(m, v, |m.triangles|).Num? && m.ValidTriangle(t) && ZeroSegment(m.Corners(t), m.Values(t)).Segment?
    ensures var s := ZeroSegment(m.Corners(t), m.Values(t));
      Square(After(m, v, |m.triangles|).value) <= ToPoint(m.points[v], s.s0, s.s1, p)
  {
    hide After;
    hide ZeroSegment;
    hide IsNorm;
    hide Area;
    hide GetDistanceToStraight;
    hide ToPoint;
    hide Square;
    hide Touched;
    NearDistances(m, v);
    TouchedHasContact(m, v, |m.triangles|);
    assert m.triangles[..|m.triangles|] == m.triangles;
    assert m.ValidTriangle(t);
    var xs, ls, x := m.Corners(t), m.Values(t), After(m, v, |m.triangles|).value;
    DistancesFollow(xs, ls, t.norm, k, k);
    var s := ZeroSegment(xs, ls);
    var d := GetDistanceToStraight(xs[k], s.s0, s.s1, t.norm);
    DistanceIsLeast(xs[k], s.s0, s.s1, t.norm, p);
    assert Abs(x) <= Abs(m.Distance(t, k));
    AbsSigned(ls[k], d);
    SquareMonotone(x, d);
  }

  lemma AbsSigned(l: real, d: real)
    requires d >= 0.0
    ensures Abs(Sign(l) * d) == d
  {
  }

  lemma SquareMonotone(x: real, d: real)
    requires Abs(x) <= d
    ensures Square(x) <= Square(d)
  {
  }

  // ---------------------------------------------------------------- the extremes bound the distances

  predicate Covered(x: Extremes, e: Entry) {
    && (e.Num? && e.value > 0.0 ==> e.value <= x.above)
    && (e.Num? && e.value < 0.0 ==> e.value >= x.below)
  }

  lemma ThreeCovered(x: Extremes, e0: Entry, e1: Entry, e2: Entry)
    ensures var y := Widened(Widened(Widened(x, e0), e1), e2);
      y.above >= x.above && y.below <= x.below && Covered(y, e0) && Covered(y, e1) && Covered(y, e2)
  {
  }

  lemma RangeGrows(m: Mesh, i: nat)
    requires m.Valid() && 0 < i <= |m.triangles|
    ensures Range(m, i).above >= Range(m, i - 1).above && Range(m, i).below <= Range(m, i - 1).below
  {
    hide After;
    hide Widened;
    hide Mesh.Cut;
    hide Mesh.ValidTriangle;
    var t := m.triangles[i - 1];
    assert t in m.triangles;
    InRange(m, t);
    if m.Cut(t) {
      ThreeCovered(Range(m, i - 1), After(m, t.vertices[0], i), After(m, t.vertices[1], i), After(m, t.vertices[2], i));
    }
  }

  /** The extremes cover what a triangle has just left at its vertices. */
  lemma RangeCovers(m: Mesh, i: nat, t: Triangle, v: nat)
    requires m.Valid() && 0 < i <= |m.triangles| && t == m.triangles[i - 1] && m.Cut(t) && v in t.vertices && v < |m.lsf|
    ensures Covered(Range(m, i), After(m, v, i))
  {
    hide After;
    hide Widened;
    hide Mesh.Cut;
    hide Mesh.ValidTriangle;
    assert t in m.triangles;
    InRange(m, t);
    ThreeCovered(Range(m, i - 1), After(m, t.vertices[0], i), After(m, t.vertices[1], i), After(m, t.vertices[2], i));
  }

  /** Once a vertex has been reported, the extremes cover its entry, though entries only shrink afterwards. */
  lemma {:induction false} ExtremesCover(m: Mesh, v: nat, i: nat)
    requires m.Valid() && v < |m.lsf| && i <= |m.triangles|
    ensures Range(m, i).above >= 0.0 >= Range(m, i).below
    ensures Touched(m, v, i) ==> Covered(Range(m, i), After(m, v, i))
  {
    hide Inserted;
    hide Widened;
    hide Mesh.Cut;
    hide Mesh.ValidTriangle;
    if i > 0 {
      var t := m.triangles[i - 1];
      assert t in m.triangles;
      InRange(m, t);
      ExtremesCover(m, v, i - 1);
      RangeGrows(m, i);
      if m.Cut(t) {
        if v in t.vertices {
          RangeCovers(m, i, t, v);
        } else {
          NotInserted(m, t, v, After(m, v, i - 1), 3);
        }
      }
    }
  }

  // ---------------------------------------------------------------- the result

  /**
    A vertex of a cut triangle keeps its signed distance exactly when that is not 1 or -1; otherwise the marker test
    takes it for a far vertex.
   */
  lemma KeptIff(m: Mesh, v: nat)
    requires m.Valid() && v < |m.lsf| && Touched(m, v, |m.triangles|)
    ensures After(m, v, |m.triangles|).Num?
    ensures Result(m, v) == After(m, v, |m.triangles|) <==> Abs(After(m, v, |m.triangles|).value) != 1.0
  {
    hide After;
    hide Range;
    hide Touched;
    NearDistances(m, v);
    ExtremesCover(m, v, |m.triangles|);
  }

  /**
    A vertex outside all cut triangles that carries 1 or -1 ends, on its side, at least three times as far as any
    vertex of a cut triangle was, and no nearer than that vertex ends, which is moved itself only from 1 or -1. Other
    vertices outside keep their level set.
   */
  lemma FarBeyondNear(m: Mesh, far: nat, near: nat)
    requires m.Valid() && far < |m.lsf| && near < |m.lsf|
    requires !Touched(m, far, |m.triangles|) && Touched(m, near, |m.triangles|)
    ensures Result(m, far).Num? && Result(m, near).Num? && After(m, near, |m.triangles|).Num?
    ensures var d, q, r := After(m, near, |m.triangles|).value, Result(m, near).value, Result(m, far).value;
      && (m.lsf[far] == 1.0 && d > 0.0 ==> r >= 3.0 * d && r >= q && (d != 1.0 ==> r >= 3.0 * q))
      && (m.lsf[far] == -1.0 && d < 0.0 ==> r <= 3.0 * d && r <= q && (d != -1.0 ==> r <= 3.0 * q))
      && (Abs(m.lsf[far]) != 1.0 ==> r == m.lsf[far])
  {
    hide After;
    hide Range;
    hide Touched;
    hide IsNearest;
    hide Mesh.ValidTriangle;
    NearDistances(m, far);
    NearDistances(m, near);
    ExtremesCover(m, near, |m.triangles|);
  }

  lemma NearSign(m: Mesh, v: nat, x: real)
    requires m.Valid() && v < |m.lsf| && IsNearest(m, v, x)
    ensures (x > 0.0 <==> m.lsf[v] > 0.0) && (x < 0.0 <==> m.lsf[v] < 0.0)
  {
    hide Mesh.Distance;
    hide Mesh.Cut;
    hide Mesh.ValidTriangle;
    hide Sign;
    var t, k :| Contact(m, v, t, k) && x == m.Distance(t, k);
    DistanceSign(m, t, k);
  }

  // ---------------------------------------------------------------- signs

  /** v is a vertex of a cut triangle, above (or below) the zero line. */
  ghost predicate Seen(m: Mesh, v: nat, above: bool)
    requires m.Valid()
  {
    v < |m.lsf| && Touched(m, v, |m.triangles|) && if above then m.lsf[v] > 0.0 else m.lsf[v] < 0.0
  }

  ghost predicate SideSeen(m: Mesh, above: bool)
    requires m.Valid()
  {
    exists v: nat :: Seen(m, v, above)
  }

  /** An entry at a vertex of a cut triangle never has the other sign than the level set. */
  lemma EntrySign(m: Mesh, v: nat, i: nat, t: Triangle)
    requires m.Valid() && v < |m.lsf| && i <= |m.triangles| && Touched(m, v, |m.triangles|)
    ensures After(m, v, i).Num? && After(m, v, i).value > 0.0 ==> m.lsf[v] > 0.0
    ensures After(m, v, i).Num? && After(m, v, i).value < 0.0 ==> m.lsf[v] < 0.0
  {
    hide After;
    hide Touched;
    hide Sign;
    hide Mesh.Distance;
    hide Mesh.Cut;
    hide Mesh.ValidTriangle;
    AfterSettles(m, v, i, t);
    var e := After(m, v, i);
    if e.Num? {
      var u, j :| Reported(m, v, i, t, 0, u, j) && e.value == m.Distance(u, j);
      DistanceSign(m, u, j);
    }
  }

  lemma ThreeWidened(x: Extremes, e0: Entry, e1: Entry, e2: Entry)
    ensures var y := Widened(Widened(Widened(x, e0), e1), e2);
      && (y.above > 0.0 ==> x.above > 0.0 || Positive(e0) || Positive(e1) || Positive(e2))
      && (y.below < 0.0 ==> x.below < 0.0 || Negative(e0) || Negative(e1) || Negative(e2))
  {
  }

  predicate Positive(e: Entry) {
    e.Num? && e.value > 0.0
  }

  predicate Negative(e: Entry) {
    e.Num? && e.value < 0.0
  }

  lemma VertexSeen(m: Mesh, i: nat, k: nat)
    requires m.Valid() && 0 < i <= |m.triangles| && k < 3
    requires m.Cut(m.triangles[i - 1])
    ensures var t := m.triangles[i - 1];
      && |t.vertices| == 3 && t.vertices[k] < |m.lsf|
      && (Positive(After(m, t.vertices[k], i)) ==> SideSeen(m, true))
      && (Negative(After(m, t.vertices[k], i)) ==> SideSeen(m, false))
  {
    hide After;
    hide Mesh.Cut;
    hide Mesh.ValidTriangle;
    var t := m.triangles[i - 1];
    assert t in m.triangles;
    InRange(m, t);
    var v := t.vertices[k];
    assert Touched(m, v, i);
    TouchedGrows(m, v, i, |m.triangles|);
    EntrySign(m, v, i, t);
    assert Positive(After(m, v, i)) ==> Seen(m, v, true);
    assert Negative(After(m, v, i)) ==> Seen(m, v, false);
  }

  lemma {:induction false} RangeSeen(m: Mesh, i: nat)
    requires m.Valid() && i <= |m.triangles|
    ensures Range(m, i).above > 0.0 ==> SideSeen(m, true)
    ensures Range(m, i).below < 0.0 ==> SideSeen(m, false)
  {
    hide After;
    hide Widened;
    hide SideSeen;
    hide Positive;
    hide Negative;
    hide Mesh.Cut;
    hide Mesh.ValidTriangle;
    if i > 0 {
      RangeSeen(m, i - 1);
      var t := m.triangles[i - 1];
      assert t in m.triangles;
      InRange(m, t);
      if m.Cut(t) {
        ThreeWidened(Range(m, i - 1), After(m, t.vertices[0], i), After(m, t.vertices[1], i), After(m, t.vertices[2], i));
        VertexSeen(m, i, 0);
        VertexSeen(m, i, 1);
        VertexSeen(m, i, 2);
      }
    }
  }

  lemma SeenWidens(m: Mesh, v: nat, above: bool)
    requires m.Valid() && Seen(m, v, above)
    ensures var x := Range(m, |m.triangles|); if above then x.above > 0.0 else x.below < 0.0
  {
    hide After;
    hide Range;
    hide Touched;
    hide IsNearest;
    hide Mesh.ValidTriangle;
    NearDistances(m, v);
    ExtremesCover(m, v, |m.triangles|);
    NearSign(m, v, After(m, v, |m.triangles|).value);
  }

  /** The extremes leave zero just when a cut triangle has a vertex on their side. */
  lemma ExtremesSeen(m: Mesh)
    requires m.Valid()
    ensures Range(m, |m.triangles|).above > 0.0 <==> SideSeen(m, true)
    ensures Range(m, |m.triangles|).below < 0.0 <==> SideSeen(m, false)
  {
    hide Range;
    hide Seen;
    hide Mesh.ValidTriangle;
    RangeSeen(m, |m.triangles|);
    if SideSeen(m, true) {
      var v: nat :| Seen(m, v, true);
      SeenWidens(m, v, true);
    }
    if SideSeen(m, false) {
      var v: nat :| Seen(m, v, false);
      SeenWidens(m, v, false);
    }
  }

  /**
    No vertex changes sides. Its sign is kept exactly, unless it carries a marker and no cut triangle has a vertex on
    its side: then it ends at zero.
   */
  lemma SignsKept(m: Mesh, v: nat)
    requires m.Valid() && v < |m.lsf|
    ensures Result(m, v).Num?
    ensures var l, r := m.lsf[v], Result(m, v).value;
      && (l > 0.0 ==> r >= 0.0 && (r > 0.0 <==> l != 1.0 || SideSeen(m, true)))
      && (l < 0.0 ==> r <= 0.0 && (r < 0.0 <==> l != -1.0 || SideSeen(m, false)))
      && (l == 0.0 ==> r == 0.0)
  {
    hide After;
    hide Range;
    hide Touched;
    hide IsNearest;
    hide Mesh.ValidTriangle;
    NearDistances(m, v);
    ExtremesCover(m, v, |m.triangles|);
    ExtremesSeen(m);
    if Touched(m, v, |m.triangles|) {
      NearSign(m, v, After(m, v, |m.triangles|).value);
      assert m.lsf[v] > 0.0 ==> Seen(m, v, true);
      assert m.lsf[v] < 0.0 ==> Seen(m, v, false);
    }
  }

  // ---------------------------------------------------------------- a distance of exactly 1

  /** A right triangle cut at x = 1, one unit from all its vertices. */
  const CORNERS := [Vec(0.0, 0.0), Vec(2.0, 0.0), Vec(2.0, 1.0)]
  const SIGNS := [-1.0, 1.0, 1.0]

  /** The sides of a triangle whose first vertex alone is icy. */
  lemma FirstIcy(ls: seq<real>)
    requires |ls| == 3 && ls[0] <= 0.0 && ls[1] > 0.0 && ls[2] > 0.0
    ensures Side(ls, 0.0, true, 3) == [0] && Side(ls, 0.0, false, 3) == [1, 2]
  {
    hide Side;
    SideOfThree(ls, 0.0, true);
    SideOfThree(ls, 0.0, false);
  }

  lemma FirstIcySegment(xs: seq<Vec>, ls: seq<real>)
    requires Three(xs, ls) && ls[0] <= 0.0 && ls[1] > 0.0 && ls[2] > 0.0
    ensures ZeroSegment(xs, ls) == Segment(Crossing(xs, ls, 0, 1), Crossing(xs, ls, 0, 2))
  {
    hide Side;
    hide Crossing;
    hide Zeros;
    FirstIcy(ls);
  }

  lemma HalfWay(xs: seq<Vec>, ls: seq<real>, b: nat)
    requires Three(xs, ls) && 0 < b < 3 && ls[0] == -1.0 && ls[b] == 1.0
    ensures Crossing(xs, ls, 0, b) == Vec(0.5 * (xs[0].x + xs[b].x), 0.5 * (xs[0].y + xs[b].y))
  {
  }

  lemma UnitValues()
    ensures |CORNERS| == 3 && |SIGNS| == 3
    ensures CORNERS[0] == Vec(0.0, 0.0) && CORNERS[1] == Vec(2.0, 0.0) && CORNERS[2] == Vec(2.0, 1.0)
    ensures SIGNS[0] == -1.0 && SIGNS[1] == 1.0 && SIGNS[2] == 1.0
  {
  }

  lemma TwoByOne(xs: seq<Vec>)
    requires |xs| == 3 && xs[0] == Vec(0.0, 0.0) && xs[1] == Vec(2.0, 0.0) && xs[2] == Vec(2.0, 1.0)
    ensures Area(xs) == 2.0
  {
  }

  lemma HalvesOf(xs: seq<Vec>, ls: seq<real>)
    requires |xs| == 3 && |ls| == 3
    requires xs[0] == Vec(0.0, 0.0) && xs[1] == Vec(2.0, 0.0) && xs[2] == Vec(2.0, 1.0)
    requires ls[0] == -1.0 && ls[1] == 1.0 && ls[2] == 1.0
    ensures IsZeroLevelset(ls) && Area(xs) == 2.0
    ensures ZeroSegment(xs, ls) == Segment(Vec(1.0, 0.0), Vec(1.0, 0.5))
  {
    hide ZeroSegment;
    hide Crossing;
    hide IsZeroLevelset;
    hide Area;
    SignChange(ls, 1);
    TwoByOne(xs);
    FirstIcySegment(xs, ls);
    HalfWay(xs, ls, 1);
    HalfWay(xs, ls, 2);
  }

  lemma UnitSegment()
    ensures IsZeroLevelset(SIGNS) && Area(CORNERS) == 2.0
    ensures ZeroSegment(CORNERS, SIGNS) == Segment(Vec(1.0, 0.0), Vec(1.0, 0.5))
  {
    hide *;
    UnitValues();
    HalvesOf(CORNERS, SIGNS);
  }

  function UnitMesh(): Mesh {
    Mesh(CORNERS, SIGNS, [Triangle([0, 1, 2], 0.5)])
  }

  lemma UnitMeshFacts(t: Triangle)
    requires t == Triangle([0, 1, 2], 0.5)
    ensures UnitMesh().Valid() && t in UnitMesh().triangles && UnitMesh().Cut(t) && |UnitMesh().lsf| == 3
    ensures UnitMesh().Corners(t) == CORNERS && UnitMesh().Values(t) == SIGNS
  {
    hide ZeroSegment;
    hide IsZeroLevelset;
    hide Area;
    UnitSegment();
    var m := UnitMesh();
    assert m.Corners(t) == CORNERS && m.Values(t) == SIGNS;
    assert m.ValidTriangle(t);
  }

  lemma UnitDistance(t: Triangle)
    requires t == Triangle([0, 1, 2], 0.5)
    ensures UnitMesh().ValidTriangle(t) && UnitMesh().Cut(t)
    ensures UnitMesh().Distance(t, 0) == -1.0
  {
    hide ZeroSegment;
    hide IsZeroLevelset;
    hide Area;
    UnitMeshFacts(t);
    UnitSegment();
    DistancesFollow(CORNERS, SIGNS, 0.5, 0, 0);
    assert GetDistanceToStraight(CORNERS[0], Vec(1.0, 0.0), Vec(1.0, 0.5), 0.5) == 1.0;
  }

  /** Its first vertex is at signed distance -1 and does not keep it. */
  lemma UnitDistanceLost()
    ensures UnitMesh().Valid() && |UnitMesh().lsf| == 3
    ensures After(UnitMesh(), 0, 1) == Num(-1.0) && Result(UnitMesh(), 0) != Num(-1.0)
  {
    hide Mesh.Cut;
    hide Mesh.ValidTriangle;
    hide Mesh.Distance;
    hide After;
    hide Result;
    hide Touched;
    var t := Triangle([0, 1, 2], 0.5);
    UnitMeshFacts(t);
    UnitDistance(t);
    var m := UnitMesh();
    assert Contact(m, 0, t, 0);
    TouchedHasContact(m, 0, 1);
    assert m.triangles[..1] == m.triangles;
    NearDistances(m, 0);
    KeptIff(m, 0);
  }

  // ---------------------------------------------------------------- a side that is never seen

  lemma LastTwoZero(xs: seq<Vec>, ls: seq<real>)
    requires Three(xs, ls) && ls[0] < 0.0 && ls[1] == 0.0 && ls[2] == 0.0
    ensures IsZeroLevelset(ls) && ZeroSegment(xs, ls) == Segment(xs[1], xs[2])
  {
    hide Side;
    SideOfThree(ls, 0.0, true);
    SideOfThree(ls, 0.0, false);
    assert Zeros(ls, 1) == [] && Zeros(ls, 2) == [1] && Zeros(ls, 3) == [1, 2];
  }

  lemma FirstTwoZero(xs: seq<Vec>, ls: seq<real>)
    requires Three(xs, ls) && ls[0] == 0.0 && ls[1] == 0.0 && ls[2] > 0.0
    ensures !IsZeroLevelset(ls) && ZeroSegment(xs, ls) == Segment(xs[0], xs[1])
  {
    hide Side;
    SideOfThree(ls, 0.0, true);
    SideOfThree(ls, 0.0, false);
    assert Side(ls, 0.0, true, 3) == [0, 1] && Side(ls, 0.0, false, 3) == [2];
    assert Crossing(xs, ls, 0, 2) == xs[0] && Crossing(xs, ls, 1, 2) == xs[1];
  }

  const SQUARE := [Vec(-1.0, 0.0), Vec(0.0, 0.0), Vec(0.0, 1.0), Vec(1.0, 0.0)]
  const FRONT := [-1.0, 0.0, 0.0, 1.0]

  /** The zero line is an edge: the triangle with ice on one side of it is cut, the one with the marker 1 is not. */
  function EdgeMesh(): Mesh {
    Mesh(SQUARE, FRONT, [Triangle([0, 1, 2], 1.0), Triangle([1, 2, 3], 1.0)])
  }

  lemma HalfSquare(xs: seq<Vec>)
    requires |xs| == 3 && xs[0] == Vec(-1.0, 0.0) && xs[1] == Vec(0.0, 0.0) && xs[2] == Vec(0.0, 1.0)
    ensures Area(xs) == 1.0
  {
  }

  lemma OtherHalf(xs: seq<Vec>)
    requires |xs| == 3 && xs[0] == Vec(0.0, 0.0) && xs[1] == Vec(0.0, 1.0) && xs[2] == Vec(1.0, 0.0)
    ensures Area(xs) == -1.0
  {
  }

  lemma UnitNorm(norm: real, a: Vec, b: Vec)
    requires norm == 1.0 && b.x == a.x && b.y == a.y + 1.0
    ensures IsNorm(norm, a, b)
  {
  }

  lemma EdgeMeshFacts()
    ensures var m := EdgeMesh();
      && m.Valid() && |m.lsf| == 4 && m.lsf[3] == 1.0 && |m.triangles| == 2
      && m.triangles[0].vertices == [0, 1, 2] && !m.Cut(m.triangles[1])
      && forall v :: 0 <= v < 3 ==> m.lsf[v] <= 0.0
  {
    hide ZeroSegment;
    hide IsZeroLevelset;
    hide IsNorm;
    hide Area;
    var m := EdgeMesh();
    var s, t := m.triangles[0], m.triangles[1];
    assert m.Values(s) == [-1.0, 0.0, 0.0] && m.Values(t) == [0.0, 0.0, 1.0];
    HalfSquare(m.Corners(s));
    OtherHalf(m.Corners(t));
    UnitNorm(1.0, Vec(0.0, 0.0), Vec(0.0, 1.0));
    LastTwoZero(m.Corners(s), m.Values(s));
    FirstTwoZero(m.Corners(t), m.Values(t));
  }

  /** The marker 1 becomes 0: its vertex changes from ice-free to the zero line. */
  lemma UnseenSideLost()
    ensures var m := EdgeMesh();
      m.Valid() && |m.lsf| == 4 && m.lsf[3] == 1.0 && Result(m, 3) == Num(0.0)
  {
    hide Mesh.Cut;
    hide Mesh.ValidTriangle;
    hide Result;
    hide EdgeMesh;
    EdgeMeshFacts();
    var m := EdgeMesh();
    assert !Touched(m, 3, 1);
    forall v: nat ensures !Seen(m, v, true) {
    }
    SignsKept(m, 3);
  }
}
