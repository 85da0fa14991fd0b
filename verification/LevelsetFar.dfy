/** How far the reinitialised level set puts the vertices that carry a marker. */
module LevelsetFar {
  import opened RealFacts
  import opened LevelsetZeroLine
  import opened LevelsetReinit
  import opened LevelsetDistances
  import opened LevelsetResult

  /** The second loop leaves e at a vertex of a cut triangle when it has inserted that triangle. */
  ghost predicate Passed(m: Mesh, i: nat, v: nat, e: Entry)
    requires m.Valid()
  {
    0 < i <= |m.triangles| && m.Cut(m.triangles[i - 1]) && v in m.triangles[i - 1].vertices && v < |m.lsf| && e == After(m, v, i)
  }

  /** x is the distance of some vertex of a cut triangle to that triangle's zero line. */
  ghost predicate Reports(m: Mesh, x: real)
    requires m.Valid()
  {
    exists v, t, k :: Contact(m, v, t, k) && x == m.Distance(t, k)
  }

  /** x is zero, or passed by within the first i triangles. */
  ghost predicate Attained(m: Mesh, i: nat, x: real)
    requires m.Valid()
  {
    x == 0.0 || exists j: nat, v :: j <= i && Passed(m, j, v, Num(x))
  }

  lemma ThreeAttained(x: Extremes, e0: Entry, e1: Entry, e2: Entry)
    ensures var y := Widened(Widened(Widened(x, e0), e1), e2);
      && (y.above == x.above || Num(y.above) == e0 || Num(y.above) == e1 || Num(y.above) == e2)
      && (y.below == x.below || Num(y.below) == e0 || Num(y.below) == e1 || Num(y.below) == e2)
  {
  }

  lemma LaterAttained(m: Mesh, i: nat, x: real)
    requires m.Valid() && Attained(m, i, x)
    ensures Attained(m, i + 1, x)
  {
    hide Passed;
  }

  lemma {:induction false} ExtremesAttained(m: Mesh, i: nat)
    requires m.Valid() && i <= |m.triangles|
    ensures Attained(m, i, Range(m, i).above) && Attained(m, i, Range(m, i).below)
  {
    hide After;
    hide Widened;
    hide Attained;
    hide Mesh.Cut;
    hide Mesh.ValidTriangle;
    if i == 0 {
      ZeroAttained(m);
    } else {
      ExtremesAttained(m, i - 1);
      LaterAttained(m, i - 1, Range(m, i - 1).above);
      LaterAttained(m, i - 1, Range(m, i - 1).below);
      var t := m.triangles[i - 1];
      assert t in m.triangles;
      InRange(m, t);
      if m.Cut(t) {
        ThreeAttained(Range(m, i - 1), After(m, t.vertices[0], i), After(m, t.vertices[1], i), After(m, t.vertices[2], i));
        VertexAttained(m, i, 0);
        VertexAttained(m, i, 1);
        VertexAttained(m, i, 2);
      }
    }
  }

  lemma ZeroAttained(m: Mesh)
    requires m.Valid()
    ensures Attained(m, 0, 0.0)
  {
  }

  lemma VertexAttained(m: Mesh, i: nat, k: nat)
    requires m.Valid() && 0 < i <= |m.triangles| && k < 3 && m.Cut(m.triangles[i - 1])
    ensures var t := m.triangles[i - 1];
      |t.vertices| == 3 && t.vertices[k] < |m.lsf|
    ensures var e := After(m, m.triangles[i - 1].vertices[k], i); e.Num? ==> Attained(m, i, e.value)
  {
    hide After;
    hide Mesh.Cut;
    hide Mesh.ValidTriangle;
    var t := m.triangles[i - 1];
    assert t in m.triangles;
    InRange(m, t);
    var v := t.vertices[k];
    assert v in t.vertices;
    assert Passed(m, i, v, After(m, v, i));
  }

  /** Whatever is passed by is a reported distance, and the extremes at the end cover it. */
  lemma {:induction false} ExtremesBound(m: Mesh, i: nat, v: nat, e: Entry, n: nat)
    requires m.Valid() && i <= n <= |m.triangles| && Passed(m, i, v, e)
    ensures Covered(Range(m, n), e)
  {
    hide After;
    hide Range;
    hide Mesh.Cut;
    hide Mesh.ValidTriangle;
    if i == n {
      RangeCovers(m, i, m.triangles[i - 1], v);
    } else {
      ExtremesBound(m, i, v, e, n - 1);
      RangeGrows(m, n);
    }
  }

  lemma PassedIsReported(m: Mesh, i: nat, v: nat, e: Entry)
    requires m.Valid() && Passed(m, i, v, e)
    ensures e.Num? ==> Reports(m, e.value)
  {
    hide After;
    hide Sign;
    hide Mesh.Distance;
    hide Mesh.Cut;
    hide Mesh.ValidTriangle;
    var t := m.triangles[i - 1];
    assert Touched(m, v, i);
    TouchedGrows(m, v, i, |m.triangles|);
    AfterSettles(m, v, i, t);
    if e.Num? {
      var u, j :| Reported(m, v, i, t, 0, u, j) && e.value == m.Distance(u, j);
      assert Contact(m, v, u, j);
    }
  }

  /** d is zero or a distance that was passed by, and no distance of its sign that was passed by is larger. */
  ghost predicate Farthest(m: Mesh, d: real, above: bool)
    requires m.Valid()
  {
    && (if above then d >= 0.0 else d <= 0.0)
    && (d != 0.0 ==> Reports(m, d))
    && Attained(m, |m.triangles|, d)
    && forall i, v, e :: Passed(m, i, v, e) && e.Num? ==> if above then e.value <= d else e.value >= d
  }

  lemma ExtremesFarthest(m: Mesh)
    requires m.Valid()
    ensures Farthest(m, Range(m, |m.triangles|).above, true) && Farthest(m, Range(m, |m.triangles|).below, false)
  {
    hide After;
    hide Range;
    hide Passed;
    hide Mesh.Cut;
    hide Mesh.ValidTriangle;
    hide Reports;
    var n, x := |m.triangles|, Range(m, |m.triangles|);
    ExtremesAttained(m, n);
    RangeSigned(m, n);
    forall i, v, e | Passed(m, i, v, e) ensures Covered(x, e) && (e.Num? ==> Reports(m, e.value)) {
      InTime(m, i, v, e);
      ExtremesBound(m, i, v, e, n);
      PassedIsReported(m, i, v, e);
    }
  }

  lemma InTime(m: Mesh, i: nat, v: nat, e: Entry)
    requires m.Valid() && Passed(m, i, v, e)
    ensures i <= |m.triangles|
  {
  }

  lemma {:induction false} RangeSigned(m: Mesh, i: nat)
    requires m.Valid() && i <= |m.triangles|
    ensures Range(m, i).above >= 0.0 >= Range(m, i).below
  {
    hide After;
    hide Mesh.Cut;
    hide Mesh.ValidTriangle;
    if i > 0 {
      RangeSigned(m, i - 1);
      RangeGrows(m, i);
    }
  }

  /**
    A vertex that holds 1 or -1 once the distances are in - a marker, outside all cut triangles - ends exactly three times
    as far, on its side, as the farthest distance that the second loop left at a vertex on the way. Others keep theirs.
   */
  lemma FarValue(m: Mesh, v: nat)
    requires m.Valid() && v < |m.lsf|
    ensures Result(m, v).Num? && After(m, v, |m.triangles|).Num?
    ensures var x, r := After(m, v, |m.triangles|).value, Result(m, v).value;
      && (!Touched(m, v, |m.triangles|) ==> x == m.lsf[v])
      && (x == 1.0 ==> exists d :: Farthest(m, d, true) && r == 3.0 * d)
      && (x == -1.0 ==> exists d :: Farthest(m, d, false) && r == 3.0 * d)
      && (Abs(x) != 1.0 ==> r == x)
  {
    hide After;
    hide Range;
    hide Touched;
    hide Farthest;
    hide IsNearest;
    hide Mesh.ValidTriangle;
    NearDistances(m, v);
    ExtremesFarthest(m);
  }

  /** Only one distance is the farthest. */
  lemma FarthestUnique(m: Mesh, d: real, d': real, above: bool)
    requires m.Valid() && Farthest(m, d, above) && Farthest(m, d', above)
    ensures d == d'
  {
    hide Passed;
    hide Reports;
  }
}
