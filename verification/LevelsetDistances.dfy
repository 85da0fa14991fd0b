/** What reinitialisation leaves at every vertex, whatever the order of the triangles. */
module LevelsetDistances {
  import opened RealFacts
  import opened LevelsetGeometry
  import opened LevelsetTriangle
  import opened LevelsetZeroLine
  import opened LevelsetReinit

  /** v is the k-th vertex of the cut triangle t. */
  ghost predicate Contact(m: Mesh, v: nat, t: Triangle, k: nat)
    requires m.Valid()
  {
    t in m.triangles && m.Cut(t) && k < 3 && t.vertices[k] == v
  }

  /** x is the sign of the level set at v times the least distance that any cut triangle around v reports. */
  ghost predicate IsNearest(m: Mesh, v: nat, x: real)
    requires m.Valid() && v < |m.lsf|
  {
    && x == Sign(m.lsf[v]) * Abs(x)
    && (exists t, k :: Contact(m, v, t, k) && x == m.Distance(t, k))
    && (forall t, k :: Contact(m, v, t, k) ==> Abs(x) <= Abs(m.Distance(t, k)))
  }

  /** What an entry is once the first i triangles and k vertices of the next have been inserted. */
  ghost predicate Settled(m: Mesh, v: nat, i: nat, t: Triangle, k: nat, e: Entry)
    requires m.Valid() && v < |m.lsf| && i <= |m.triangles|
  {
    if e.NaN? then forall u, j :: !Reported(m, v, i, t, k, u, j)
    else
      && e.value == Sign(m.lsf[v]) * Abs(e.value)
      && (exists u, j :: Reported(m, v, i, t, k, u, j) && e.value == m.Distance(u, j))
      && (forall u, j :: Reported(m, v, i, t, k, u, j) ==> Abs(e.value) <= Abs(m.Distance(u, j)))
  }

  ghost predicate Reported(m: Mesh, v: nat, i: nat, t: Triangle, k: nat, u: Triangle, j: nat)
    requires m.Valid() && i <= |m.triangles|
  {
    Contact(m, v, u, j) && (u in m.triangles[..i] || (u == t && j < k))
  }

  /** A reported distance has the sign of the level set at its vertex. */
  lemma DistanceSign(m: Mesh, t: Triangle, k: nat)
    requires m.Valid() && t in m.triangles && m.Cut(t) && k < 3
    ensures t.vertices[k] < |m.lsf|
    ensures var l, d := m.lsf[t.vertices[k]], m.Distance(t, k);
      d == Sign(l) * Abs(d) && (d > 0.0 <==> l > 0.0) && (d < 0.0 <==> l < 0.0)
  {
    hide SignedDistance;
    hide ZeroSegment;
    hide IsNorm;
    hide Area;
    assert m.ValidTriangle(t);
    DistancesFollow(m.Corners(t), m.Values(t), t.norm, k, k);
    assert m.Values(t)[k] == m.lsf[t.vertices[k]];
  }

  lemma {:induction false} InsertedSettles(m: Mesh, v: nat, i: nat, t: Triangle, prior: Entry, k: nat)
    requires m.Valid() && v < |m.lsf| && i <= |m.triangles| && t in m.triangles && m.Cut(t) && k <= 3
    requires Settled(m, v, i, t, 0, prior)
    ensures Settled(m, v, i, t, k, Inserted(m, t, v, prior, k))
  {
    hide Mesh.Distance;
    hide Mesh.Cut;
    hide Mesh.ValidTriangle;
    if k > 0 {
      InsertedSettles(m, v, i, t, prior, k - 1);
      assert m.ValidTriangle(t);
      InRange(m, t);
      OneMore(m, v, i, t, k - 1, Inserted(m, t, v, prior, k - 1));
    }
  }

  lemma OneMore(m: Mesh, v: nat, i: nat, t: Triangle, k: nat, e: Entry)
    requires m.Valid() && v < |m.lsf| && i <= |m.triangles| && t in m.triangles && m.Cut(t) && k < 3
    requires Settled(m, v, i, t, k, e)
    ensures |t.vertices| == 3
    ensures Settled(m, v, i, t, k + 1, if t.vertices[k] == v then Nearer(e, m.Distance(t, k)) else e)
  {
    hide Mesh.Distance;
    hide Mesh.Cut;
    hide Mesh.ValidTriangle;
    assert m.ValidTriangle(t);
    InRange(m, t);
    DistanceSign(m, t, k);
    var d := m.Distance(t, k);
    var f := if t.vertices[k] == v then Nearer(e, d) else e;
    var next := k + 1;
    forall u, j | Reported(m, v, i, t, next, u, j) ensures f.Num? {
      if !Reported(m, v, i, t, k, u, j) {
        assert u == t && j == k;
      }
    }
    if f.Num? {
      SettledNum(m, v, i, t, k, e, f);
    } else {
      assert forall u, j :: !Reported(m, v, i, t, next, u, j);
    }
  }

  lemma SettledNum(m: Mesh, v: nat, i: nat, t: Triangle, k: nat, e: Entry, f: Entry)
    requires m.Valid() && v < |m.lsf| && i <= |m.triangles| && t in m.triangles && m.Cut(t) && k < 3 && |t.vertices| == 3
    requires Settled(m, v, i, t, k, e) && f.Num?
    requires f == if t.vertices[k] == v then Nearer(e, m.Distance(t, k)) else e
    requires t.vertices[k] == v ==> m.Distance(t, k) == Sign(m.lsf[v]) * Abs(m.Distance(t, k))
    ensures Settled(m, v, i, t, k + 1, f)
  {
    hide Mesh.Distance;
    hide Mesh.Cut;
    hide Mesh.ValidTriangle;
    hide Sign;
    var d := m.Distance(t, k);
    forall u, j | Reported(m, v, i, t, k + 1, u, j) ensures Abs(f.value) <= Abs(m.Distance(u, j)) {
      if !Reported(m, v, i, t, k, u, j) {
        assert u == t && j == k;
      }
    }
    if t.vertices[k] == v && f == Num(d) {
      assert Reported(m, v, i, t, k + 1, t, k);
    } else {
      var u, j :| Reported(m, v, i, t, k, u, j) && e.value == m.Distance(u, j);
      assert Reported(m, v, i, t, k + 1, u, j);
    }
  }

  /** Which triangle comes next does not matter before its first vertex. */
  lemma Advance(m: Mesh, v: nat, i: nat, t: Triangle, k: nat, next: Triangle, e: Entry)
    requires m.Valid() && v < |m.lsf| && 0 < i <= |m.triangles| && t == m.triangles[i - 1]
    requires k == if m.Cut(t) then 3 else 0
    requires Settled(m, v, i - 1, t, k, e)
    ensures Settled(m, v, i, next, 0, e)
  {
    hide Mesh.Distance;
    hide Mesh.Cut;
    hide Mesh.ValidTriangle;
    var before := i - 1;
    assert m.triangles[..i] == m.triangles[..before] + [t];
    forall u, j ensures Reported(m, v, i, next, 0, u, j) <==> Reported(m, v, before, t, k, u, j) {
    }
    if e.Num? {
      var u, j :| Reported(m, v, before, t, k, u, j) && e.value == m.Distance(u, j);
      assert Reported(m, v, i, next, 0, u, j);
    }
  }

  lemma {:induction false} AfterSettles(m: Mesh, v: nat, i: nat, next: Triangle)
    requires m.Valid() && v < |m.lsf| && i <= |m.triangles| && Touched(m, v, |m.triangles|)
    ensures Settled(m, v, i, next, 0, After(m, v, i))
  {
    hide Mesh.Distance;
    hide Mesh.Cut;
    hide Mesh.ValidTriangle;
    hide Touched;
    hide Inserted;
    if i > 0 {
      var t := m.triangles[i - 1];
      AfterSettles(m, v, i - 1, t);
      if m.Cut(t) {
        InsertedSettles(m, v, i - 1, t, After(m, v, i - 1), 3);
        Advance(m, v, i, t, 3, next, After(m, v, i));
      } else {
        Advance(m, v, i, t, 0, next, After(m, v, i));
      }
    }
  }

  lemma {:induction false} TouchedHasContact(m: Mesh, v: nat, i: nat)
    requires m.Valid() && i <= |m.triangles|
    ensures Touched(m, v, i) <==> exists t, k :: Contact(m, v, t, k) && t in m.triangles[..i]
  {
    hide Mesh.Cut;
    hide Mesh.ValidTriangle;
    if i > 0 {
      TouchedHasContact(m, v, i - 1);
      var before, t := i - 1, m.triangles[i - 1];
      assert m.triangles[..i] == m.triangles[..before] + [t];
      assert t in m.triangles;
      InRange(m, t);
      if m.Cut(t) && v in t.vertices {
        var k: nat :| k < 3 && t.vertices[k] == v;
        assert Contact(m, v, t, k);
      }
      if exists u, j :: Contact(m, v, u, j) && u in m.triangles[..i] {
        var u, j :| Contact(m, v, u, j) && u in m.triangles[..i];
        assert u in m.triangles[..before] || u == t;
      }
    }
  }

  /**
    After the second loop every vertex of a cut triangle holds its old sign times the least distance that any cut
    triangle around it reports; no vertex is left without a number, and the others keep their level set.
   */
  lemma NearDistances(m: Mesh, v: nat)
    requires m.Valid() && v < |m.lsf|
    ensures var e := After(m, v, |m.triangles|);
      && e.Num?
      && (Touched(m, v, |m.triangles|) ==> IsNearest(m, v, e.value))
      && (!Touched(m, v, |m.triangles|) ==> e.value == m.lsf[v])
  {
    hide Mesh.Distance;
    hide Mesh.Cut;
    hide Mesh.ValidTriangle;
    hide After;
    var n := |m.triangles|;
    if Touched(m, v, n) {
      hide Touched;
      TouchedHasContact(m, v, n);
      assert m.triangles[..n] == m.triangles;
      var t, k :| Contact(m, v, t, k);
      AfterSettles(m, v, n, t);
      var e := After(m, v, n);
      assert Reported(m, v, n, t, 0, t, k);
      forall u, j | Contact(m, v, u, j) ensures Abs(e.value) <= Abs(m.Distance(u, j)) {
        assert Reported(m, v, n, t, 0, u, j);
      }
    } else {
      UntouchedAfter(m, v, n);
    }
  }

  lemma {:induction false} UntouchedAfter(m: Mesh, v: nat, i: nat)
    requires m.Valid() && v < |m.lsf| && i <= |m.triangles| && !Touched(m, v, |m.triangles|)
    ensures After(m, v, i) == Num(m.lsf[v])
  {
    hide Mesh.Distance;
    hide Mesh.Cut;
    hide Mesh.ValidTriangle;
    if i > 0 {
      UntouchedAfter(m, v, i - 1);
      TouchedGrows(m, v, i, |m.triangles|);
      var t := m.triangles[i - 1];
      assert t in m.triangles;
      InRange(m, t);
      if m.Cut(t) {
        NotInserted(m, t, v, After(m, v, i - 1), 3);
      }
    }
  }

  lemma {:induction false} TouchedGrows(m: Mesh, v: nat, i: nat, n: nat)
    requires m.Valid() && i <= n <= |m.triangles|
    ensures Touched(m, v, i) ==> Touched(m, v, n)
  {
    hide Mesh.Cut;
    hide Mesh.ValidTriangle;
    if i < n {
      TouchedGrows(m, v, i, n - 1);
    }
  }

  lemma {:induction false} NotInserted(m: Mesh, t: Triangle, v: nat, e: Entry, k: nat)
    requires m.ValidTriangle(t) && m.Cut(t) && k <= 3 && |t.vertices| == 3 && v !in t.vertices
    ensures Inserted(m, t, v, e, k) == e
  {
    hide Mesh.Distance;
    hide Mesh.Cut;
    hide Mesh.ValidTriangle;
    if k > 0 {
      NotInserted(m, t, v, e, k - 1);
      assert t.vertices[k - 1] in t.vertices;
    }
  }

  /** The least distance and the sign determine the entry. */
  lemma NearestUnique(m: Mesh, v: nat, x: real, y: real)
    requires m.Valid() && v < |m.lsf| && IsNearest(m, v, x) && IsNearest(m, v, y)
    ensures x == y
  {
  }

  /** The same mesh with its triangles in another order, or repeated. */
  ghost predicate SameTriangles(m: Mesh, m': Mesh) {
    m.points == m'.points && m.lsf == m'.lsf && forall t :: t in m.triangles <==> t in m'.triangles
  }

  lemma SameContact(m: Mesh, m': Mesh, v: nat, x: real)
    requires m.Valid() && m'.Valid() && SameTriangles(m, m') && v < |m.lsf| && IsNearest(m, v, x)
    ensures IsNearest(m', v, x)
  {
    hide Sign;
    hide Mesh.Distance;
    hide Mesh.Cut;
    hide Mesh.ValidTriangle;
    SameTriangle(m, m');
    SameSize(m, m');
    var t, k :| Contact(m, v, t, k) && x == m.Distance(t, k);
    assert Contact(m', v, t, k);
  }

  lemma SameTriangle(m: Mesh, m': Mesh)
    requires m.Valid() && m'.Valid() && SameTriangles(m, m')
    ensures forall t, k, v :: Contact(m', v, t, k) ==> Contact(m, v, t, k) && m'.Distance(t, k) == m.Distance(t, k)
    ensures forall t, k, v :: Contact(m, v, t, k) ==> Contact(m', v, t, k)
  {
    hide ZeroSegment;
    hide IsNorm;
    hide Area;
    hide IsZeroLevelset;
    hide SignedDistance;
  }

  lemma SameSize(m: Mesh, m': Mesh)
    requires SameTriangles(m, m')
    ensures |m.lsf| == |m'.lsf|
  {
  }

  /** The distances do not depend on the order of the triangles. */
  lemma DistancesOrderFree(m: Mesh, m': Mesh, v: nat)
    requires m.Valid() && m'.Valid() && SameTriangles(m, m') && v < |m.lsf|
    ensures After(m, v, |m.triangles|) == After(m', v, |m'.triangles|)
  {
    hide Mesh.Distance;
    hide Mesh.Cut;
    hide Mesh.ValidTriangle;
    hide After;
    hide Touched;
    hide IsNearest;
    NearDistances(m, v);
    NearDistances(m', v);
    SameTouched(m, m', v);
    if Touched(m, v, |m.triangles|) {
      SameContact(m, m', v, After(m, v, |m.triangles|).value);
      NearestUnique(m', v, After(m, v, |m.triangles|).value, After(m', v, |m'.triangles|).value);
    }
  }

  lemma SameTouched(m: Mesh, m': Mesh, v: nat)
    requires m.Valid() && m'.Valid() && SameTriangles(m, m') && v < |m.lsf|
    ensures Touched(m, v, |m.triangles|) <==> Touched(m', v, |m'.triangles|)
  {
    hide Touched;
    TouchedHasContact(m, v, |m.triangles|);
    TouchedHasContact(m', v, |m'.triangles|);
    SameTriangle(m, m');
    assert m.triangles[..|m.triangles|] == m.triangles && m'.triangles[..|m'.triangles|] == m'.triangles;
  }
}
