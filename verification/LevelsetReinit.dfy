/**
  Reinitialisation of the level set to signed distances near its zero line.

  Vertices of cut triangles are set to not-a-number, then to the smallest distance that any cut triangle around them
  reports; the largest distances seen on the way scale the vertices that carry the values 1 and -1.
 */
module LevelsetReinit {
  import opened RealFacts
  import opened LevelsetGeometry
  import opened LevelsetTriangle
  import opened LevelsetZeroLine

  /** A floating-point value, as far as the program tells values apart. */
  datatype Entry = NaN | Num(value: real)

  /** norm is the length of the triangle's zero segment, where it has one. */
  datatype Triangle = Triangle(vertices: seq<nat>, norm: real)

  datatype Mesh = Mesh(points: seq<Vec>, lsf: seq<real>, triangles: seq<Triangle>) {
    ghost predicate Valid() {
      && |points| == |lsf|
      && forall t :: t in triangles ==> ValidTriangle(t)
    }

    ghost predicate ValidTriangle(t: Triangle) {
      && |points| == |lsf|
      && Sized(t)
      && Area(Corners(t)) != 0.0
      && var s := ZeroSegment(Corners(t), Values(t)); s.Segment? ==> IsNorm(t.norm, s.s0, s.s1)
    }

    predicate Sized(t: Triangle) {
      |t.vertices| == 3 && t.vertices[0] < |points| && t.vertices[1] < |points| && t.vertices[2] < |points|
    }

    function Corners(t: Triangle): (r: seq<Vec>)
      requires Sized(t)
      ensures |r| == 3
    {
      [points[t.vertices[0]], points[t.vertices[1]], points[t.vertices[2]]]
    }

    function Values(t: Triangle): (r: seq<real>)
      requires Sized(t) && |points| == |lsf|
      ensures |r| == 3
    {
      [lsf[t.vertices[0]], lsf[t.vertices[1]], lsf[t.vertices[2]]]
    }

    ghost predicate Cut(t: Triangle)
      requires ValidTriangle(t)
    {
      IsZeroLevelset(Values(t))
    }

    /** The signed distance of the triangle's k-th vertex to its zero line. */
    ghost function Distance(t: Triangle, k: nat): real
      requires ValidTriangle(t) && Cut(t) && k < 3
    {
      DistancesFollow(Corners(t), Values(t), t.norm, k, k);
      SignedDistance(Corners(t), Values(t), t.norm, k)
    }
  }

  // ---------------------------------------------------------------- what the loops compute, vertex by vertex

  /** Some cut triangle among the first i has the vertex v. */
  ghost predicate Touched(m: Mesh, v: nat, i: nat)
    requires m.Valid() && i <= |m.triangles|
  {
    i > 0 && (Touched(m, v, i - 1) || (m.Cut(m.triangles[i - 1]) && v in m.triangles[i - 1].vertices))
  }

  /** The smaller distance wins; anything beats not-a-number. */
  function Nearer(prior: Entry, d: real): Entry {
    if prior.NaN? || Abs(d) < Abs(prior.value) then Num(d) else prior
  }

  /** Entry v after the first k vertices of a cut triangle are inserted. */
  ghost function Inserted(m: Mesh, t: Triangle, v: nat, prior: Entry, k: nat): Entry
    requires m.ValidTriangle(t) && m.Cut(t) && k <= 3
  {
    if k == 0 then prior
    else
      var e := Inserted(m, t, v, prior, k - 1);
      if t.vertices[k - 1] == v then Nearer(e, m.Distance(t, k - 1)) else e
  }

  ghost function Cleared(m: Mesh, v: nat): Entry
    requires m.Valid() && v < |m.lsf|
  {
    if Touched(m, v, |m.triangles|) then NaN else Num(m.lsf[v])
  }

  /** Entry v after the second loop has seen the first i triangles. */
  ghost function After(m: Mesh, v: nat, i: nat): Entry
    requires m.Valid() && v < |m.lsf| && i <= |m.triangles|
  {
    if i == 0 then Cleared(m, v)
    else
      var t := m.triangles[i - 1];
      if m.Cut(t) then Inserted(m, t, v, After(m, v, i - 1), 3) else After(m, v, i - 1)
  }

  datatype Extremes = Extremes(above: real, below: real)

  /** The running maximum of positive and minimum of negative entries. */
  function Widened(x: Extremes, e: Entry): Extremes {
    if e.Num? && e.value > 0.0 && e.value > x.above then x.(above := e.value)
    else if e.Num? && e.value < 0.0 && e.value < x.below then x.(below := e.value)
    else x
  }

  /** The extremes after the first i triangles. */
  ghost function Range(m: Mesh, i: nat): Extremes
    requires m.Valid() && i <= |m.triangles|
  {
    if i == 0 then Extremes(0.0, 0.0)
    else
      var t := m.triangles[i - 1];
      if !m.Cut(t) then Range(m, i - 1)
      else
        assert m.ValidTriangle(t);
        Widened(Widened(Widened(Range(m, i - 1), After(m, t.vertices[0], i)), After(m, t.vertices[1], i)), After(m, t.vertices[2], i))
  }

  /** Markers 1 and -1 go three times as far as the extremes. */
  function Spread(e: Entry, x: Extremes): Entry {
    if e == Num(1.0) then Num(3.0 * x.above) else if e == Num(-1.0) then Num(3.0 * x.below) else e
  }

  ghost function Result(m: Mesh, v: nat): Entry
    requires m.Valid() && v < |m.lsf|
  {
    Spread(After(m, v, |m.triangles|), Range(m, |m.triangles|))
  }

  // ---------------------------------------------------------------- the loops

  method ClearTriangle(vec: array<Entry>, t: Triangle)
    requires |t.vertices| == 3 && forall k :: 0 <= k < 3 ==> t.vertices[k] < vec.Length
    modifies vec
    ensures forall v :: 0 <= v < vec.Length ==> vec[v] == if v in t.vertices then NaN else old(vec[v])
  {
    for k := 0 to 3
      invariant forall v :: 0 <= v < vec.Length ==> vec[v] == if v in t.vertices[..k] then NaN else old(vec[v])
    {
      assert t.vertices[..k + 1] == t.vertices[..k] + [t.vertices[k]];
      vec[t.vertices[k]] := NaN;
    }
    assert t.vertices[..3] == t.vertices;
  }

  method SignedDistances(m: Mesh, t: Triangle) returns (d: seq<real>)
    requires m.ValidTriangle(t) && m.Cut(t)
    ensures |d| == 3 && forall k :: 0 <= k < 3 ==> d[k] == m.Distance(t, k)
  {
    var xs, ls := m.Corners(t), m.Values(t);
    var r := ZeroLevelsetCoordinates(xs, ls);
    DistancesFollow(xs, ls, t.norm, 0, 0);
    d := [];
    for k := 0 to 3
      invariant |d| == k && forall j :: 0 <= j < k ==> d[j] == m.Distance(t, j)
    {
      var sign := if ls[k] >= 0.0 then 1.0 else -1.0;
      var dist := GetDistanceToStraight(xs[k], r.s0, r.s1, t.norm);
      d := d + [sign * dist];
      assert d[k] == SignedDistance(xs, ls, t.norm, k);
    }
  }

  lemma NextInserted(m: Mesh, t: Triangle, v: nat, prior: Entry, k: nat)
    requires m.ValidTriangle(t) && m.Cut(t) && k < 3
    ensures |t.vertices| == 3
    ensures Inserted(m, t, v, prior, 0) == prior
    ensures var e := Inserted(m, t, v, prior, k);
      Inserted(m, t, v, prior, k + 1) == if t.vertices[k] == v then Nearer(e, m.Distance(t, k)) else e
  {
  }

  method SetDistanceToZeroLevelsetElement(vec: array<Entry>, m: Mesh, t: Triangle)
    requires m.ValidTriangle(t) && m.Cut(t) && vec.Length == |m.points|
    modifies vec
    ensures forall v: nat :: v < vec.Length ==> vec[v] == Inserted(m, t, v, old(vec[v]), 3)
  {
    hide Mesh.Distance;
    hide Mesh.Cut;
    hide Mesh.ValidTriangle;
    hide Inserted;
    InRange(m, t);
    var d := SignedDistances(m, t);
    forall v: nat | v < vec.Length ensures Inserted(m, t, v, vec[v], 0) == vec[v] {
      NextInserted(m, t, v, vec[v], 0);
    }
    for k := 0 to 3
      invariant forall v: nat :: v < vec.Length ==> vec[v] == Inserted(m, t, v, old(vec[v]), k)
    {
      var v := t.vertices[k];
      assert v < vec.Length;
      ghost var before := vec[..];
      if vec[v].NaN? || Abs(d[k]) < Abs(vec[v].value) {
        vec[v] := Num(d[k]);
      }
      forall u: nat | u < vec.Length ensures vec[u] == Inserted(m, t, u, old(vec[u]), k + 1) {
        NextInserted(m, t, u, old(vec[u]), k);
        assert before[u] == Inserted(m, t, u, old(vec[u]), k);
      }
    }
  }

  method Widen(x: Extremes, vec: array<Entry>, t: Triangle) returns (y: Extremes)
    requires |t.vertices| == 3 && forall k :: 0 <= k < 3 ==> t.vertices[k] < vec.Length
    ensures y == Widened(Widened(Widened(x, vec[t.vertices[0]]), vec[t.vertices[1]]), vec[t.vertices[2]])
  {
    var above, below := x.above, x.below;
    ghost var steps := [x, Widened(x, vec[t.vertices[0]]), Widened(Widened(x, vec[t.vertices[0]]), vec[t.vertices[1]]),
                        Widened(Widened(Widened(x, vec[t.vertices[0]]), vec[t.vertices[1]]), vec[t.vertices[2]])];
    for k := 0 to 3
      invariant Extremes(above, below) == steps[k]
    {
      var e := vec[t.vertices[k]];
      assert steps[k + 1] == Widened(steps[k], e);
      if e.Num? && e.value > 0.0 && e.value > above {
        above := e.value;
      } else if e.Num? && e.value < 0.0 && e.value < below {
        below := e.value;
      }
    }
    y := Extremes(above, below);
  }

  method ClearIntersected(vec: array<Entry>, m: Mesh)
    requires m.Valid() && vec.Length == |m.lsf|
    requires forall v: nat :: v < vec.Length ==> vec[v] == Num(m.lsf[v])
    modifies vec
    ensures forall v: nat :: v < vec.Length ==> vec[v] == Cleared(m, v)
  {
    hide Mesh.Cut;
    hide Mesh.ValidTriangle;
    for i := 0 to |m.triangles|
      invariant forall v: nat :: v < vec.Length ==> vec[v] == if Touched(m, v, i) then NaN else Num(m.lsf[v])
    {
      var t := m.triangles[i];
      assert t in m.triangles;
      InRange(m, t);
      if IsZeroLevelset(m.Values(t)) {
        CutIs(m, t);
        ClearTriangle(vec, t);
      } else {
        CutIs(m, t);
      }
    }
  }

  lemma InRange(m: Mesh, t: Triangle)
    requires m.ValidTriangle(t)
    ensures m.Sized(t) && |m.points| == |m.lsf| && |t.vertices| == 3
    ensures forall k :: 0 <= k < 3 ==> t.vertices[k] < |m.lsf|
  {
    hide ZeroSegment;
    hide IsNorm;
    hide Area;
  }

  lemma CutIs(m: Mesh, t: Triangle)
    requires m.ValidTriangle(t)
    ensures m.Sized(t) && |m.points| == |m.lsf|
    ensures m.Cut(t) <==> IsZeroLevelset(m.Values(t))
  {
  }

  /** The second loop: distances, and their extremes so far. */
  method InsertDistances(vec: array<Entry>, m: Mesh) returns (x: Extremes)
    requires m.Valid() && vec.Length == |m.lsf|
    requires forall v: nat :: v < vec.Length ==> vec[v] == Cleared(m, v)
    modifies vec
    ensures forall v: nat :: v < vec.Length ==> vec[v] == After(m, v, |m.triangles|)
    ensures x == Range(m, |m.triangles|)
  {
    hide Mesh.Cut;
    hide Mesh.ValidTriangle;
    hide Cleared;
    hide Inserted;
    hide Widened;
    x := Extremes(0.0, 0.0);
    for i := 0 to |m.triangles|
      invariant forall v: nat :: v < vec.Length ==> vec[v] == After(m, v, i)
      invariant x == Range(m, i)
    {
      var t := m.triangles[i];
      assert t in m.triangles;
      InRange(m, t);
      CutIs(m, t);
      if IsZeroLevelset(m.Values(t)) {
        SetDistanceToZeroLevelsetElement(vec, m, t);
        x := Widen(x, vec, t);
      }
    }
  }

  /** The vector that becomes the new level set. */
  method SetDistanceOnIntersectedElements(m: Mesh) returns (vec: array<Entry>)
    requires m.Valid()
    ensures fresh(vec) && vec.Length == |m.lsf|
    ensures forall v: nat :: v < vec.Length ==> vec[v] == Result(m, v)
  {
    hide After;
    hide Range;
    hide Cleared;
    var n := |m.lsf|;
    vec := new Entry[n](v requires 0 <= v < n => Num(m.lsf[v]));
    ClearIntersected(vec, m);
    var x := InsertDistances(vec, m);
    for i := 0 to n
      invariant forall v: nat :: v < n ==> vec[v] == if v < i then Result(m, v) else After(m, v, |m.triangles|)
    {
      if vec[i] == Num(1.0) {
        vec[i] := Num(3.0 * x.above);
      } else if vec[i] == Num(-1.0) {
        vec[i] := Num(3.0 * x.below);
      }
    }
  }
}
