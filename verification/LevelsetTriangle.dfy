/**
  A triangle cut by the zero line of a level set: the two points that the program computes are distinct and lie on the
  zero line of the linear interpolant, so distances to their line are proportional to the level set.
 */
module LevelsetTriangle {
  import opened LevelsetGeometry

  ghost predicate Three(xs: seq<Vec>, ls: seq<real>) {
    |xs| == 3 && |ls| == 3
  }

  /** Twice the signed area. */
  function Area(xs: seq<Vec>): real
    requires |xs| == 3
  {
    Cross(Minus(xs[1], xs[0]), Minus(xs[2], xs[0]))
  }

  /** Ice (a negative value) and a sign change, or zeros that make an edge or a crossing. */
  predicate IsZeroLevelset(ls: seq<real>)
    requires |ls| == 3
  {
    && (ls[0] < 0.0 || ls[1] < 0.0 || ls[2] < 0.0)
    && (ls[0] * ls[1] < 0.0 || ls[0] * ls[2] < 0.0
        || (ls[0] * ls[1] * ls[2] == 0.0 && ls[0] * ls[1] + ls[0] * ls[2] + ls[1] * ls[2] <= 0.0))
  }

  // ---------------------------------------------------------------- the intersection

  /** The vertices among the first k that lie on one side of the level, in order. */
  function Side(ls: seq<real>, level: real, below: bool, k: nat): (r: seq<nat>)
    requires k <= |ls|
    ensures |r| <= k && forall i :: 0 <= i < |r| ==> r[i] < k
  {
    if k == 0 then []
    else Side(ls, level, below, k - 1) + if (ls[k - 1] <= level) == below then [k - 1] else []
  }

  /** Where the level lies between two vertices, as a fraction of the way from a to b. */
  function Fraction(ls: seq<real>, level: real, a: nat, b: nat): real
    requires a < |ls| && b < |ls|
  {
    if ls[b] == ls[a] then 0.0 else (level - ls[a]) / (ls[b] - ls[a])
  }

  lemma {:induction false} SideFacts(ls: seq<real>, level: real, k: nat)
    requires k <= |ls|
    ensures |Side(ls, level, true, k)| + |Side(ls, level, false, k)| == k
    ensures forall i :: 0 <= i < |Side(ls, level, true, k)| ==> ls[Side(ls, level, true, k)[i]] <= level
    ensures forall i :: 0 <= i < |Side(ls, level, false, k)| ==> ls[Side(ls, level, false, k)[i]] > level
  {
    if k > 0 {
      SideFacts(ls, level, k - 1);
    }
  }

  method Sides(ls: seq<real>, level: real) returns (ice: seq<nat>, dry: seq<nat>)
    ensures ice == Side(ls, level, true, |ls|) && dry == Side(ls, level, false, |ls|)
  {
    ice, dry := [], [];
    for i := 0 to |ls|
      invariant ice == Side(ls, level, true, i) && dry == Side(ls, level, false, i)
    {
      if ls[i] <= level {
        ice := ice + [i];
      } else {
        dry := dry + [i];
      }
    }
  }

  /** An order of the three vertices that keeps them counter-clockwise. */
  predicate CounterClockwise(indices: seq<nat>) {
    indices == [0, 1, 2] || indices == [1, 2, 0] || indices == [2, 0, 1]
  }

  /** The other two vertices are on the other side of the level. */
  predicate Alone(ls: seq<real>, level: real, v: nat)
    requires |ls| == 3 && v < 3
  {
    forall i :: 0 <= i < 3 && i != v ==> (ls[i] <= level) != (ls[v] <= level)
  }

  function SideOf(ls: seq<real>, level: real, icy: bool, i: nat): seq<nat>
    requires i < |ls|
  {
    if (ls[i] <= level) == icy then [i] else []
  }

  lemma SideOfThree(ls: seq<real>, level: real, icy: bool)
    requires |ls| == 3
    ensures Side(ls, level, icy, 3) == SideOf(ls, level, icy, 0) + SideOf(ls, level, icy, 1) + SideOf(ls, level, icy, 2)
  {
    assert Side(ls, level, icy, 1) == SideOf(ls, level, icy, 0);
  }

  /** The promised counter-clockwise order is kept just when vertex 1 is not alone on its side. */
  lemma CounterClockwiseIff(ls: seq<real>, level: real)
    requires |ls| == 3
    ensures CounterClockwise(Side(ls, level, true, 3) + Side(ls, level, false, 3)) <==> !Alone(ls, level, 1)
  {
    hide Side;
    SideOfThree(ls, level, true);
    SideOfThree(ls, level, false);
    var order := Side(ls, level, true, 3) + Side(ls, level, false, 3);
    var a, b, c := ls[0] <= level, ls[1] <= level, ls[2] <= level;
    assert Alone(ls, level, 1) <==> a != b && c != b;
    assert order == if b == c && a != b then (if b then [1, 2, 0] else [0, 1, 2])
                    else if a == b then (if c && !a then [2, 0, 1] else [0, 1, 2])
                    else if b then [1, 0, 2] else [0, 2, 1];
  }

  /** Ice at vertex 1 only: the vertices come out clockwise. */
  lemma ClockwiseTriangle()
    ensures Side([1.0, -1.0, 1.0], 0.0, true, 3) + Side([1.0, -1.0, 1.0], 0.0, false, 3) == [1, 0, 2]
    ensures !CounterClockwise([1, 0, 2])
  {
    hide Side;
    SideOfThree([1.0, -1.0, 1.0], 0.0, true);
    SideOfThree([1.0, -1.0, 1.0], 0.0, false);
  }

  /** The icy vertices first, how many they are, and the fractions along the two edges that the level crosses. */
  method GetLevelsetIntersection(ls: seq<real>, level: real) returns (indices: seq<nat>, iceVertices: nat, fraction: seq<real>)
    requires |ls| == 3
    ensures indices == Side(ls, level, true, 3) + Side(ls, level, false, 3)
    ensures iceVertices == |Side(ls, level, true, 3)| && |indices| == 3 && |fraction| == 2
    ensures forall i :: 0 <= i < 3 ==> indices[i] < 3
    ensures CounterClockwise(indices) <==> !Alone(ls, level, 1)
    ensures iceVertices == 1 ==> forall k :: 0 <= k < 2 ==> fraction[k] == Fraction(ls, level, indices[0], indices[1 + k])
    ensures iceVertices == 2 ==> forall k :: 0 <= k < 2 ==> fraction[k] == Fraction(ls, level, indices[k], indices[2])
  {
    hide Side;
    hide CounterClockwise;
    hide Alone;
    var ice, dry := Sides(ls, level);
    SideFacts(ls, level, 3);
    CounterClockwiseIff(ls, level);
    indices, iceVertices := ice + dry, |ice|;
    assert forall i :: 0 <= i < iceVertices ==> ls[indices[i]] <= level;
    assert forall i :: iceVertices <= i < 3 ==> ls[indices[i]] > level;
    fraction := [0.0, 0.0];
    for i := 0 to 2
      invariant |fraction| == 2
      invariant iceVertices == 1 ==> forall k :: 0 <= k < i ==> fraction[k] == Fraction(ls, level, indices[0], indices[1 + k])
      invariant iceVertices == 2 ==> forall k :: 0 <= k < i ==> fraction[k] == Fraction(ls, level, indices[k], indices[2])
    {
      if iceVertices == 1 {
        fraction := fraction[i := (level - ls[indices[0]]) / (ls[indices[1 + i]] - ls[indices[0]])];
      } else if iceVertices == 2 {
        fraction := fraction[i := (level - ls[indices[i]]) / (ls[indices[2]] - ls[indices[i]])];
      } else if iceVertices == 3 {
        fraction := fraction[i := 1.0];
      }
    }
  }

  /** The first k vertices where the level set is zero. */
  function Zeros(ls: seq<real>, k: nat): (r: seq<nat>)
    requires k <= |ls|
    ensures |r| <= k && forall i :: 0 <= i < |r| ==> r[i] < k
  {
    if k == 0 then [] else Zeros(ls, k - 1) + if ls[k - 1] == 0.0 then [k - 1] else []
  }

  function Crossing(xs: seq<Vec>, ls: seq<real>, a: nat, b: nat): Vec
    requires Three(xs, ls) && a < 3 && b < 3
  {
    Toward(xs[a], xs[b], Fraction(ls, 0.0, a, b))
  }

  datatype Segment = NoSegment | Segment(s0: Vec, s1: Vec)

  /** The segment that the zero line cuts, if the program finds two points. */
  function ZeroSegment(xs: seq<Vec>, ls: seq<real>): Segment
    requires Three(xs, ls)
  {
    var ice, dry, zeros := Side(ls, 0.0, true, 3), Side(ls, 0.0, false, 3), Zeros(ls, 3);
    if |ice| == 1 && |dry| == 2 then Segment(Crossing(xs, ls, ice[0], dry[0]), Crossing(xs, ls, ice[0], dry[1]))
    else if |ice| == 2 && |dry| == 1 then Segment(Crossing(xs, ls, ice[0], dry[0]), Crossing(xs, ls, ice[1], dry[0]))
    else if |ice| == 3 && |zeros| >= 2 then Segment(xs[zeros[0]], xs[zeros[1]])
    else NoSegment
  }

  method ZeroLevelsetCoordinates(xs: seq<Vec>, ls: seq<real>) returns (r: Segment)
    requires Three(xs, ls)
    ensures r == ZeroSegment(xs, ls)
  {
    hide Side;
    hide Zeros;
    hide Fraction;
    var indices, iceVertices, s := GetLevelsetIntersection(ls, 0.0);
    SideFacts(ls, 0.0, 3);
    if iceVertices == 0 {
      r := NoSegment;
    } else if iceVertices < 3 {
      r := EdgePoints(xs, indices, iceVertices, s);
    } else {
      AllIce(ls);
      r := VertexPoints(xs, ls);
    }
  }

  /** From every icy vertex toward every dry one. */
  method EdgePoints(xs: seq<Vec>, indices: seq<nat>, iceVertices: nat, s: seq<real>) returns (r: Segment)
    requires |xs| == |indices| == 3 && |s| == 2 && (iceVertices == 1 || iceVertices == 2)
    requires forall i :: 0 <= i < 3 ==> indices[i] < 3
    ensures iceVertices == 1 ==>
      r == Segment(Toward(xs[indices[0]], xs[indices[1]], s[0]), Toward(xs[indices[0]], xs[indices[2]], s[1]))
    ensures iceVertices == 2 ==>
      r == Segment(Toward(xs[indices[0]], xs[indices[2]], s[0]), Toward(xs[indices[1]], xs[indices[2]], s[1]))
  {
    hide Toward;
    var found: seq<Vec> := [];
    for i := 0 to iceVertices
      invariant |found| == i * (3 - iceVertices)
      invariant forall k :: 0 <= k < |found| ==> found[k] == EdgePoint(xs, indices, iceVertices, s, k)
    {
      for n := iceVertices to 3
        invariant |found| == i * (3 - iceVertices) + (n - iceVertices)
        invariant forall k :: 0 <= k < |found| ==> found[k] == EdgePoint(xs, indices, iceVertices, s, k)
      {
        found := found + [Toward(xs[indices[i]], xs[indices[n]], s[|found|])];
      }
    }
    assert found[0] == EdgePoint(xs, indices, iceVertices, s, 0) && found[1] == EdgePoint(xs, indices, iceVertices, s, 1);
    r := Segment(found[0], found[1]);
  }

  function EdgePoint(xs: seq<Vec>, indices: seq<nat>, iceVertices: nat, s: seq<real>, k: nat): Vec
    requires |xs| == |indices| == 3 && |s| == 2 && k < 2
    requires forall i :: 0 <= i < 3 ==> indices[i] < 3
  {
    if iceVertices == 1 then Toward(xs[indices[0]], xs[indices[1 + k]], s[k]) else Toward(xs[indices[k]], xs[indices[2]], s[k])
  }

  function Places(xs: seq<Vec>, r: seq<nat>): (s: seq<Vec>)
    requires forall i :: 0 <= i < |r| ==> r[i] < |xs|
    ensures |s| == |r| && forall i :: 0 <= i < |r| ==> s[i] == xs[r[i]]
  {
    seq(|r|, i requires 0 <= i < |r| => xs[r[i]])
  }

  lemma NoZeros(xs: seq<Vec>, ls: seq<real>)
    ensures Zeros(ls, 0) == [] && Places(xs, []) == []
  {
  }

  lemma NextZero(ls: seq<real>, k: nat)
    requires k < |ls|
    ensures Zeros(ls, k + 1) == if ls[k] == 0.0 then Zeros(ls, k) + [k] else Zeros(ls, k)
  {
  }

  lemma PlacesGrow(xs: seq<Vec>, r: seq<nat>, v: nat)
    requires v < |xs| && forall i :: 0 <= i < |r| ==> r[i] < |xs|
    ensures Places(xs, r + [v]) == Places(xs, r) + [xs[v]]
  {
  }

  /** The first two vertices on the zero line. */
  method VertexPoints(xs: seq<Vec>, ls: seq<real>) returns (r: Segment)
    requires Three(xs, ls)
    ensures r == if |Zeros(ls, 3)| >= 2 then Segment(xs[Zeros(ls, 3)[0]], xs[Zeros(ls, 3)[1]]) else NoSegment
  {
    hide Zeros;
    hide Places;
    var found: seq<Vec> := [];
    NoZeros(xs, ls);
    for i := 0 to 3
      invariant |found| < 2 && found == Places(xs, Zeros(ls, i))
    {
      NextZero(ls, i);
      if ls[i] == 0.0 {
        PlacesGrow(xs, Zeros(ls, i), i);
        found := found + [xs[i]];
      }
      if |found| == 2 {
        ZerosGrow(ls, i + 1, 3);
        return Segment(found[0], found[1]);
      }
    }
    r := NoSegment;
  }

  lemma AllIce(ls: seq<real>)
    requires |ls| == 3 && |Side(ls, 0.0, true, 3)| == 3
    ensures Side(ls, 0.0, true, 3) == [0, 1, 2]
  {
  }

  lemma {:induction false} ZerosGrow(ls: seq<real>, i: nat, k: nat)
    requires i <= k <= |ls|
    ensures Zeros(ls, i) <= Zeros(ls, k)
  {
    if i < k {
      ZerosGrow(ls, i, k - 1);
    }
  }
}
