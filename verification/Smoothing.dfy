/**
  Smoothing of a field: the assembled system conserves the field's integral, reproduces constants, is
  symmetric and non-negative, and never enlarges the field in the mean square.
 */
module Smoothing {
  import opened LinearAlgebra
  import opened Quadrature
  import A = Assembly

  datatype Input = DrivingStressX | DrivingStressY | SurfaceSlopeX | SurfaceSlopeY | Other

  /** The inputs at a quadrature point; surfaceNorm and speed are the square roots the driving stress uses. */
  datatype Inputs = Inputs(thickness: real, slopeX: real, slopeY: real, hasVelocity: bool, vx: real, vy: real,
                           surfaceNorm: real, speed: real, other: real) {
    ghost predicate Valid() {
      && surfaceNorm >= 0.0 && surfaceNorm * surfaceNorm == slopeX * slopeX + slopeY * slopeY + 0.0000000001
      && speed >= 0.0 && speed * speed == vx * vx + vy * vy
    }
  }

  datatype Element = Element(nodes: seq<nat>, points: seq<Point>, inputs: seq<Inputs>) {
    ghost predicate Valid() {
      && |points| == |inputs|
      && (forall g :: 0 <= g < |points| ==> points[g].PartitionOfUnity(|nodes|))
      && (forall g :: 0 <= g < |inputs| ==> inputs[g].hasVelocity ==> inputs[g].Valid())
    }

    ghost predicate Nonnegative() {
      forall g :: 0 <= g < |points| ==> points[g].Nonnegative()
    }
  }

  datatype Params = Params(multiplier: real, rhoIce: real, gravity: real, input: Input)

  const SLOW := 15.0 / (365.0 * 24.0 * 3600.0)

  /** The smoothing length: the multiplier times the thickness, which counts for at least 50. */
  function Length(p: Params, i: Inputs): real {
    p.multiplier * (if i.thickness < 50.0 then 50.0 else i.thickness)
  }

  /** The value to smooth. Driving stress follows the flow where it is fast enough. */
  function FieldValue(p: Params, i: Inputs): real {
    match p.input
    case DrivingStressX =>
      p.rhoIce * p.gravity * i.thickness
      * (if i.hasVelocity && i.speed > SLOW then -i.vx / i.speed * i.surfaceNorm else i.slopeX)
    case DrivingStressY =>
      p.rhoIce * p.gravity * i.thickness
      * (if i.hasVelocity && i.speed > SLOW then -i.vy / i.speed * i.surfaceNorm else i.slopeY)
    case SurfaceSlopeX => i.slopeX
    case SurfaceSlopeY => i.slopeY
    case Other => i.other
  }

  // ---------------------------------------------------------------- element matrix and load

  /** v plus one quadrature point's terms. */
  function WithPoint(v: Matrix, q: Point, length: real): Matrix {
    var (c, l) := Factors(q, length);
    OuterSum(OuterSum(OuterSum(v, c, q.basis, q.basis), l, q.dx, q.dx), l, q.dy, q.dy)
  }

  /** The factors of the values and of the gradients. */
  function Factors(q: Point, length: real): (real, real) {
    (q.weight * q.jdet, q.weight * q.jdet * (length * length))
  }

  function ElementMatrix(e: Element, p: Params, m: nat): Matrix
    requires e.Valid() && m <= |e.points|
  {
    if m == 0 then ZeroMatrix(|e.nodes|)
    else WithPoint(ElementMatrix(e, p, m - 1), e.points[m - 1], Length(p, e.inputs[m - 1]))
  }

  function ElementLoad(e: Element, p: Params, m: nat): (s: seq<real>)
    requires e.Valid() && m <= |e.points|
    ensures |s| == |e.nodes|
  {
    if m == 0 then Constant(|e.nodes|, 0.0)
    else
      var q := e.points[m - 1];
      Axpy(ElementLoad(e, p, m - 1), LoadFactor(q, p, e.inputs[m - 1]), q.basis)
  }

  function LoadFactor(q: Point, p: Params, i: Inputs): real {
    q.jdet * q.weight * FieldValue(p, i)
  }

  /** What the double loop adds to entry (i, j). */
  lemma PointEntry(v: Matrix, q: Point, length: real, i: nat, j: nat)
    requires i < |v| && j < |v[i]|
    ensures |WithPoint(v, q, length)| == |v| && |WithPoint(v, q, length)[i]| == |v[i]|
    ensures WithPoint(v, q, length)[i][j]
         == v[i][j] + q.weight * q.jdet * (At(q.basis, i) * At(q.basis, j)
              + length * length * (At(q.dx, i) * At(q.dx, j) + At(q.dy, i) * At(q.dy, j)))
  {
  }

  method AddPoint(ke: array2<real>, q: Point, length: real)
    requires ke.Length0 == ke.Length1 && q.Sized(ke.Length0)
    modifies ke
    ensures Values(ke) == WithPoint(old(Values(ke)), q, length)
  {
    var n := ke.Length0;
    ghost var v := Values(ke);
    ghost var w := WithPoint(v, q, length);
    for i := 0 to n
      invariant forall a, b :: 0 <= a < n && 0 <= b < n ==> ke[a, b] == if a < i then Entry(w, a, b) else v[a][b]
    {
      for j := 0 to n
        invariant forall a, b :: 0 <= a < n && 0 <= b < n ==>
          ke[a, b] == if a < i || (a == i && b < j) then Entry(w, a, b) else v[a][b]
      {
        PointEntry(v, q, length, i, j);
        ke[i, j] := ke[i, j] + q.weight * q.jdet * (q.basis[i] * q.basis[j]
                      + length * length * (q.dx[i] * q.dx[j] + q.dy[i] * q.dy[j]));
      }
    }
    forall a | 0 <= a < n ensures |w| == n && Values(ke)[a] == w[a] {
      PointLengths(v, q, length, a);
      assert forall b :: 0 <= b < n ==> Values(ke)[a][b] == Entry(w, a, b);
    }
  }

  function Entry(v: Matrix, i: int, j: int): real {
    At(RowAt(v, i), j)
  }

  lemma PointLengths(v: Matrix, q: Point, length: real, i: nat)
    requires i < |v|
    ensures |WithPoint(v, q, length)| == |v| && |WithPoint(v, q, length)[i]| == |v[i]|
  {
  }

  method CreateKMatrix(e: Element, p: Params) returns (ke: array2<real>)
    requires e.Valid()
    ensures fresh(ke) && ke.Length0 == ke.Length1 == |e.nodes|
    ensures Values(ke) == ElementMatrix(e, p, |e.points|)
  {
    hide WithPoint;
    var n := |e.nodes|;
    ke := NewMatrix(n);
    for g := 0 to |e.points|
      invariant Values(ke) == ElementMatrix(e, p, g)
    {
      var thickness := e.inputs[g].thickness;
      if thickness < 50.0 {
        thickness := 50.0;
      }
      var length := p.multiplier * thickness;
      assert length == Length(p, e.inputs[g]);
      AddPoint(ke, e.points[g], length);
    }
  }

  /** The value to smooth, with the slope replaced where the flow is fast. */
  method ValueAt(p: Params, i: Inputs) returns (value: real)
    ensures value == FieldValue(p, i)
  {
    match p.input {
      case DrivingStressX | DrivingStressY =>
        var slopeX, slopeY := i.slopeX, i.slopeY;
        if i.hasVelocity && i.speed > SLOW {
          slopeX := -i.vx / i.speed * i.surfaceNorm;
          slopeY := -i.vy / i.speed * i.surfaceNorm;
        }
        if p.input == DrivingStressX {
          value := p.rhoIce * p.gravity * i.thickness * slopeX;
        } else {
          value := p.rhoIce * p.gravity * i.thickness * slopeY;
        }
      case SurfaceSlopeX => value := i.slopeX;
      case SurfaceSlopeY => value := i.slopeY;
      case Other => value := i.other;
    }
  }

  method CreatePVector(e: Element, p: Params) returns (pe: array<real>)
    requires e.Valid()
    ensures fresh(pe) && pe.Length == |e.nodes|
    ensures pe[..] == ElementLoad(e, p, |e.points|)
  {
    hide FieldValue;
    hide Axpy;
    pe := NewVector(|e.nodes|);
    for g := 0 to |e.points|
      invariant pe[..] == ElementLoad(e, p, g)
    {
      var q := e.points[g];
      var value := ValueAt(p, e.inputs[g]);
      var c := q.jdet * q.weight * value;
      assert c == LoadFactor(q, p, e.inputs[g]);
      AddToVector(pe, c, q.basis);
    }
  }

  // ---------------------------------------------------------------- what the forms mean

  /** One point's part in  y' K x. */
  function PointForm(q: Point, length: real, y: seq<real>, x: seq<real>): real {
    var (c, l) := Factors(q, length);
    Times(c, Times(q.Value(y), q.Value(x))) + Times(l, Times(q.Dx(y), q.Dx(x))) + Times(l, Times(q.Dy(y), q.Dy(x)))
  }

  function ElementForm(e: Element, p: Params, y: seq<real>, x: seq<real>, m: nat): real
    requires e.Valid() && m <= |e.points|
  {
    if m == 0 then 0.0
    else ElementForm(e, p, y, x, m - 1) + PointForm(e.points[m - 1], Length(p, e.inputs[m - 1]), y, x)
  }

  function ElementWork(e: Element, p: Params, y: seq<real>, m: nat): real
    requires e.Valid() && m <= |e.points|
  {
    if m == 0 then 0.0
    else
      var q := e.points[m - 1];
      ElementWork(e, p, y, m - 1) + Times(LoadFactor(q, p, e.inputs[m - 1]), q.Value(y))
  }

  lemma WithPointForm(v: Matrix, q: Point, length: real, y: seq<real>, x: seq<real>, n: nat)
    requires Shape(v, n, n) && q.Sized(n)
    ensures Shape(WithPoint(v, q, length), n, n)
    ensures Form(WithPoint(v, q, length), y, x, n, n) == Form(v, y, x, n, n) + PointForm(q, length, y, x)
  {
    hide Form;
    hide Dot;
    hide OuterSum;
    hide Factors;
    hide Times;
    var (c, l) := Factors(q, length);
    var v1 := OuterSum(v, c, q.basis, q.basis);
    var v2 := OuterSum(v1, l, q.dx, q.dx);
    FormOuter(v, c, q.basis, q.basis, y, x, n);
    FormOuter(v1, l, q.dx, q.dx, y, x, n);
    FormOuter(v2, l, q.dy, q.dy, y, x, n);
  }

  lemma {:induction false} ElementMatrixForm(e: Element, p: Params, y: seq<real>, x: seq<real>, m: nat)
    requires e.Valid() && m <= |e.points|
    ensures Shape(ElementMatrix(e, p, m), |e.nodes|, |e.nodes|)
    ensures Form(ElementMatrix(e, p, m), y, x, |e.nodes|, |e.nodes|) == ElementForm(e, p, y, x, m)
  {
    hide Form;
    hide WithPoint;
    hide PointForm;
    hide Length;
    if m == 0 {
      ZeroForm(|e.nodes|, y, x);
    } else {
      ElementMatrixForm(e, p, y, x, m - 1);
      WithPointForm(ElementMatrix(e, p, m - 1), e.points[m - 1], Length(p, e.inputs[m - 1]), y, x, |e.nodes|);
    }
  }

  lemma {:induction false} ElementLoadWork(e: Element, p: Params, y: seq<real>, m: nat)
    requires e.Valid() && m <= |e.points|
    ensures Dot(ElementLoad(e, p, m), y, |e.nodes|) == ElementWork(e, p, y, m)
  {
    hide Dot;
    hide Axpy;
    hide LoadFactor;
    hide Times;
    if m == 0 {
      ZeroForm(|e.nodes|, y, y);
    } else {
      ElementLoadWork(e, p, y, m - 1);
      var q := e.points[m - 1];
      DotAxpy(ElementLoad(e, p, m - 1), LoadFactor(q, p, e.inputs[m - 1]), q.basis, y, |e.nodes|);
    }
  }

  // ---------------------------------------------------------------- the mesh

  ghost predicate ValidElements(es: seq<Element>, n: nat) {
    forall i :: 0 <= i < |es| ==> es[i].Valid() && DofsWithin(es[i].nodes, n)
  }

  /** What an element adds to the system. */
  function Contribution(e: Element, p: Params): A.Contribution
    requires e.Valid()
  {
    A.Contribution(e.nodes, ElementMatrix(e, p, |e.points|), ElementLoad(e, p, |e.points|))
  }

  function System(es: seq<Element>, p: Params, n: nat): (cs: seq<A.Contribution>)
    requires ValidElements(es, n)
    ensures |cs| == |es| && A.Fits(cs, n)
    ensures forall i :: 0 <= i < |es| ==> cs[i] == Contribution(es[i], p)
  {
    seq(|es|, i requires 0 <= i < |es| => Contribution(es[i], p))
  }

  /** The system of the whole mesh. */
  method Assemble(es: seq<Element>, p: Params, n: nat) returns (k: array2<real>, f: array<real>)
    requires ValidElements(es, n)
    ensures Values(k) == A.Stiffness(System(es, p, n), n, |es|) && f[..] == A.Load(System(es, p, n), n, |es|)
  {
    hide ElementMatrix;
    hide ElementLoad;
    hide Added;
    hide VectorAdded;
    k := NewMatrix(n);
    f := NewVector(n);
    ghost var cs := System(es, p, n);
    for i := 0 to |es|
      invariant k.Length0 == k.Length1 == f.Length == n
      invariant Values(k) == A.Stiffness(cs, n, i) && f[..] == A.Load(cs, n, i)
    {
      var ke := CreateKMatrix(es[i], p);
      AddToGlobal(k, ke, es[i].nodes);
      var pe := CreatePVector(es[i], p);
      AddVectorToGlobal(f, pe, es[i].nodes);
    }
  }

  function MeshForm(es: seq<Element>, p: Params, n: nat, y: seq<real>, x: seq<real>, m: nat): real
    requires ValidElements(es, n) && m <= |es|
  {
    if m == 0 then 0.0
    else
      var e := es[m - 1];
      MeshForm(es, p, n, y, x, m - 1) + ElementForm(e, p, Gather(y, e.nodes), Gather(x, e.nodes), |e.points|)
  }

  function MeshWork(es: seq<Element>, p: Params, n: nat, y: seq<real>, m: nat): real
    requires ValidElements(es, n) && m <= |es|
  {
    if m == 0 then 0.0
    else
      var e := es[m - 1];
      MeshWork(es, p, n, y, m - 1) + ElementWork(e, p, Gather(y, e.nodes), |e.points|)
  }

  /** Form and work of the assembled system are sums over all quadrature points. */
  lemma {:induction false} SystemForm(es: seq<Element>, p: Params, n: nat, y: seq<real>, x: seq<real>, m: nat)
    requires ValidElements(es, n) && m <= |es|
    ensures A.FormSum(System(es, p, n), y, x, m) == MeshForm(es, p, n, y, x, m)
    ensures A.WorkSum(System(es, p, n), y, m) == MeshWork(es, p, n, y, m)
  {
    hide Form;
    hide Dot;
    hide Gather;
    hide ElementMatrix;
    hide ElementLoad;
    hide ElementForm;
    hide ElementWork;
    if m > 0 {
      SystemForm(es, p, n, y, x, m - 1);
      var e := es[m - 1];
      ElementMatrixForm(e, p, Gather(y, e.nodes), Gather(x, e.nodes), |e.points|);
      ElementLoadWork(e, p, Gather(y, e.nodes), |e.points|);
    }
  }
}
