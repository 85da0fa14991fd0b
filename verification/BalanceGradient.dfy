/**
  The gradient of the soft balance-thickness inversion, and the summed cost of any list of cost functions as a
  quadratic in the nodal thicknesses. An element carries two lists of quadrature points: the gradient is summed over
  one, the cost over the other.
 */
module BalanceGradient {
  import opened LinearAlgebra
  import opened RealFacts

  datatype Response = AbsMisfit | AbsGradient | AlongGradient | AcrossGradient | BalanceMisfit | Unsupported

  /** A quadrature point: basis functions and their derivatives at the vertices, inputs, and one coefficient per response. */
  datatype Point = Point(weight: real, jdet: real, basis: seq<real>, dx: seq<real>, dy: seq<real>, coefs: seq<real>,
                         obs: real, vx: real, vy: real, speed: real, dvxdx: real, dvydy: real,
                         smb: real, melt: real, dhdt: real)

  /** speed is the square root that the program takes of vx^2 + vy^2. */
  ghost predicate Fits(q: Point, n: nat, responses: nat) {
    |q.basis| == |q.dx| == |q.dy| == n && |q.coefs| == responses && IsSpeed(q)
  }

  ghost predicate IsSpeed(q: Point) {
    q.speed >= 0.0 && q.speed * q.speed == q.vx * q.vx + q.vy * q.vy
  }

  datatype Element = Element(icy: bool, vertices: seq<nat>, responses: seq<Response>,
                             points: seq<Point>, costPoints: seq<Point>) {
    ghost predicate Valid() {
      && (forall g :: 0 <= g < |points| ==> Fits(points[g], |vertices|, |responses|))
      && (forall g :: 0 <= g < |costPoints| ==> Fits(costPoints[g], |vertices|, |responses|))
    }

    /** All coefficients, weights and Jacobians are non-negative. */
    ghost predicate Nonnegative() {
      forall g, r :: 0 <= g < |points| && 0 <= r < |points[g].coefs| ==>
        points[g].coefs[r] >= 0.0 && points[g].jdet >= 0.0 && points[g].weight >= 0.0
    }
  }

  /** A field at a quadrature point: value and derivatives. */
  datatype Field = Field(v: real, x: real, y: real)

  function FieldAt(q: Point, h: seq<real>, n: nat): Field {
    Field(Dot(q.basis, h, n), Dot(q.dx, h, n), Dot(q.dy, h, n))
  }

  function Unit1(q: Point): real
    requires q.speed >= 0.0
  {
    q.vx / (q.speed + 0.000000001)
  }

  function Unit2(q: Point): real
    requires q.speed >= 0.0
  {
    q.vy / (q.speed + 0.000000001)
  }

  // ---------------------------------------------------------------- costs

  /** The integrand of each cost function. */
  function PointCost(resp: Response, q: Point, coef: real, h: Field): real
    requires q.speed >= 0.0
  {
    match resp
    case AbsMisfit => 0.5 * (h.v - q.obs) * (h.v - q.obs) * coef * q.jdet * q.weight
    case AbsGradient => coef * 0.5 * (h.x * h.x + h.y * h.y) * q.jdet * q.weight
    case AlongGradient =>
      var s := Unit1(q) * h.x + Unit2(q) * h.y;
      coef * 0.5 * s * s * q.jdet * q.weight
    case AcrossGradient =>
      var s := -Unit2(q) * h.x + Unit1(q) * h.y;
      coef * 0.5 * s * s * q.jdet * q.weight
    case BalanceMisfit =>
      var s := q.vx * h.x + q.vy * h.y + h.v * (q.dvxdx + q.dvydy) - (q.smb - q.melt - q.dhdt);
      coef * 0.5 * s * s * q.jdet * q.weight
    case Unsupported => 0.0
  }

  /** The part of the integrand that is bilinear in two fields. */
  function PointGram(resp: Response, q: Point, coef: real, a: Field, b: Field): real
    requires q.speed >= 0.0
  {
    var c := coef * q.jdet * q.weight;
    match resp
    case AbsMisfit => c * (a.v * b.v)
    case AbsGradient => c * (a.x * b.x + a.y * b.y)
    case AlongGradient => c * ((Unit1(q) * a.x + Unit2(q) * a.y) * (Unit1(q) * b.x + Unit2(q) * b.y))
    case AcrossGradient => c * ((-Unit2(q) * a.x + Unit1(q) * a.y) * (-Unit2(q) * b.x + Unit1(q) * b.y))
    case BalanceMisfit => c * (BalanceOf(q, a) * BalanceOf(q, b))
    case Unsupported => 0.0
  }

  function BalanceOf(q: Point, a: Field): real {
    q.vx * a.x + q.vy * a.y + a.v * (q.dvxdx + q.dvydy)
  }

  /** The part that is linear in a field: what the misfits are measured against. */
  function PointSource(resp: Response, q: Point, coef: real, b: Field): real {
    var c := coef * q.jdet * q.weight;
    match resp
    case AbsMisfit => c * (q.obs * b.v)
    case BalanceMisfit => c * ((q.smb - q.melt - q.dhdt) * BalanceOf(q, b))
    case _ => 0.0
  }

  /** What a vertex with basis values b adds to ge, at thickness h. */
  function PointGradient(resp: Response, q: Point, coef: real, h: Field, b: Field): real
    requires q.speed >= 0.0
  {
    match resp
    case AbsMisfit => (q.obs - h.v) * coef * q.jdet * q.weight * b.v
    case AbsGradient => -coef * h.x * b.x * q.jdet * q.weight + -coef * h.y * b.y * q.jdet * q.weight
    case AlongGradient =>
      var u, v := Unit1(q), Unit2(q);
      -coef * (h.x * u + h.y * v) * (b.x * u + b.y * v) * q.jdet * q.weight
    case AcrossGradient =>
      var u, v := Unit1(q), Unit2(q);
      -coef * (h.x * -v + h.y * u) * (b.x * -v + b.y * u) * q.jdet * q.weight
    case BalanceMisfit =>
      var div := q.dvxdx + q.dvydy;
      -coef * q.jdet * q.weight * (
        (q.vx * h.x + q.vy * h.y + h.v * div) * (q.vx * b.x + q.vy * b.y + b.v * div)
        - (q.smb - q.melt - q.dhdt) * (q.vx * b.x + q.vy * b.y + b.v * div))
    case Unsupported => 0.0
  }

  function FieldSum(a: Field, b: Field): Field {
    Field(a.v + b.v, a.x + b.x, a.y + b.y)
  }

  lemma GradientParts(resp: Response, q: Point, coef: real, h: Field, b: Field)
    requires q.speed >= 0.0
    ensures PointGradient(resp, q, coef, h, b) == PointSource(resp, q, coef, b) - PointGram(resp, q, coef, h, b)
  {
    hide Unit1;
    hide Unit2;
  }

  /** Exact second-order expansion of every integrand. */
  lemma PointExpansion(resp: Response, q: Point, coef: real, h: Field, d: Field)
    requires q.speed >= 0.0
    ensures PointCost(resp, q, coef, FieldSum(h, d))
         == PointCost(resp, q, coef, h) - PointGradient(resp, q, coef, h, d) + 0.5 * PointGram(resp, q, coef, d, d)
  {
    hide Unit1;
    hide Unit2;
    var c := coef * q.jdet * q.weight;
    match resp
    case AbsMisfit =>
      SquareExpansion(c, h.v - q.obs, d.v);
    case AbsGradient =>
      SquareExpansion(c, h.x, d.x);
      SquareExpansion(c, h.y, d.y);
    case AlongGradient =>
      SquareExpansion(c, Unit1(q) * h.x + Unit2(q) * h.y, Unit1(q) * d.x + Unit2(q) * d.y);
    case AcrossGradient =>
      SquareExpansion(c, -Unit2(q) * h.x + Unit1(q) * h.y, -Unit2(q) * d.x + Unit1(q) * d.y);
    case BalanceMisfit =>
      var div := q.dvxdx + q.dvydy;
      SquareExpansion(c, q.vx * h.x + q.vy * h.y + h.v * div - (q.smb - q.melt - q.dhdt), q.vx * d.x + q.vy * d.y + d.v * div);
    case Unsupported =>
  }

  lemma SquareExpansion(c: real, s: real, t: real)
    ensures 0.5 * c * ((s + t) * (s + t)) == 0.5 * c * (s * s) + c * (s * t) + 0.5 * (c * (t * t))
  {
  }

  // ---------------------------------------------------------------- the element gradient

  function Vertex(q: Point, i: int): Field {
    Field(At(q.basis, i), At(q.dx, i), At(q.dy, i))
  }

  function Scaled(b: Field, c: real): Field {
    Field(b.v * c, b.x * c, b.y * c)
  }

  lemma GradientAdditive(resp: Response, q: Point, coef: real, h: Field, a: Field, b: Field, c: real)
    requires q.speed >= 0.0
    ensures PointGradient(resp, q, coef, h, FieldSum(a, Scaled(b, c)))
         == PointGradient(resp, q, coef, h, a) + PointGradient(resp, q, coef, h, b) * c
  {
    hide Unit1;
    hide Unit2;
  }

  function AddPoint(ge: seq<real>, resp: Response, q: Point, coef: real, h: Field): (s: seq<real>)
    requires q.speed >= 0.0
    ensures |s| == |ge|
  {
    seq(|ge|, i requires 0 <= i < |ge| => ge[i] + PointGradient(resp, q, coef, h, Vertex(q, i)))
  }

  lemma {:induction false} AddPointDot(ge: seq<real>, resp: Response, q: Point, coef: real, h: Field, d: seq<real>, n: nat)
    requires q.speed >= 0.0 && n <= |ge|
    ensures Dot(AddPoint(ge, resp, q, coef, h), d, n) == Dot(ge, d, n) + PointGradient(resp, q, coef, h, FieldAt(q, d, n))
  {
    hide PointGradient;
    if n == 0 {
      GradientZero(resp, q, coef, h);
    } else {
      var i := n - 1;
      AddPointDot(ge, resp, q, coef, h, d, i);
      GradientAdditive(resp, q, coef, h, FieldAt(q, d, i), Vertex(q, i), At(d, i));
      assert FieldAt(q, d, n) == FieldSum(FieldAt(q, d, i), Scaled(Vertex(q, i), At(d, i)));
      Distribute(At(d, i), At(ge, i), PointGradient(resp, q, coef, h, Vertex(q, i)));
    }
  }

  lemma GradientZero(resp: Response, q: Point, coef: real, h: Field)
    requires q.speed >= 0.0
    ensures PointGradient(resp, q, coef, h, Field(0.0, 0.0, 0.0)) == 0.0
  {
  }

  /** ge after all responses at points before g and the first r responses at point g. */
  function GradientUpTo(e: Element, h: seq<real>, g: nat, r: nat): (ge: seq<real>)
    requires e.Valid() && g <= |e.points| && r <= |e.responses| && (g == |e.points| ==> r == 0)
    ensures |ge| == |e.vertices|
    decreases g, r
  {
    if r > 0 then
      var q := e.points[g];
      AddPoint(GradientUpTo(e, h, g, r - 1), e.responses[r - 1], q, q.coefs[r - 1], FieldAt(q, h, |e.vertices|))
    else if g > 0 then GradientUpTo(e, h, g - 1, |e.responses|)
    else Constant(|e.vertices|, 0.0)
  }

  function CostUpTo(e: Element, h: seq<real>, g: nat, r: nat): real
    requires e.Valid() && g <= |e.points| && r <= |e.responses| && (g == |e.points| ==> r == 0)
    decreases g, r
  {
    if r > 0 then
      var q := e.points[g];
      CostUpTo(e, h, g, r - 1) + PointCost(e.responses[r - 1], q, q.coefs[r - 1], FieldAt(q, h, |e.vertices|))
    else if g > 0 then CostUpTo(e, h, g - 1, |e.responses|)
    else 0.0
  }

  function GramUpTo(e: Element, a: seq<real>, b: seq<real>, g: nat, r: nat): real
    requires e.Valid() && g <= |e.points| && r <= |e.responses| && (g == |e.points| ==> r == 0)
    decreases g, r
  {
    if r > 0 then
      var q, n := e.points[g], |e.vertices|;
      GramUpTo(e, a, b, g, r - 1) + PointGram(e.responses[r - 1], q, q.coefs[r - 1], FieldAt(q, a, n), FieldAt(q, b, n))
    else if g > 0 then GramUpTo(e, a, b, g - 1, |e.responses|)
    else 0.0
  }

  lemma {:induction false} ElementExpansion(e: Element, h: seq<real>, d: seq<real>, g: nat, r: nat)
    requires e.Valid() && g <= |e.points| && r <= |e.responses| && (g == |e.points| ==> r == 0)
    requires |h| == |d| == |e.vertices|
    ensures CostUpTo(e, Plus(h, d), g, r)
         == CostUpTo(e, h, g, r) - Dot(GradientUpTo(e, h, g, r), d, |e.vertices|) + 0.5 * GramUpTo(e, d, d, g, r)
    decreases g, r
  {
    hide PointCost;
    hide PointGradient;
    hide PointGram;
    hide Dot;
    hide Plus;
    var n := |e.vertices|;
    if r > 0 {
      ElementExpansion(e, h, d, g, r - 1);
      var q := e.points[g];
      var resp, coef := e.responses[r - 1], q.coefs[r - 1];
      FieldPlus(q, h, d, n);
      PointExpansion(resp, q, coef, FieldAt(q, h, n), FieldAt(q, d, n));
      AddPointDot(GradientUpTo(e, h, g, r - 1), resp, q, coef, FieldAt(q, h, n), d, n);
    } else if g > 0 {
      ElementExpansion(e, h, d, g - 1, |e.responses|);
    } else {
      DotZero(Constant(n, 0.0), d, n);
    }
  }

  lemma FieldPlus(q: Point, h: seq<real>, d: seq<real>, n: nat)
    requires |h| == |d|
    ensures FieldAt(q, Plus(h, d), n) == FieldSum(FieldAt(q, h, n), FieldAt(q, d, n))
  {
    hide Dot;
    DotPlus(q.basis, h, d, n);
    DotPlus(q.dx, h, d, n);
    DotPlus(q.dy, h, d, n);
  }

  lemma GramPointNonnegative(resp: Response, q: Point, coef: real, d: Field)
    requires q.speed >= 0.0 && coef >= 0.0 && q.jdet >= 0.0 && q.weight >= 0.0
    ensures PointGram(resp, q, coef, d, d) >= 0.0
  {
    hide Unit1;
    hide Unit2;
    ProductNonnegative(coef, q.jdet);
    ProductNonnegative(coef * q.jdet, q.weight);
    var c := coef * q.jdet * q.weight;
    match resp
    case AbsMisfit => ScaledSquare(c, d.v);
    case AbsGradient =>
      ScaledSquare(c, d.x);
      ScaledSquare(c, d.y);
      Distribute(c, d.x * d.x, d.y * d.y);
    case AlongGradient => ScaledSquare(c, Unit1(q) * d.x + Unit2(q) * d.y);
    case AcrossGradient => ScaledSquare(c, -Unit2(q) * d.x + Unit1(q) * d.y);
    case BalanceMisfit => ScaledSquare(c, q.vx * d.x + q.vy * d.y + d.v * (q.dvxdx + q.dvydy));
    case Unsupported =>
  }

  lemma ScaledSquare(c: real, s: real)
    requires c >= 0.0
    ensures c * (s * s) >= 0.0
  {
  }

  lemma {:induction false} GramElementNonnegative(e: Element, d: seq<real>, g: nat, r: nat)
    requires e.Valid() && e.Nonnegative() && g <= |e.points| && r <= |e.responses| && (g == |e.points| ==> r == 0)
    ensures GramUpTo(e, d, d, g, r) >= 0.0
    decreases g, r
  {
    hide PointGram;
    if r > 0 {
      GramElementNonnegative(e, d, g, r - 1);
      var q := e.points[g];
      GramPointNonnegative(e.responses[r - 1], q, q.coefs[r - 1], FieldAt(q, d, |e.vertices|));
    } else if g > 0 {
      GramElementNonnegative(e, d, g - 1, |e.responses|);
    }
  }

  // ---------------------------------------------------------------- the loops

  method AddAbsMisfit(ge: array<real>, q: Point, coef: real, h: Field)
    requires q.speed >= 0.0 && |q.basis| == |q.dx| == |q.dy| == ge.Length
    modifies ge
    ensures ge[..] == AddPoint(old(ge[..]), AbsMisfit, q, coef, h)
  {
    hide Unit1;
    hide Unit2;
    var n := ge.Length;
    ghost var s := AddPoint(ge[..], AbsMisfit, q, coef, h);
    for i := 0 to n
      invariant forall k :: 0 <= k < n ==> ge[k] == if k < i then s[k] else old(ge[k])
    {
      var term := (q.obs - h.v) * coef * q.jdet * q.weight * q.basis[i];
      assert term == PointGradient(AbsMisfit, q, coef, h, Vertex(q, i));
      ge[i] := ge[i] + term;
    }
    assert forall k :: 0 <= k < n ==> ge[..][k] == s[k];
  }

  method AddAbsGradient(ge: array<real>, q: Point, coef: real, h: Field)
    requires q.speed >= 0.0 && |q.basis| == |q.dx| == |q.dy| == ge.Length
    modifies ge
    ensures ge[..] == AddPoint(old(ge[..]), AbsGradient, q, coef, h)
  {
    var n := ge.Length;
    ghost var s := AddPoint(ge[..], AbsGradient, q, coef, h);
    for i := 0 to n
      invariant forall k :: 0 <= k < n ==> ge[k] == old(ge[k]) + if k < i then XTerm(q, coef, h, k) else 0.0
    {
      ge[i] := ge[i] + -coef * h.x * q.dx[i] * q.jdet * q.weight;
    }
    for i := 0 to n
      invariant forall k :: 0 <= k < n ==> ge[k] == if k < i then s[k] else old(ge[k]) + XTerm(q, coef, h, k)
    {
      ge[i] := ge[i] + -coef * h.y * q.dy[i] * q.jdet * q.weight;
    }
    assert forall k :: 0 <= k < n ==> ge[..][k] == s[k];
  }

  method AddAlongGradient(ge: array<real>, q: Point, coef: real, h: Field)
    requires q.speed >= 0.0 && |q.basis| == |q.dx| == |q.dy| == ge.Length
    modifies ge
    ensures ge[..] == AddPoint(old(ge[..]), AlongGradient, q, coef, h)
  {
    hide Unit1;
    hide Unit2;
    var n := ge.Length;
    ghost var s := AddPoint(ge[..], AlongGradient, q, coef, h);
    var u, v := Unit1(q), Unit2(q);
    for i := 0 to n
      invariant forall k :: 0 <= k < n ==> ge[k] == if k < i then s[k] else old(ge[k])
    {
      var term := -coef * (h.x * u + h.y * v) * (q.dx[i] * u + q.dy[i] * v) * q.jdet * q.weight;
      assert term == PointGradient(AlongGradient, q, coef, h, Vertex(q, i));
      ge[i] := ge[i] + term;
    }
    assert forall k :: 0 <= k < n ==> ge[..][k] == s[k];
  }

  method AddAcrossGradient(ge: array<real>, q: Point, coef: real, h: Field)
    requires q.speed >= 0.0 && |q.basis| == |q.dx| == |q.dy| == ge.Length
    modifies ge
    ensures ge[..] == AddPoint(old(ge[..]), AcrossGradient, q, coef, h)
  {
    hide Unit1;
    hide Unit2;
    var n := ge.Length;
    ghost var s := AddPoint(ge[..], AcrossGradient, q, coef, h);
    var u, v := Unit1(q), Unit2(q);
    for i := 0 to n
      invariant forall k :: 0 <= k < n ==> ge[k] == if k < i then s[k] else old(ge[k])
    {
      var term := -coef * (h.x * -v + h.y * u) * (q.dx[i] * -v + q.dy[i] * u) * q.jdet * q.weight;
      assert term == PointGradient(AcrossGradient, q, coef, h, Vertex(q, i));
      ge[i] := ge[i] + term;
    }
    assert forall k :: 0 <= k < n ==> ge[..][k] == s[k];
  }

  method AddBalanceMisfit(ge: array<real>, q: Point, coef: real, h: Field)
    requires q.speed >= 0.0 && |q.basis| == |q.dx| == |q.dy| == ge.Length
    modifies ge
    ensures ge[..] == AddPoint(old(ge[..]), BalanceMisfit, q, coef, h)
  {
    hide Unit1;
    hide Unit2;
    var n := ge.Length;
    ghost var s := AddPoint(ge[..], BalanceMisfit, q, coef, h);
    for i := 0 to n
      invariant forall k :: 0 <= k < n ==> ge[k] == if k < i then s[k] else old(ge[k])
    {
      var term := -coef * q.jdet * q.weight * (
        (q.vx * h.x + q.vy * h.y + h.v * (q.dvxdx + q.dvydy)) * (q.vx * q.dx[i] + q.vy * q.dy[i] + q.basis[i] * (q.dvxdx + q.dvydy))
        - (q.smb - q.melt - q.dhdt) * (q.vx * q.dx[i] + q.vy * q.dy[i] + q.basis[i] * (q.dvxdx + q.dvydy)));
      assert term == PointGradient(BalanceMisfit, q, coef, h, Vertex(q, i));
      ge[i] := ge[i] + term;
    }
    assert forall k :: 0 <= k < n ==> ge[..][k] == s[k];
  }

  /** One response at one quadrature point. */
  method AddResponse(ge: array<real>, resp: Response, q: Point, coef: real, h: Field) returns (ok: bool)
    requires q.speed >= 0.0 && |q.basis| == |q.dx| == |q.dy| == ge.Length
    modifies ge
    ensures ok == !resp.Unsupported?
    ensures ok ==> ge[..] == AddPoint(old(ge[..]), resp, q, coef, h)
  {
    ok := true;
    match resp {
      case AbsMisfit => AddAbsMisfit(ge, q, coef, h);
      case AbsGradient => AddAbsGradient(ge, q, coef, h);
      case AlongGradient => AddAlongGradient(ge, q, coef, h);
      case AcrossGradient => AddAcrossGradient(ge, q, coef, h);
      case BalanceMisfit => AddBalanceMisfit(ge, q, coef, h);
      case Unsupported => ok := false;
    }
  }

  function XTerm(q: Point, coef: real, h: Field, k: int): real {
    -coef * h.x * At(q.dx, k) * q.jdet * q.weight
  }

  predicate Supported(e: Element) {
    |e.points| > 0 ==> Unsupported !in e.responses
  }

  /** The gradient of one element; fails on a cost function it does not know. */
  method ElementGradient(e: Element, h: seq<real>) returns (ok: bool, ge: array<real>)
    requires e.Valid() && |h| == |e.vertices|
    ensures fresh(ge) && ge.Length == |e.vertices|
    ensures ok == Supported(e)
    ensures ok ==> ge[..] == GradientUpTo(e, h, |e.points|, 0)
  {
    hide PointGradient;
    hide AddPoint;
    ok := true;
    ge := new real[|e.vertices|](_ => 0.0);
    for g := 0 to |e.points|
      invariant ge[..] == GradientUpTo(e, h, g, 0)
      invariant g > 0 ==> Unsupported !in e.responses
    {
      var q := e.points[g];
      for r := 0 to |e.responses|
        invariant ge[..] == GradientUpTo(e, h, g, r)
        invariant Unsupported !in e.responses[..r]
      {
        ok := AddResponse(ge, e.responses[r], q, q.coefs[r], FieldAt(q, h, |e.vertices|));
        if !ok {
          return;
        }
        assert e.responses[..r + 1] == e.responses[..r] + [e.responses[r]];
      }
      assert e.responses[..|e.responses|] == e.responses;
    }
  }

  // ---------------------------------------------------------------- the mesh

  ghost predicate ValidElements(es: seq<Element>, n: nat) {
    forall i :: 0 <= i < |es| ==> es[i].Valid() && DofsWithin(es[i].vertices, n)
  }

  ghost predicate NonnegativeElements(es: seq<Element>) {
    forall i :: 0 <= i < |es| ==> es[i].Nonnegative()
  }

  /** The gradient assembled from the icy ones of the first m elements. */
  function Gradient(es: seq<Element>, h: seq<real>, m: nat): (s: seq<real>)
    requires ValidElements(es, |h|) && m <= |es|
    ensures |s| == |h|
  {
    if m == 0 then Constant(|h|, 0.0)
    else
      var e := es[m - 1];
      if e.icy then
        VectorAdded(Gradient(es, h, m - 1), GradientUpTo(e, Gather(h, e.vertices), |e.points|, 0), e.vertices, |e.vertices|)
      else Gradient(es, h, m - 1)
  }

  /** The summed cost. */
  function Cost(es: seq<Element>, h: seq<real>, n: nat, m: nat): real
    requires ValidElements(es, n) && m <= |es|
  {
    if m == 0 then 0.0
    else Cost(es, h, n, m - 1)
         + if es[m - 1].icy then CostUpTo(es[m - 1], Gather(h, es[m - 1].vertices), |es[m - 1].points|, 0) else 0.0
  }

  /** The bilinear part of the summed cost: the moments of coefficients against products of two fields. */
  function Gram(es: seq<Element>, a: seq<real>, b: seq<real>, n: nat, m: nat): real
    requires ValidElements(es, n) && m <= |es|
  {
    if m == 0 then 0.0
    else
      var e := es[m - 1];
      Gram(es, a, b, n, m - 1)
      + if e.icy then GramUpTo(e, Gather(a, e.vertices), Gather(b, e.vertices), |e.points|, 0) else 0.0
  }

  /** The gradient over the mesh. */
  method GradientJ(es: seq<Element>, h: seq<real>) returns (ok: bool, gradient: array<real>)
    requires ValidElements(es, |h|)
    ensures ok == forall i :: 0 <= i < |es| && es[i].icy ==> Supported(es[i])
    ensures fresh(gradient) && gradient.Length == |h|
    ensures ok ==> gradient[..] == Gradient(es, h, |es|)
  {
    ok := true;
    gradient := new real[|h|](_ => 0.0);
    for i := 0 to |es|
      invariant ok
      invariant gradient[..] == Gradient(es, h, i)
      invariant forall k :: 0 <= k < i && es[k].icy ==> Supported(es[k])
    {
      var e := es[i];
      if e.icy {
        var ge;
        ok, ge := ElementGradient(e, Gather(h, e.vertices));
        if !ok {
          return;
        }
        AddVectorToGlobal(gradient, ge, e.vertices);
      }
    }
  }

  lemma GatherPlus(h: seq<real>, d: seq<real>, dofs: seq<nat>)
    requires |h| == |d| && DofsWithin(dofs, |h|)
    ensures Gather(Plus(h, d), dofs) == Plus(Gather(h, dofs), Gather(d, dofs))
  {
  }

  /** With one rule for both, the assembled vector is the negative gradient of the cost, which is quadratic. */
  lemma {:induction false} SameRuleExpansion(es: seq<Element>, h: seq<real>, d: seq<real>, m: nat)
    requires |h| == |d| && ValidElements(es, |h|) && m <= |es|
    ensures Cost(es, Plus(h, d), |h|, m)
         == Cost(es, h, |h|, m) - Dot(Gradient(es, h, m), d, |h|) + 0.5 * Gram(es, d, d, |h|, m)
  {
    hide Dot;
    hide Plus;
    hide Gather;
    hide GradientUpTo;
    hide CostUpTo;
    hide GramUpTo;
    hide VectorAdded;
    var n := |h|;
    if m == 0 {
      DotZero(Constant(n, 0.0), d, n);
    } else {
      SameRuleExpansion(es, h, d, m - 1);
      var e := es[m - 1];
      if e.icy {
        var dofs := e.vertices;
        GatherPlus(h, d, dofs);
        GatherLength(h, dofs);
        GatherLength(d, dofs);
        ElementExpansion(e, Gather(h, dofs), Gather(d, dofs), |e.points|, 0);
        DotVectorAdded(Gradient(es, h, m - 1), GradientUpTo(e, Gather(h, dofs), |e.points|, 0), dofs, |dofs|, d);
      }
    }
  }

  lemma GatherLength(h: seq<real>, dofs: seq<nat>)
    ensures |Gather(h, dofs)| == |dofs|
  {
  }

  lemma {:induction false} GramNonnegative(es: seq<Element>, d: seq<real>, n: nat, m: nat)
    requires ValidElements(es, n) && m <= |es| && NonnegativeElements(es)
    ensures Gram(es, d, d, n, m) >= 0.0
  {
    hide GramUpTo;
    if m > 0 {
      GramNonnegative(es, d, n, m - 1);
      if es[m - 1].icy {
        GramElementNonnegative(es[m - 1], Gather(d, es[m - 1].vertices), |es[m - 1].points|, 0);
      }
    }
  }
}
