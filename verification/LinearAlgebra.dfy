/**
  Dense vectors and matrices over the reals.

  An element or global matrix is an array2<real> that loops add products to. Its value is the
  sequence of its rows, and it is understood through its bilinear form
      y' K x = the sum over i, j of y[i] * K[i,j] * x[j].
 */
module LinearAlgebra {

  /** A matrix by rows. */
  type Matrix = seq<seq<real>>

  /** A product, named so that lemmas can pass it around whole. */
  function Times(a: real, b: real): real {
    a * b
  }

  lemma TimesSum(a: real, b: real, c: real)
    ensures Times(a, b + c) == Times(a, b) + Times(a, c)
  {
  }

  lemma TimesZero(a: real)
    ensures Times(a, 0.0) == 0.0
  {
  }

  lemma TimesNext(n: nat, a: real)
    ensures Times((n + 1) as real, a) == Times(n as real, a) + a
    ensures Times(0.0, a) == 0.0
  {
  }

  lemma TimesPositive(a: real, b: real)
    requires a > 0.0 && b > 0.0
    ensures Times(a, b) > 0.0
  {
  }

  /** Entry i of a vector, 0 outside it. */
  function At(s: seq<real>, i: int): real {
    if 0 <= i < |s| then s[i] else 0.0
  }

  /** Row i of a matrix, empty outside it. */
  function RowAt(v: Matrix, i: int): seq<real> {
    if 0 <= i < |v| then v[i] else []
  }

  /** The sum over i < n of a[i] * b[i]. */
  function Dot(a: seq<real>, b: seq<real>, n: nat): real {
    if n == 0 then 0.0 else Dot(a, b, n - 1) + At(a, n - 1) * At(b, n - 1)
  }

  /** The sum of the first n entries. */
  function Total(a: seq<real>, n: nat): real {
    if n == 0 then 0.0 else Total(a, n - 1) + At(a, n - 1)
  }

  function Plus(a: seq<real>, b: seq<real>): seq<real>
    requires |a| == |b|
  {
    seq(|a|, i requires 0 <= i < |a| => a[i] + b[i])
  }

  function Constant(n: nat, c: real): seq<real> {
    seq(n, _ => c)
  }

  /** The r-th unit vector. */
  function Unit(n: nat, r: nat): seq<real> {
    seq(n, i => if i == r then 1.0 else 0.0)
  }

  /** The part of a global vector that an element sees. */
  function Gather(x: seq<real>, dofs: seq<nat>): seq<real> {
    seq(|dofs|, i requires 0 <= i < |dofs| => At(x, dofs[i]))
  }

  /** K*x, the first m rows. */
  function Product(v: Matrix, x: seq<real>, n: nat, m: nat): seq<real> {
    seq(m, r => Dot(RowAt(v, r), x, n))
  }

  /** The bilinear form y' K x of an m x n matrix. */
  function Form(v: Matrix, y: seq<real>, x: seq<real>, m: nat, n: nat): real {
    Dot(Product(v, x, n, m), y, m)
  }

  /** x solves the n equations K*x = p. */
  ghost predicate Solves(v: Matrix, p: seq<real>, x: seq<real>, n: nat) {
    forall r :: 0 <= r < n ==> Dot(RowAt(v, r), x, n) == At(p, r)
  }

  /** The rows of a matrix in memory. */
  ghost function Values(k: array2<real>): (v: Matrix)
    reads k
    ensures |v| == k.Length0
    ensures forall i :: 0 <= i < k.Length0 ==> |v[i]| == k.Length1
    ensures forall i, j :: 0 <= i < k.Length0 && 0 <= j < k.Length1 ==> v[i][j] == k[i, j]
  {
    seq(k.Length0, i requires 0 <= i < k.Length0 reads k =>
      seq(k.Length1, j requires 0 <= j < k.Length1 reads k => k[i, j]))
  }

  // ---------------------------------------------------------------- vectors

  /** One more term; for proofs that keep Dot folded. */
  lemma DotStep(a: seq<real>, b: seq<real>, n: nat)
    ensures Dot(a, b, 0) == 0.0
    ensures Dot(a, b, n + 1) == Dot(a, b, n) + At(a, n) * At(b, n)
  {
  }

  lemma {:induction false} DotPlus(a: seq<real>, x: seq<real>, d: seq<real>, n: nat)
    requires |x| == |d|
    ensures Dot(a, Plus(x, d), n) == Dot(a, x, n) + Dot(a, d, n)
  {
    if n > 0 {
      DotPlus(a, x, d, n - 1);
      Distribute(At(a, n - 1), At(x, n - 1), At(d, n - 1));
    }
  }

  lemma Distribute(a: real, b: real, c: real)
    ensures a * (b + c) == a * b + a * c
  {
  }

  lemma {:induction false} DotConstant(a: seq<real>, n: nat, c: real, m: nat)
    requires m <= n
    ensures Dot(a, Constant(n, c), m) == c * Total(a, m)
  {
    if m > 0 {
      DotConstant(a, n, c, m - 1);
      Distribute(c, Total(a, m - 1), At(a, m - 1));
    }
  }

  lemma {:induction false} DotSymmetric(a: seq<real>, b: seq<real>, n: nat)
    ensures Dot(a, b, n) == Dot(b, a, n)
  {
    if n > 0 {
      DotSymmetric(a, b, n - 1);
    }
  }

  lemma {:induction false} DotUnit(a: seq<real>, n: nat, r: nat, m: nat)
    requires r < n && m <= n
    ensures Dot(a, Unit(n, r), m) == if r < m then At(a, r) else 0.0
  {
    if m > 0 {
      DotUnit(a, n, r, m - 1);
    }
  }

  /** a + c*b */
  function Axpy(a: seq<real>, c: real, b: seq<real>): (r: seq<real>)
    ensures |r| == |a|
  {
    seq(|a|, k requires 0 <= k < |a| => a[k] + c * At(b, k))
  }

  lemma {:induction false} DotAxpy(a: seq<real>, c: real, b: seq<real>, x: seq<real>, n: nat)
    requires n <= |a|
    ensures Dot(Axpy(a, c, b), x, n) == Dot(a, x, n) + c * Dot(b, x, n)
    ensures Dot(Axpy(a, c, b), x, n) == Dot(a, x, n) + Times(c, Dot(b, x, n))
  {
    if n > 0 {
      var k := n - 1;
      DotAxpy(a, c, b, x, k);
      AxpyStep(At(a, k), c, At(b, k), At(x, k), Dot(b, x, k));
    }
  }

  lemma AxpyStep(a: real, c: real, b: real, x: real, d: real)
    ensures (a + c * b) * x + c * d == a * x + c * (d + b * x)
  {
  }

  /** Adding to one entry of a vector. */
  lemma {:induction false} DotUpdate(a: seq<real>, k: nat, delta: real, b: seq<real>, n: nat)
    requires k < |a|
    ensures Dot(a[k := a[k] + delta], b, n) == Dot(a, b, n) + (if k < n then delta * At(b, k) else 0.0)
  {
    if n > 0 {
      DotUpdate(a, k, delta, b, n - 1);
      if k == n - 1 {
        Distribute(At(b, k), a[k], delta);
      }
    }
  }

  lemma {:induction false} DotCongruent(a: seq<real>, a': seq<real>, x: seq<real>, n: nat)
    requires forall k :: 0 <= k < n ==> At(a', k) == At(a, k)
    ensures Dot(a', x, n) == Dot(a, x, n)
  {
    if n > 0 {
      DotCongruent(a, a', x, n - 1);
      assert At(a', n - 1) == At(a, n - 1);
    }
  }

  lemma {:induction false} DotZero(a: seq<real>, x: seq<real>, m: nat)
    requires forall k :: 0 <= k < m ==> At(a, k) == 0.0
    ensures Dot(a, x, m) == 0.0
  {
    if m > 0 {
      DotZero(a, x, m - 1);
      assert At(a, m - 1) == 0.0;
    }
  }

  // ---------------------------------------------------------------- matrices

  ghost predicate Shape(v: Matrix, m: nat, n: nat) {
    |v| == m && forall i :: 0 <= i < m ==> |v[i]| == n
  }

  /** One more row. */
  lemma FormStep(v: Matrix, y: seq<real>, x: seq<real>, m: nat, n: nat)
    ensures Form(v, y, x, 0, n) == 0.0
    ensures Form(v, y, x, m + 1, n) == Form(v, y, x, m, n) + At(y, m) * Dot(RowAt(v, m), x, n)
  {
    var long, short := Product(v, x, n, m + 1), Product(v, x, n, m);
    DotCongruent(long, short, y, m);
    hide Dot;
    DotStep(long, y, m);
    DotStep(Product(v, x, n, 0), y, 0);
  }

  /** A solution satisfies every weighted combination of the equations. */
  lemma SolvesTested(v: Matrix, p: seq<real>, x: seq<real>, y: seq<real>, n: nat)
    requires Solves(v, p, x, n)
    ensures Form(v, y, x, n, n) == Dot(p, y, n)
  {
    DotCongruent(p, Product(v, x, n, n), y, n);
  }

  /** Testing with a unit vector picks one equation. */
  lemma FormUnit(v: Matrix, r: nat, x: seq<real>, n: nat)
    requires r < n
    ensures Form(v, Unit(n, r), x, n, n) == Dot(RowAt(v, r), x, n)
  {
    DotUnit(Product(v, x, n, n), n, r, n);
  }

  lemma FormZero(v: Matrix, y: seq<real>, x: seq<real>, m: nat, n: nat)
    requires forall i, j :: 0 <= i < m && 0 <= j < n ==> At(RowAt(v, i), j) == 0.0
    ensures Form(v, y, x, m, n) == 0.0
  {
    forall i | 0 <= i < m ensures At(Product(v, x, n, m), i) == 0.0 {
      DotZero(RowAt(v, i), x, n);
    }
    DotZero(Product(v, x, n, m), y, m);
  }

  /** v + c * a b' */
  function OuterSum(v: Matrix, c: real, a: seq<real>, b: seq<real>): (r: Matrix)
    ensures |r| == |v|
    ensures forall i :: 0 <= i < |v| ==> r[i] == Axpy(v[i], Times(c, At(a, i)), b)
  {
    seq(|v|, i requires 0 <= i < |v| => Axpy(v[i], Times(c, At(a, i)), b))
  }

  lemma ProductOuter(v: Matrix, c: real, a: seq<real>, b: seq<real>, x: seq<real>, n: nat)
    requires Shape(v, n, n)
    ensures Product(OuterSum(v, c, a, b), x, n, n) == Axpy(Product(v, x, n, n), Times(c, Dot(b, x, n)), a)
  {
    hide Dot;
    var bx := Dot(b, x, n);
    var p, q := Product(v, x, n, n), Product(OuterSum(v, c, a, b), x, n, n);
    var s := Axpy(p, Times(c, bx), a);
    hide Axpy;
    hide OuterSum;
    hide Times;
    forall i | 0 <= i < n ensures q[i] == s[i] {
      ProductOuterRow(v, c, a, b, x, n, i);
    }
  }

  lemma ProductOuterRow(v: Matrix, c: real, a: seq<real>, b: seq<real>, x: seq<real>, n: nat, i: nat)
    requires Shape(v, n, n) && i < n
    ensures Product(OuterSum(v, c, a, b), x, n, n)[i] == Axpy(Product(v, x, n, n), Times(c, Dot(b, x, n)), a)[i]
  {
    hide Dot;
    DotAxpy(v[i], Times(c, At(a, i)), b, x, n);
    Reorder(c, At(a, i), Dot(b, x, n));
  }

  /** Adding  c * a b'  to a matrix adds  c * (a . y) * (b . x)  to its form. */
  lemma FormOuter(v: Matrix, c: real, a: seq<real>, b: seq<real>, y: seq<real>, x: seq<real>, n: nat)
    requires Shape(v, n, n)
    ensures Shape(OuterSum(v, c, a, b), n, n)
    ensures Form(OuterSum(v, c, a, b), y, x, n, n) == Form(v, y, x, n, n) + c * Dot(a, y, n) * Dot(b, x, n)
    ensures Form(OuterSum(v, c, a, b), y, x, n, n) == Form(v, y, x, n, n) + Times(c, Times(Dot(a, y, n), Dot(b, x, n)))
  {
    hide Dot;
    ProductOuter(v, c, a, b, x, n);
    DotAxpy(Product(v, x, n, n), Times(c, Dot(b, x, n)), a, y, n);
    Reorder(c, Dot(b, x, n), Dot(a, y, n));
  }

  lemma Reorder(c: real, a: real, b: real)
    ensures Times(c, a) * b == Times(c, b) * a
    ensures Times(c, a) * b == c * b * a
    ensures Times(c, Times(b, a)) == c * b * a
  {
  }

  lemma UpdateStep(y: real, d: real, x: real)
    ensures d * x * y == Times(y, Times(d, x))
  {
  }

  /** Adding to one entry of a matrix. */
  lemma FormUpdate(v: Matrix, i: nat, j: nat, delta: real, y: seq<real>, x: seq<real>, m: nat, n: nat)
    requires i < |v| && j < |v[i]| && i < m && j < n
    ensures Form(v[i := v[i][j := v[i][j] + delta]], y, x, m, n) == Form(v, y, x, m, n) + Times(At(y, i), Times(delta, At(x, j)))
  {
    hide Dot;
    var p, q := Product(v, x, n, m), Product(v[i := v[i][j := v[i][j] + delta]], x, n, m);
    DotUpdate(v[i], j, delta, x, n);
    assert q == p[i := p[i] + delta * At(x, j)];
    DotUpdate(p, i, delta * At(x, j), y, m);
    UpdateStep(At(y, i), delta, At(x, j));
  }

  // ---------------------------------------------------------------- loops that fill matrices

  /** Row i of K += c * b */
  method AddRow(k: array2<real>, i: nat, c: real, b: seq<real>)
    requires i < k.Length0 && |b| == k.Length1
    modifies k
    ensures Values(k)[i] == Axpy(old(Values(k)[i]), c, b)
    ensures forall p :: 0 <= p < k.Length0 && p != i ==> Values(k)[p] == old(Values(k)[p])
  {
    var n := k.Length1;
    ghost var row := Values(k)[i];
    for j := 0 to n
      invariant forall q :: 0 <= q < n ==> k[i, q] == if q < j then Axpy(row, c, b)[q] else row[q]
      invariant forall p, q :: 0 <= p < k.Length0 && p != i && 0 <= q < n ==> k[p, q] == old(k[p, q])
    {
      k[i, j] := k[i, j] + c * b[j];
    }
    assert Values(k)[i] == Axpy(row, c, b);
    assert forall p :: 0 <= p < k.Length0 && p != i ==> Values(k)[p] == old(Values(k)[p]);
  }

  /** K += c * a b' */
  method AddOuter(k: array2<real>, c: real, a: seq<real>, b: seq<real>)
    requires |a| == k.Length0 && |b| == k.Length1
    modifies k
    ensures Values(k) == OuterSum(old(Values(k)), c, a, b)
  {
    ghost var v0 := Values(k);
    for i := 0 to k.Length0
      invariant forall p :: 0 <= p < k.Length0 ==>
        Values(k)[p] == if p < i then OuterSum(v0, c, a, b)[p] else v0[p]
    {
      ghost var v := Values(k);
      assert a[i] == At(a, i);
      AddRow(k, i, Times(c, a[i]), b);
      assert forall p :: 0 <= p < k.Length0 && p != i ==> Values(k)[p] == v[p];
    }
  }

  /** The first q terms of row p of  A' D B  added to v. */
  function TripleRow(v: Matrix, a: Matrix, d: Matrix, b: Matrix, p: nat, q: nat): Matrix {
    if q == 0 then v
    else OuterSum(TripleRow(v, a, d, b, p, q - 1), At(RowAt(d, p), q - 1), RowAt(a, p), RowAt(b, q - 1))
  }

  /** v + A' D B, for the first p rows of A and D. */
  function TripleSum(v: Matrix, a: Matrix, d: Matrix, b: Matrix, p: nat, dim: nat): Matrix {
    if p == 0 then v else TripleRow(TripleSum(v, a, d, b, p - 1, dim), a, d, b, p - 1, dim)
  }

  /** (A y) . D (B x) */
  function Sandwich(a: Matrix, d: Matrix, b: Matrix, y: seq<real>, x: seq<real>, n: nat, p: nat, dim: nat): real {
    Form(d, Product(a, y, n, dim), Product(b, x, n, dim), p, dim)
  }

  lemma {:induction false} FormTripleRow(v: Matrix, a: Matrix, d: Matrix, b: Matrix, y: seq<real>, x: seq<real>,
                                         n: nat, p: nat, q: nat, dim: nat)
    requires Shape(v, n, n) && q <= dim && p < dim
    ensures Shape(TripleRow(v, a, d, b, p, q), n, n)
    ensures Form(TripleRow(v, a, d, b, p, q), y, x, n, n)
         == Form(v, y, x, n, n) + Dot(RowAt(a, p), y, n) * Dot(RowAt(d, p), Product(b, x, n, dim), q)
  {
    hide Dot;
    DotStep(RowAt(d, p), Product(b, x, n, dim), if q > 0 then q - 1 else 0);
    if q > 0 {
      FormTripleRow(v, a, d, b, y, x, n, p, q - 1, dim);
      FormOuter(TripleRow(v, a, d, b, p, q - 1), At(RowAt(d, p), q - 1), RowAt(a, p), RowAt(b, q - 1), y, x, n);
      TripleStep(Dot(RowAt(a, p), y, n), Dot(RowAt(d, p), Product(b, x, n, dim), q - 1),
                 At(RowAt(d, p), q - 1), Dot(RowAt(b, q - 1), x, n));
    }
  }

  lemma TripleStep(a: real, s: real, d: real, b: real)
    ensures a * s + d * a * b == a * (s + d * b)
  {
  }

  /** The form of  A' D B  is  (A y) . D (B x). */
  lemma {:induction false} FormTriple(v: Matrix, a: Matrix, d: Matrix, b: Matrix, y: seq<real>, x: seq<real>,
                                      n: nat, p: nat, dim: nat)
    requires Shape(v, n, n) && p <= dim
    ensures Shape(TripleSum(v, a, d, b, p, dim), n, n)
    ensures Form(TripleSum(v, a, d, b, p, dim), y, x, n, n)
         == Form(v, y, x, n, n) + Sandwich(a, d, b, y, x, n, p, dim)
  {
    hide Dot;
    var bx, ay := Product(b, x, n, dim), Product(a, y, n, dim);
    FormStep(d, ay, bx, if p > 0 then p - 1 else 0, dim);
    if p > 0 {
      FormTriple(v, a, d, b, y, x, n, p - 1, dim);
      FormTripleRow(TripleSum(v, a, d, b, p - 1, dim), a, d, b, y, x, n, p - 1, dim, dim);
      assert At(ay, p - 1) == Dot(RowAt(a, p - 1), y, n);
    }
  }

  /** K += A' D B, for dim x n matrices A and B and a dim x dim matrix D. */
  method TripleMultiply(k: array2<real>, a: Matrix, d: array2<real>, b: Matrix)
    requires k.Length0 == k.Length1 && d.Length0 == d.Length1 && k != d
    requires Shape(a, d.Length0, k.Length0) && Shape(b, d.Length0, k.Length0)
    modifies k
    ensures Values(k) == TripleSum(old(Values(k)), a, old(Values(d)), b, d.Length0, d.Length0)
  {
    var dim := d.Length0;
    ghost var v0, vd := Values(k), Values(d);
    for p := 0 to dim
      invariant Values(d) == vd
      invariant Values(k) == TripleSum(v0, a, vd, b, p, dim)
    {
      ghost var v := Values(k);
      for q := 0 to dim
        invariant Values(d) == vd
        invariant Values(k) == TripleRow(v, a, vd, b, p, q)
      {
        AddOuter(k, d[p, q], a[p], b[q]);
      }
    }
  }

  /** The matrix with delta added to entry (r, s). */
  function WithEntry(v: Matrix, r: nat, s: nat, delta: real): Matrix {
    if r < |v| && s < |v[r]| then v[r := v[r][s := v[r][s] + delta]] else v
  }

  /** The matrix after the first j entries of row i of an element matrix are added. */
  function RowAdded(v: Matrix, row: seq<real>, dofs: seq<nat>, i: nat, j: nat): Matrix
    requires i < |dofs| && j <= |dofs|
  {
    if j == 0 then v
    else WithEntry(RowAdded(v, row, dofs, i, j - 1), dofs[i], dofs[j - 1], At(row, j - 1))
  }

  /** The matrix after the first i rows of an element matrix are added. */
  function Added(v: Matrix, ke: Matrix, dofs: seq<nat>, i: nat): Matrix
    requires i <= |dofs|
  {
    if i == 0 then v
    else RowAdded(Added(v, ke, dofs, i - 1), RowAt(ke, i - 1), dofs, i - 1, |dofs|)
  }

  ghost predicate DofsWithin(dofs: seq<nat>, n: nat) {
    forall i :: 0 <= i < |dofs| ==> dofs[i] < n
  }

  lemma {:induction false} FormRowAdded(v: Matrix, row: seq<real>, dofs: seq<nat>, i: nat, j: nat,
                                        y: seq<real>, x: seq<real>, n: nat)
    requires Shape(v, n, n) && DofsWithin(dofs, n) && i < |dofs| && j <= |dofs|
    ensures Shape(RowAdded(v, row, dofs, i, j), n, n)
    ensures Form(RowAdded(v, row, dofs, i, j), y, x, n, n)
         == Form(v, y, x, n, n) + Times(At(y, dofs[i]), Dot(row, Gather(x, dofs), j))
  {
    hide Dot;
    hide Form;
    hide Times;
    var gx := Gather(x, dofs);
    TimesZero(At(y, dofs[i]));
    RowDotStep(row, gx, j);
    if j > 0 {
      var prior := RowAdded(v, row, dofs, i, j - 1);
      FormRowAdded(v, row, dofs, i, j - 1, y, x, n);
      FormUpdate(prior, dofs[i], dofs[j - 1], At(row, j - 1), y, x, n, n);
      assert At(gx, j - 1) == At(x, dofs[j - 1]);
      TimesSum(At(y, dofs[i]), Dot(row, gx, j - 1), Times(At(row, j - 1), At(gx, j - 1)));
    }
  }

  lemma RowDotStep(a: seq<real>, b: seq<real>, j: nat)
    ensures Dot(a, b, j) == if j == 0 then 0.0 else Dot(a, b, j - 1) + Times(At(a, j - 1), At(b, j - 1))
  {
  }

  /** Assembly adds the element's form, seen through its degrees of freedom. */
  lemma {:induction false} FormAdded(v: Matrix, ke: Matrix, dofs: seq<nat>, i: nat, y: seq<real>, x: seq<real>, n: nat)
    requires Shape(v, n, n) && DofsWithin(dofs, n) && i <= |dofs|
    ensures Shape(Added(v, ke, dofs, i), n, n)
    ensures Form(Added(v, ke, dofs, i), y, x, n, n)
         == Form(v, y, x, n, n) + Form(ke, Gather(y, dofs), Gather(x, dofs), i, |dofs|)
  {
    hide Dot;
    hide Form;
    FormStep(ke, Gather(y, dofs), Gather(x, dofs), if i > 0 then i - 1 else 0, |dofs|);
    if i > 0 {
      FormAdded(v, ke, dofs, i - 1, y, x, n);
      FormRowAdded(Added(v, ke, dofs, i - 1), RowAt(ke, i - 1), dofs, i - 1, |dofs|, y, x, n);
    }
  }

  /** K[r, s] += delta */
  method AddEntry(k: array2<real>, r: nat, s: nat, delta: real)
    requires r < k.Length0 && s < k.Length1
    modifies k
    ensures Values(k) == WithEntry(old(Values(k)), r, s, delta)
  {
    ghost var v := Values(k);
    k[r, s] := k[r, s] + delta;
    assert Values(k)[r] == v[r][s := v[r][s] + delta];
    assert forall p :: 0 <= p < k.Length0 && p != r ==> Values(k)[p] == v[p];
  }

  /** Adds row i of an element matrix to the global one. */
  method AddRowToGlobal(k: array2<real>, ke: array2<real>, dofs: seq<nat>, i: nat)
    requires k != ke
    requires ke.Length0 == ke.Length1 == |dofs| && i < |dofs|
    requires DofsWithin(dofs, k.Length0) && DofsWithin(dofs, k.Length1)
    modifies k
    ensures Values(k) == RowAdded(old(Values(k)), old(Values(ke)[i]), dofs, i, |dofs|)
  {
    hide WithEntry;
    ghost var v, row := Values(k), Values(ke)[i];
    for j := 0 to |dofs|
      invariant Values(ke)[i] == row
      invariant Values(k) == RowAdded(v, row, dofs, i, j)
    {
      assert ke[i, j] == At(row, j);
      AddEntry(k, dofs[i], dofs[j], ke[i, j]);
    }
  }

  /** Adds an element matrix to the global one: K[dofs[i], dofs[j]] += Ke[i, j]. */
  method AddToGlobal(k: array2<real>, ke: array2<real>, dofs: seq<nat>)
    requires k != ke
    requires ke.Length0 == ke.Length1 == |dofs|
    requires DofsWithin(dofs, k.Length0) && DofsWithin(dofs, k.Length1)
    modifies k
    ensures Values(k) == Added(old(Values(k)), old(Values(ke)), dofs, |dofs|)
  {
    hide RowAdded;
    ghost var v, ve := Values(k), Values(ke);
    for i := 0 to |dofs|
      invariant Values(ke) == ve
      invariant Values(k) == Added(v, ve, dofs, i)
    {
      assert RowAt(ve, i) == Values(ke)[i];
      AddRowToGlobal(k, ke, dofs, i);
    }
  }

  /** The vector after the first i entries of an element vector are added. */
  function VectorAdded(p: seq<real>, pe: seq<real>, dofs: seq<nat>, i: nat): (r: seq<real>)
    requires i <= |dofs|
    ensures |r| == |p|
  {
    if i == 0 then p
    else
      var q := VectorAdded(p, pe, dofs, i - 1);
      var d := dofs[i - 1];
      if d < |q| then q[d := q[d] + At(pe, i - 1)] else q
  }

  lemma {:induction false} DotVectorAdded(p: seq<real>, pe: seq<real>, dofs: seq<nat>, i: nat, y: seq<real>)
    requires i <= |dofs| && DofsWithin(dofs, |p|)
    ensures Dot(VectorAdded(p, pe, dofs, i), y, |p|) == Dot(p, y, |p|) + Dot(pe, Gather(y, dofs), i)
  {
    hide Dot;
    RowDotStep(pe, Gather(y, dofs), i);
    if i > 0 {
      assert At(Gather(y, dofs), i - 1) == At(y, dofs[i - 1]);
      DotVectorAdded(p, pe, dofs, i - 1, y);
      DotUpdate(VectorAdded(p, pe, dofs, i - 1), dofs[i - 1], At(pe, i - 1), y, |p|);
    }
  }

  /** Adds an element vector to the global one: p[dofs[i]] += pe[i]. */
  method AddVectorToGlobal(p: array<real>, pe: array<real>, dofs: seq<nat>)
    requires p != pe
    requires pe.Length == |dofs| && DofsWithin(dofs, p.Length)
    modifies p
    ensures p[..] == VectorAdded(old(p[..]), old(pe[..]), dofs, |dofs|)
  {
    ghost var p0, q := p[..], pe[..];
    for i := 0 to |dofs|
      invariant pe[..] == q
      invariant p[..] == VectorAdded(p0, q, dofs, i)
    {
      ghost var v := p[..];
      p[dofs[i]] := p[dofs[i]] + pe[i];
      assert p[..] == v[dofs[i] := v[dofs[i]] + q[i]];
    }
  }

  /** pe += c * b */
  method AddToVector(pe: array<real>, c: real, b: seq<real>)
    requires |b| == pe.Length
    modifies pe
    ensures pe[..] == Axpy(old(pe[..]), c, b)
  {
    ghost var s := Axpy(pe[..], c, b);
    for i := 0 to pe.Length
      invariant forall k :: 0 <= k < pe.Length ==> pe[k] == if k < i then s[k] else old(pe[k])
    {
      pe[i] := pe[i] + c * b[i];
    }
    assert forall k :: 0 <= k < pe.Length ==> pe[..][k] == s[k];
  }

  function ZeroMatrix(n: nat): (v: Matrix)
    ensures Shape(v, n, n)
  {
    seq(n, _ => Constant(n, 0.0))
  }

  lemma ZeroForm(n: nat, y: seq<real>, x: seq<real>)
    ensures Form(ZeroMatrix(n), y, x, n, n) == 0.0
    ensures Dot(Constant(n, 0.0), y, n) == 0.0
  {
    FormZero(ZeroMatrix(n), y, x, n, n);
    DotZero(Constant(n, 0.0), y, n);
  }

  method NewMatrix(n: nat) returns (k: array2<real>)
    ensures fresh(k) && k.Length0 == k.Length1 == n
    ensures Values(k) == ZeroMatrix(n)
  {
    k := new real[n, n]((_, _) => 0.0);
    assert forall i :: 0 <= i < n ==> Values(k)[i] == ZeroMatrix(n)[i];
  }

  method NewVector(n: nat) returns (p: array<real>)
    ensures fresh(p) && p.Length == n
    ensures p[..] == Constant(n, 0.0)
  {
    p := new real[n](_ => 0.0);
  }
}
