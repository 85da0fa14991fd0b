/** Quadrature points of an element, and what the finite elements promise about their basis functions. */
module Quadrature {
  import opened LinearAlgebra

  datatype Point = Point(weight: real, jdet: real, basis: seq<real>, dx: seq<real>, dy: seq<real>) {
    predicate Sized(n: nat) {
      |basis| == |dx| == |dy| == n
    }

    /** The basis functions sum to 1, so their derivatives sum to 0. */
    predicate PartitionOfUnity(n: nat) {
      Sized(n) && Total(basis, n) == 1.0 && Total(dx, n) == 0.0 && Total(dy, n) == 0.0
    }

    predicate Nonnegative() {
      weight >= 0.0 && jdet >= 0.0
    }

    /** A nodal field and its derivatives at the point. */
    function Value(x: seq<real>): real {
      Dot(basis, x, |basis|)
    }

    function Dx(x: seq<real>): real {
      Dot(dx, x, |dx|)
    }

    function Dy(x: seq<real>): real {
      Dot(dy, x, |dy|)
    }
  }

  lemma ConstantField(q: Point, n: nat, c: real)
    requires q.PartitionOfUnity(n)
    ensures q.Value(Constant(n, c)) == c
    ensures q.Dx(Constant(n, c)) == 0.0 && q.Dy(Constant(n, c)) == 0.0
  {
    hide Dot;
    DotConstant(q.basis, n, c, n);
    DotConstant(q.dx, n, c, n);
    DotConstant(q.dy, n, c, n);
  }

  lemma GatherConstant(n: nat, c: real, dofs: seq<nat>)
    requires DofsWithin(dofs, n)
    ensures Gather(Constant(n, c), dofs) == Constant(|dofs|, c)
  {
  }

  lemma FormOne(d: real, u: real, w: real)
    ensures Form([[d]], [u], [w], 1, 1) == Times(d, Times(u, w))
  {
    assert Product([[d]], [w], 1, 1) == [d * w] by {
      assert Dot([d], [w], 1) == d * w;
    }
    assert Dot([d * w], [u], 1) == d * w * u;
    assert d * w * u == d * (u * w);
  }

  lemma DotTwo(a: real, b: real, u: real, w: real)
    ensures Dot([a, b], [u, w], 2) == a * u + b * w
  {
    assert Dot([a, b], [u, w], 1) == a * u;
  }

  lemma FormTwo(d00: real, d01: real, d10: real, d11: real, u0: real, u1: real, w0: real, w1: real)
    ensures Form([[d00, d01], [d10, d11]], [u0, u1], [w0, w1], 2, 2)
         == Times(d00, Times(u0, w0)) + Times(d01, Times(u0, w1)) + Times(d10, Times(u1, w0)) + Times(d11, Times(u1, w1))
  {
    hide Dot;
    var d, w := [[d00, d01], [d10, d11]], [w0, w1];
    DotTwo(d00, d01, w0, w1);
    DotTwo(d10, d11, w0, w1);
    var r0, r1 := d00 * w0 + d01 * w1, d10 * w0 + d11 * w1;
    assert Product(d, w, 2, 2) == [r0, r1];
    DotTwo(r0, r1, u0, u1);
    TwoAlgebra(d00, d01, u0, w0, w1);
    TwoAlgebra(d10, d11, u1, w0, w1);
  }

  lemma TwoAlgebra(a: real, b: real, u: real, w: real, z: real)
    ensures (a * w + b * z) * u == Times(a, Times(u, w)) + Times(b, Times(u, z))
  {
  }

  /** A' D B seen through its form, in one and in two directions. */
  lemma SandwichOne(a: seq<real>, d: real, b: seq<real>, y: seq<real>, x: seq<real>, n: nat)
    ensures Sandwich([a], [[d]], [b], y, x, n, 1, 1) == Times(d, Times(Dot(a, y, n), Dot(b, x, n)))
  {
    hide Dot;
    hide Form;
    assert Product([a], y, n, 1) == [Dot(a, y, n)];
    assert Product([b], x, n, 1) == [Dot(b, x, n)];
    FormOne(d, Dot(a, y, n), Dot(b, x, n));
  }

  lemma SandwichTwo(a0: seq<real>, a1: seq<real>, d00: real, d01: real, d10: real, d11: real, b0: seq<real>, b1: seq<real>,
                    y: seq<real>, x: seq<real>, n: nat)
    ensures Sandwich([a0, a1], [[d00, d01], [d10, d11]], [b0, b1], y, x, n, 2, 2)
         == Times(d00, Times(Dot(a0, y, n), Dot(b0, x, n))) + Times(d01, Times(Dot(a0, y, n), Dot(b1, x, n)))
            + Times(d10, Times(Dot(a1, y, n), Dot(b0, x, n))) + Times(d11, Times(Dot(a1, y, n), Dot(b1, x, n)))
  {
    hide Dot;
    hide Form;
    hide Times;
    assert Product([a0, a1], y, n, 2) == [Dot(a0, y, n), Dot(a1, y, n)];
    assert Product([b0, b1], x, n, 2) == [Dot(b0, x, n), Dot(b1, x, n)];
    FormTwo(d00, d01, d10, d11, Dot(a0, y, n), Dot(a1, y, n), Dot(b0, x, n), Dot(b1, x, n));
  }
}
