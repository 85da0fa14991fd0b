/**
  The elastic Green's function tables of the sea-level and ESA cores: gravitational potential G,
  vertical displacement U and horizontal displacement H for M angles i*degacc, each a sum over the
  degrees n < nl of Love numbers times Legendre polynomials.

  Rows are split over ranks, gathered, and the singular row 0 is overwritten by row 1.
 */
module GreenTables {
  import opened LinearAlgebra
  import opened RealFacts
  import opened Legendre

  /** What is known of an angle alpha in [0, pi]. */
  datatype Angle = Angle(cos: real, sin: real, sinHalf: real) {
    predicate Valid() {
      && cos * cos + sin * sin == 1.0
      && 2.0 * (sinHalf * sinHalf) == 1.0 - cos
      && sinHalf >= 0.0
    }

    /** alpha is not 0. */
    predicate Regular() {
      sinHalf > 0.0
    }
  }

  lemma AngleBounds(a: Angle)
    requires a.Valid()
    ensures -1.0 <= a.cos <= 1.0 && Abs(a.sin) <= 1.0
  {
  }

  /** a/2/s, or whatever the machine makes of a division by zero. */
  function HalfRatio(a: real, s: real, singular: real): real {
    if s == 0.0 then singular else a / 2.0 / s
  }

  /** The Love numbers k, h, l by degree. */
  datatype Love = Love(k: seq<real>, h: seq<real>, l: seq<real>) {
    predicate Valid() {
      |k| == |h| == |l| && |h| > 0
    }

    function Last(): nat
      requires Valid()
    {
      |h| - 1
    }

    /** The weight of P_n in G and in U, once the asymptotic value is taken out. */
    function DeltaG(n: nat): real
      requires Valid() && n < |h|
    {
      k[n] - k[Last()] - h[n] + h[Last()]
    }

    function DeltaU(n: nat): real
      requires Valid() && n < |h|
    {
      h[n] - h[Last()]
    }
  }

  // ---------------------------------------------------------------- the entries

  function SumG(love: Love, x: real, n: nat): real
    requires love.Valid() && n <= |love.h|
  {
    if n == 0 then 0.0 else SumG(love, x, n - 1) + Times(love.DeltaG(n - 1), P(n - 1, x))
  }

  function SumU(love: Love, x: real, n: nat): real
    requires love.Valid() && n <= |love.h|
  {
    if n == 0 then 0.0 else SumU(love, x, n - 1) + Times(love.DeltaU(n - 1), P(n - 1, x))
  }

  function SumH(love: Love, a: Angle, n: nat): real
    requires love.Valid() && n <= |love.h|
  {
    if n == 0 then 0.0 else SumH(love, a, n - 1) + Times(Times(a.sin, love.l[n - 1]), DP(n - 1, a.cos))
  }

  function EntryG(love: Love, a: Angle, singular: real): real
    requires love.Valid()
  {
    HalfRatio(love.k[love.Last()] - love.h[love.Last()], a.sinHalf, singular) + SumG(love, a.cos, |love.h|)
  }

  function EntryU(love: Love, a: Angle, singular: real): real
    requires love.Valid()
  {
    HalfRatio(love.h[love.Last()], a.sinHalf, singular) + SumU(love, a.cos, |love.h|)
  }

  function EntryH(love: Love, a: Angle): real
    requires love.Valid()
  {
    SumH(love, a, |love.h|)
  }

  // ---------------------------------------------------------------- the loops

  /** P_n and P'_n from their two predecessors, which are not read below degree 2. */
  method NextLegendre(n: nat, x: real, pn1: real, pn2: real, dpn1: real, dpn2: real) returns (pn: real, dpn: real)
    requires n >= 1 ==> pn1 == P(n - 1, x) && dpn1 == DP(n - 1, x)
    requires n >= 2 ==> pn2 == P(n - 2, x) && dpn2 == DP(n - 2, x)
    ensures pn == P(n, x) && dpn == DP(n, x)
  {
    hide P;
    hide DP;
    FirstValues(x);
    if n == 0 {
      pn, dpn := 1.0, 0.0;
    } else if n == 1 {
      pn, dpn := x, 1.0;
    } else {
      StepP(n, x);
      StepDP(n, x);
      pn := ((2 * n - 1) as real * x * pn1 - (n - 1) as real * pn2) / n as real;
      dpn := ((2 * n - 1) as real * (pn1 + x * dpn1) - (n - 1) as real * dpn2) / n as real;
    }
  }

  /** One row of the three tables. The rolling variables start with arbitrary contents. */
  method FillRow(g: array<real>, u: array<real>, h: array<real>, row: nat, love: Love, a: Angle, singular: real)
    requires love.Valid()
    requires row < g.Length == u.Length == h.Length && g != u && u != h && g != h
    modifies g, u, h
    ensures g[..] == old(g[..])[row := EntryG(love, a, singular)]
    ensures u[..] == old(u[..])[row := EntryU(love, a, singular)]
    ensures h[..] == old(h[..])[row := EntryH(love, a)]
  {
    hide Times;
    hide P;
    hide DP;
    var last, nl := love.Last(), |love.h|;
    g[row] := HalfRatio(love.k[last] - love.h[last], a.sinHalf, singular);
    u[row] := HalfRatio(love.h[last], a.sinHalf, singular);
    h[row] := 0.0;
    ghost var g0, u0 := g[row], u[row];
    var pn, pn1, pn2: real := *, *, *;
    var dpn, dpn1, dpn2: real := *, *, *;
    for n := 0 to nl
      invariant n >= 1 ==> pn1 == P(n - 1, a.cos) && dpn1 == DP(n - 1, a.cos)
      invariant n >= 2 ==> pn2 == P(n - 2, a.cos) && dpn2 == DP(n - 2, a.cos)
      invariant g[row] == g0 + SumG(love, a.cos, n)
      invariant u[row] == u0 + SumU(love, a.cos, n)
      invariant h[row] == SumH(love, a, n)
      invariant forall i :: 0 <= i < g.Length && i != row ==> g[i] == old(g[i]) && u[i] == old(u[i]) && h[i] == old(h[i])
    {
      var deltaG := love.k[n] - love.k[last] - love.h[n] + love.h[last];
      var deltaU := love.h[n] - love.h[last];
      pn, dpn := NextLegendre(n, a.cos, pn1, pn2, dpn1, dpn2);
      pn2, pn1 := pn1, pn;
      dpn2, dpn1 := dpn1, dpn;
      g[row] := g[row] + Times(deltaG, pn);
      u[row] := u[row] + Times(deltaU, pn);
      h[row] := h[row] + Times(Times(a.sin, love.l[n]), dpn);
    }
  }

  /** The rows lower <= i < upper of the tables, at offset lower. */
  method FillLocal(g: array<real>, u: array<real>, h: array<real>, lower: nat, upper: nat,
                   love: Love, angles: seq<Angle>, singular: real)
    requires love.Valid() && lower <= upper <= |angles|
    requires g.Length == u.Length == h.Length == upper - lower && g != u && u != h && g != h
    modifies g, u, h
    ensures forall i :: lower <= i < upper ==>
      && g[i - lower] == EntryG(love, angles[i], singular)
      && u[i - lower] == EntryU(love, angles[i], singular)
      && h[i - lower] == EntryH(love, angles[i])
  {
    for i := lower to upper
      invariant forall r :: 0 <= r < i - lower ==>
        && g[r] == EntryG(love, angles[r + lower], singular)
        && u[r] == EntryU(love, angles[r + lower], singular)
        && h[r] == EntryH(love, angles[r + lower])
    {
      ghost var g1, u1, h1 := g[..], u[..], h[..];
      FillRow(g, u, h, i - lower, love, angles[i], singular);
      forall r | 0 <= r < i - lower ensures g[r] == g1[r] && u[r] == u1[r] && h[r] == h1[r] {
        assert g[..][r] == g1[r] && u[..][r] == u1[r] && h[..][r] == h1[r];
      }
      assert g[..][i - lower] == g[i - lower] && u[..][i - lower] == u[i - lower] && h[..][i - lower] == h[i - lower];
    }
  }

  // ---------------------------------------------------------------- ranks

  /** The number of rows on the ranks before r. */
  function RowsBefore(sizes: seq<nat>, r: nat): (n: nat)
    requires r <= |sizes|
  {
    if r == 0 then 0 else RowsBefore(sizes, r - 1) + sizes[r - 1]
  }

  lemma {:induction false} RowsBeforeMonotone(sizes: seq<nat>, r: nat, s: nat)
    requires r <= s <= |sizes|
    ensures RowsBefore(sizes, r) <= RowsBefore(sizes, s)
  {
    if r < s {
      RowsBeforeMonotone(sizes, r, s - 1);
    }
  }

  /** The rows rank my_rank owns, from everyone's local sizes. */
  method OwnershipBoundaries(sizes: seq<nat>, myRank: nat) returns (lower: nat, upper: nat)
    requires myRank < |sizes|
    ensures lower == RowsBefore(sizes, myRank) && upper == RowsBefore(sizes, myRank + 1)
  {
    lower, upper := 0, sizes[0];
    for i := 1 to myRank + 1
      invariant lower == RowsBefore(sizes, i - 1) && upper == RowsBefore(sizes, i)
    {
      lower, upper := lower + sizes[i - 1], upper + sizes[i];
    }
  }

  lemma Division(n: nat, d: nat)
    requires d > 0
    ensures n - d * (n / d) == n % d
    ensures 0 <= n % d < d
  {
  }

  /** q rows for each rank, and one more for the first rest ranks. */
  function SharesOf(q: nat, rest: nat, procs: nat): (s: seq<nat>)
    ensures |s| == procs
  {
    seq(procs, i => q + (if i < rest then 1 else 0))
  }

  function Shares(globalSize: nat, procs: nat): (s: seq<nat>)
    requires procs > 0
    ensures |s| == procs
  {
    SharesOf(globalSize / procs, globalSize % procs, procs)
  }

  /** Everyone gets the share, and the first ranks one row more while some are left. */
  method LocalSizes(share: nat, rest: nat, procs: nat) returns (rows: array<nat>)
    requires rest <= procs
    ensures rows[..] == SharesOf(share, rest, procs)
  {
    rows := new nat[procs];
    for i := 0 to procs
      invariant forall j :: 0 <= j < i ==> rows[j] == share
    {
      rows[i] := share;
    }
    for i := 0 to rest
      invariant forall j :: 0 <= j < procs ==> rows[j] == share + (if j < i then 1 else 0)
    {
      rows[i] := rows[i] + 1;
    }
  }

  /** Local sizes: an equal share each, and one more row for the first ranks while some are left. */
  method DetermineLocalSize(globalSize: nat, procs: nat, myRank: nat) returns (size: nat)
    requires myRank < procs
    ensures size == Shares(globalSize, procs)[myRank]
  {
    hide SharesOf;
    Division(globalSize, procs);
    var rows := LocalSizes(globalSize / procs, globalSize - procs * (globalSize / procs), procs);
    assert rows[..][myRank] == rows[myRank];
    size := rows[myRank];
  }

  lemma {:induction false} SharesBefore(q: nat, rest: nat, procs: nat, r: nat)
    requires r <= procs
    ensures RowsBefore(SharesOf(q, rest, procs), r) == r * q + (if r < rest then r else rest)
  {
    if r > 0 {
      SharesBefore(q, rest, procs, r - 1);
      assert r * q == (r - 1) * q + q;
    }
  }

  /** The shares cover every row once, and no two ranks differ by more than one row. */
  lemma SharesPartition(globalSize: nat, procs: nat)
    requires procs > 0
    ensures RowsBefore(Shares(globalSize, procs), procs) == globalSize
    ensures forall i, j :: 0 <= i < procs && 0 <= j < procs ==>
      Shares(globalSize, procs)[i] <= Shares(globalSize, procs)[j] + 1
  {
    SharesBefore(globalSize / procs, globalSize % procs, procs, procs);
  }

  /** The entries of the finished tables: row 0 repeats row 1. */
  function TableG(love: Love, angles: seq<Angle>, i: nat): real
    requires love.Valid() && i < |angles| && |angles| >= 2
  {
    EntryG(love, angles[if i == 0 then 1 else i], 0.0)
  }

  function TableU(love: Love, angles: seq<Angle>, i: nat): real
    requires love.Valid() && i < |angles| && |angles| >= 2
  {
    EntryU(love, angles[if i == 0 then 1 else i], 0.0)
  }

  function TableH(love: Love, angles: seq<Angle>, i: nat): real
    requires love.Valid() && i < |angles| && |angles| >= 2
  {
    EntryH(love, angles[if i == 0 then 1 else i])
  }

  /** All-gather: each rank's local rows, at the displacement it owns. */
  method Gatherv(all: array<real>, local: array<real>, displ: nat)
    requires all != local && displ + local.Length <= all.Length
    modifies all
    ensures all[..] == old(all[..])[..displ] + local[..] + old(all[..])[displ + local.Length..]
  {
    for i := 0 to local.Length
      invariant all[..] == old(all[..])[..displ] + local[..i] + old(all[..])[displ + i..]
    {
      all[displ + i] := local[i];
    }
  }

  /** Away from alpha = 0 nothing depends on the division by zero. */
  lemma RegularEntries(love: Love, a: Angle, singular: real)
    requires love.Valid() && a.Regular()
    ensures EntryG(love, a, singular) == EntryG(love, a, 0.0) && EntryU(love, a, singular) == EntryU(love, a, 0.0)
  {
  }

  /** One rank's rows, computed and gathered. */
  method RunRank(g: array<real>, u: array<real>, h: array<real>, love: Love, angles: seq<Angle>, sizes: seq<nat>,
                 rank: nat, singular: real)
    requires love.Valid() && |angles| >= 2
    requires forall i :: 1 <= i < |angles| ==> angles[i].Regular()
    requires rank < |sizes| && RowsBefore(sizes, rank + 1) <= |angles|
    requires g.Length == u.Length == h.Length == |angles| && g != u && u != h && g != h
    requires forall i :: 1 <= i < RowsBefore(sizes, rank) ==>
      g[i] == TableG(love, angles, i) && u[i] == TableU(love, angles, i) && h[i] == TableH(love, angles, i)
    modifies g, u, h
    ensures forall i :: 1 <= i < RowsBefore(sizes, rank + 1) ==>
      g[i] == TableG(love, angles, i) && u[i] == TableU(love, angles, i) && h[i] == TableH(love, angles, i)
  {
    hide EntryG;
    hide EntryU;
    hide EntryH;
    var lower, upper := OwnershipBoundaries(sizes, rank);
    var gl, ul, hl := new real[sizes[rank]], new real[sizes[rank]], new real[sizes[rank]];
    FillLocal(gl, ul, hl, lower, upper, love, angles, singular);
    ghost var g1, u1, h1 := g[..], u[..], h[..];
    Gatherv(g, gl, lower);
    Gatherv(u, ul, lower);
    Gatherv(h, hl, lower);
    forall i | 1 <= i < upper
      ensures g[i] == TableG(love, angles, i) && u[i] == TableU(love, angles, i) && h[i] == TableH(love, angles, i)
    {
      if i < lower {
        assert g[..][i] == g1[i] && u[..][i] == u1[i] && h[..][i] == h1[i];
      } else {
        assert g[..][i] == gl[i - lower] && u[..][i] == ul[i - lower] && h[..][i] == hl[i - lower];
        RegularEntries(love, angles[i], singular);
      }
    }
  }

  /**
    The tables for any split of the rows over any number of ranks. singular holds, per rank, what a
    division by zero gives there.
   */
  method UpdateParameters(love: Love, angles: seq<Angle>, sizes: seq<nat>, singular: seq<real>)
    returns (g: array<real>, u: array<real>, h: array<real>)
    requires love.Valid() && |angles| >= 2
    requires forall i :: 1 <= i < |angles| ==> angles[i].Regular()
    requires |singular| == |sizes| && RowsBefore(sizes, |sizes|) == |angles|
    ensures fresh(g) && fresh(u) && fresh(h) && g.Length == u.Length == h.Length == |angles|
    ensures forall i :: 0 <= i < |angles| ==>
      g[i] == TableG(love, angles, i) && u[i] == TableU(love, angles, i) && h[i] == TableH(love, angles, i)
    ensures g[0] == g[1] && u[0] == u[1] && h[0] == h[1]
  {
    hide TableG;
    hide TableU;
    hide TableH;
    g, u, h := new real[|angles|], new real[|angles|], new real[|angles|];
    for rank := 0 to |sizes|
      invariant forall i :: 1 <= i < RowsBefore(sizes, rank) && i < |angles| ==>
        g[i] == TableG(love, angles, i) && u[i] == TableU(love, angles, i) && h[i] == TableH(love, angles, i)
    {
      RowsBeforeMonotone(sizes, rank + 1, |sizes|);
      RunRank(g, u, h, love, angles, sizes, rank, singular[rank]);
    }
    g[0] := g[1];
    u[0] := u[1];
    h[0] := h[1];
    FirstRow(love, angles);
  }

  lemma FirstRow(love: Love, angles: seq<Angle>)
    requires love.Valid() && |angles| >= 2
    ensures TableG(love, angles, 0) == TableG(love, angles, 1)
    ensures TableU(love, angles, 0) == TableU(love, angles, 1)
    ensures TableH(love, angles, 0) == TableH(love, angles, 1)
  {
  }
}
