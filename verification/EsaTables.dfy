/**
  The elastic tables of the ESA core: the same rolling recurrence as for sea level, without the potential G. They are
  shown to be the U and H tables of the sea-level core, entry by entry.
 */
module EsaTables {
  import opened LinearAlgebra
  import opened Legendre
  import opened GreenTables

  /** One row of the two tables. */
  method FillRow(u: array<real>, h: array<real>, row: nat, love: Love, a: Angle, singular: real)
    requires love.Valid() && row < u.Length == h.Length && u != h
    modifies u, h
    ensures u[..] == old(u[..])[row := EntryU(love, a, singular)]
    ensures h[..] == old(h[..])[row := EntryH(love, a)]
  {
    hide Times;
    hide P;
    hide DP;
    var last := love.Last();
    u[row] := HalfRatio(love.h[last], a.sinHalf, singular);
    h[row] := 0.0;
    ghost var u0 := u[row];
    var pn, pn1, pn2: real := *, *, *;
    var dpn, dpn1, dpn2: real := *, *, *;
    for n := 0 to |love.h|
      invariant n >= 1 ==> pn1 == P(n - 1, a.cos) && dpn1 == DP(n - 1, a.cos)
      invariant n >= 2 ==> pn2 == P(n - 2, a.cos) && dpn2 == DP(n - 2, a.cos)
      invariant u[row] == u0 + SumU(love, a.cos, n)
      invariant h[row] == SumH(love, a, n)
      invariant forall i :: 0 <= i < u.Length && i != row ==> u[i] == old(u[i]) && h[i] == old(h[i])
    {
      var deltaU := love.h[n] - love.h[last];
      pn, dpn := NextLegendre(n, a.cos, pn1, pn2, dpn1, dpn2);
      pn2, pn1 := pn1, pn;
      dpn2, dpn1 := dpn1, dpn;
      u[row] := u[row] + Times(deltaU, pn);
      h[row] := h[row] + Times(Times(a.sin, love.l[n]), dpn);
    }
  }

  /** The rows lower <= i < upper, at offset lower. */
  method FillLocal(u: array<real>, h: array<real>, lower: nat, upper: nat, love: Love, angles: seq<Angle>, singular: real)
    requires love.Valid() && lower <= upper <= |angles| && u.Length == h.Length == upper - lower && u != h
    modifies u, h
    ensures forall i :: lower <= i < upper ==>
      u[i - lower] == EntryU(love, angles[i], singular) && h[i - lower] == EntryH(love, angles[i])
  {
    hide EntryU;
    hide EntryH;
    for i := lower to upper
      invariant forall r :: 0 <= r < i - lower ==>
        u[r] == EntryU(love, angles[r + lower], singular) && h[r] == EntryH(love, angles[r + lower])
    {
      ghost var u1, h1 := u[..], h[..];
      FillRow(u, h, i - lower, love, angles[i], singular);
      forall r | 0 <= r < i - lower ensures u[r] == u1[r] && h[r] == h1[r] {
        assert u[..][r] == u1[r] && h[..][r] == h1[r];
      }
      assert u[..][i - lower] == u[i - lower] && h[..][i - lower] == h[i - lower];
    }
  }

  /** One rank's rows, computed and gathered. */
  method RunRank(u: array<real>, h: array<real>, love: Love, angles: seq<Angle>, sizes: seq<nat>, rank: nat, singular: real)
    requires love.Valid() && |angles| >= 2 && forall i :: 1 <= i < |angles| ==> angles[i].Regular()
    requires rank < |sizes| && RowsBefore(sizes, rank + 1) <= |angles|
    requires u.Length == h.Length == |angles| && u != h
    requires forall i :: 1 <= i < RowsBefore(sizes, rank) ==> u[i] == TableU(love, angles, i) && h[i] == TableH(love, angles, i)
    modifies u, h
    ensures forall i :: 1 <= i < RowsBefore(sizes, rank + 1) ==> u[i] == TableU(love, angles, i) && h[i] == TableH(love, angles, i)
  {
    hide EntryG;
    hide EntryU;
    hide EntryH;
    var lower, upper := OwnershipBoundaries(sizes, rank);
    var ul, hl := new real[sizes[rank]], new real[sizes[rank]];
    FillLocal(ul, hl, lower, upper, love, angles, singular);
    ghost var u1, h1 := u[..], h[..];
    Gatherv(u, ul, lower);
    Gatherv(h, hl, lower);
    forall i | 1 <= i < upper ensures u[i] == TableU(love, angles, i) && h[i] == TableH(love, angles, i) {
      if i < lower {
        assert u[..][i] == u1[i] && h[..][i] == h1[i];
      } else {
        assert u[..][i] == ul[i - lower] && h[..][i] == hl[i - lower];
        RegularEntries(love, angles[i], singular);
      }
    }
  }

  /** The tables for any split of the rows over any number of ranks. */
  method UpdateParameters(love: Love, angles: seq<Angle>, sizes: seq<nat>, singular: seq<real>)
    returns (u: array<real>, h: array<real>)
    requires love.Valid() && |angles| >= 2 && forall i :: 1 <= i < |angles| ==> angles[i].Regular()
    requires |singular| == |sizes| && RowsBefore(sizes, |sizes|) == |angles|
    ensures fresh(u) && fresh(h) && u.Length == h.Length == |angles|
    ensures forall i :: 0 <= i < |angles| ==> u[i] == TableU(love, angles, i) && h[i] == TableH(love, angles, i)
    ensures u[0] == u[1] && h[0] == h[1]
  {
    hide TableU;
    hide TableH;
    u, h := new real[|angles|], new real[|angles|];
    for rank := 0 to |sizes|
      invariant forall i :: 1 <= i < RowsBefore(sizes, rank) && i < |angles| ==>
        u[i] == TableU(love, angles, i) && h[i] == TableH(love, angles, i)
    {
      RowsBeforeMonotone(sizes, rank + 1, |sizes|);
      RunRank(u, h, love, angles, sizes, rank, singular[rank]);
    }
    u[0] := u[1];
    h[0] := h[1];
    FirstRow(love, angles);
  }
}
