/** What the entries of the Green's function tables mean, and how large they can be. */
module GreenTableBounds {
  import opened LinearAlgebra
  import opened RealFacts
  import opened Legendre
  import opened GreenTables

  /** The plain sum over the degrees of (k_n - h_n) P_n. */
  function PlainG(love: Love, x: real, n: nat): real
    requires love.Valid() && n <= |love.h|
  {
    if n == 0 then 0.0 else PlainG(love, x, n - 1) + Times(love.k[n - 1] - love.h[n - 1], P(n - 1, x))
  }

  function PlainU(love: Love, x: real, n: nat): real
    requires love.Valid() && n <= |love.h|
  {
    if n == 0 then 0.0 else PlainU(love, x, n - 1) + Times(love.h[n - 1], P(n - 1, x))
  }

  function SumP(x: real, n: nat): real {
    if n == 0 then 0.0 else SumP(x, n - 1) + P(n - 1, x)
  }

  lemma {:induction false} SplitSums(love: Love, x: real, n: nat)
    requires love.Valid() && n <= |love.h|
    ensures SumG(love, x, n) == PlainG(love, x, n) - Times(love.k[love.Last()] - love.h[love.Last()], SumP(x, n))
    ensures SumU(love, x, n) == PlainU(love, x, n) - Times(love.h[love.Last()], SumP(x, n))
  {
    hide P;
    hide Times;
    TimesZero(love.k[love.Last()] - love.h[love.Last()]);
    TimesZero(love.h[love.Last()]);
    if n > 0 {
      SplitSums(love, x, n - 1);
      var i, last := n - 1, love.Last();
      SplitTerm(love.k[i] - love.h[i], love.k[last] - love.h[last], P(i, x), SumP(x, i));
      SplitTerm(love.h[i], love.h[last], P(i, x), SumP(x, i));
    }
  }

  lemma SplitTerm(a: real, c: real, p: real, s: real)
    ensures Times(a - c, p) == Times(a, p) - Times(c, p)
    ensures Times(c, s + p) == Times(c, s) + Times(c, p)
  {
  }

  /**
    An entry is the plain sum over the degrees, plus the asymptotic Love number times the part of the
    series 1/(2 sin(alpha/2)) = P_0 + P_1 + ... beyond the last degree.
   */
  lemma EntryMeaning(love: Love, a: Angle)
    requires love.Valid() && a.Regular()
    ensures var rest := 1.0 / (2.0 * a.sinHalf) - SumP(a.cos, |love.h|);
            && EntryG(love, a, 0.0)
               == PlainG(love, a.cos, |love.h|) + (love.k[love.Last()] - love.h[love.Last()]) * rest
            && EntryU(love, a, 0.0) == PlainU(love, a.cos, |love.h|) + love.h[love.Last()] * rest
  {
    hide PlainG;
    hide PlainU;
    hide SumP;
    hide SumG;
    hide SumU;
    SplitSums(love, a.cos, |love.h|);
    var kh, h := love.k[love.Last()] - love.h[love.Last()], love.h[love.Last()];
    HalfRatioMeaning(kh, a.sinHalf, SumP(a.cos, |love.h|));
    HalfRatioMeaning(h, a.sinHalf, SumP(a.cos, |love.h|));
  }

  lemma HalfRatioMeaning(c: real, s: real, p: real)
    requires s > 0.0
    ensures HalfRatio(c, s, 0.0) == c / (2.0 * s)
    ensures c * (1.0 / (2.0 * s) - p) == HalfRatio(c, s, 0.0) - c * p
  {
  }

  /** One more degree, with the same Love numbers as the last. */
  function Extended(love: Love): Love
    requires love.Valid()
  {
    var last := love.Last();
    Love(love.k + [love.k[last]], love.h + [love.h[last]], love.l + [love.l[last]])
  }

  lemma {:induction false} ExtendedSums(love: Love, x: real, n: nat)
    requires love.Valid() && n <= |love.h|
    ensures SumG(Extended(love), x, n) == SumG(love, x, n)
    ensures SumU(Extended(love), x, n) == SumU(love, x, n)
  {
    hide P;
    hide Times;
    if n > 0 {
      ExtendedSums(love, x, n - 1);
    }
  }

  /** Once the Love numbers have reached their asymptote, G and U no longer depend on where the sum is cut. */
  lemma TruncationFree(love: Love, a: Angle, singular: real)
    requires love.Valid()
    ensures EntryG(Extended(love), a, singular) == EntryG(love, a, singular)
    ensures EntryU(Extended(love), a, singular) == EntryU(love, a, singular)
  {
    hide P;
    ExtendedSums(love, a.cos, |love.h|);
    var more, n := Extended(love), |love.h|;
    assert more.DeltaG(n) == 0.0 && more.DeltaU(n) == 0.0;
  }

  // ---------------------------------------------------------------- bounds

  function SpreadG(love: Love, n: nat): real
    requires love.Valid() && n <= |love.h|
  {
    if n == 0 then 0.0 else SpreadG(love, n - 1) + Abs(love.DeltaG(n - 1))
  }

  function SpreadU(love: Love, n: nat): real
    requires love.Valid() && n <= |love.h|
  {
    if n == 0 then 0.0 else SpreadU(love, n - 1) + Abs(love.DeltaU(n - 1))
  }

  function SpreadH(love: Love, n: nat): real
    requires love.Valid() && n <= |love.h|
  {
    if n == 0 then 0.0 else SpreadH(love, n - 1) + Abs(love.l[n - 1]) * Triangular(n - 1)
  }

  lemma WeightBound(w: real, p: real)
    requires Abs(p) <= 1.0
    ensures Abs(Times(w, p)) <= Abs(w)
  {
    UnitProduct(p, w);
  }

  lemma {:induction false} SumGBound(love: Love, x: real, n: nat)
    requires love.Valid() && n <= |love.h| && -1.0 <= x <= 1.0
    ensures Abs(SumG(love, x, n)) <= SpreadG(love, n)
  {
    hide P;
    hide Times;
    if n > 0 {
      SumGBound(love, x, n - 1);
      ValueBound(n - 1, x);
      WeightBound(love.DeltaG(n - 1), P(n - 1, x));
      AbsSum(SumG(love, x, n - 1), Times(love.DeltaG(n - 1), P(n - 1, x)));
    }
  }

  lemma {:induction false} SumUBound(love: Love, x: real, n: nat)
    requires love.Valid() && n <= |love.h| && -1.0 <= x <= 1.0
    ensures Abs(SumU(love, x, n)) <= SpreadU(love, n)
  {
    hide P;
    hide Times;
    if n > 0 {
      SumUBound(love, x, n - 1);
      ValueBound(n - 1, x);
      WeightBound(love.DeltaU(n - 1), P(n - 1, x));
      AbsSum(SumU(love, x, n - 1), Times(love.DeltaU(n - 1), P(n - 1, x)));
    }
  }

  lemma {:induction false} SumHBound(love: Love, a: Angle, n: nat)
    requires love.Valid() && n <= |love.h| && a.Valid()
    ensures Abs(SumH(love, a, n)) <= SpreadH(love, n)
  {
    hide DP;
    hide Triangular;
    hide Times;
    if n > 0 {
      SumHBound(love, a, n - 1);
      AngleBounds(a);
      DerivativeBound(n - 1, a.cos);
      HorizontalTerm(a.sin, love.l[n - 1], DP(n - 1, a.cos), Triangular(n - 1));
      AbsSum(SumH(love, a, n - 1), Times(Times(a.sin, love.l[n - 1]), DP(n - 1, a.cos)));
    }
  }

  lemma HorizontalTerm(s: real, l: real, d: real, t: real)
    requires Abs(s) <= 1.0 && Abs(d) <= t
    ensures Abs(Times(Times(s, l), d)) <= Abs(l) * t
  {
    UnitProduct(s, l);
    AbsProduct(s * l, d);
    ProductMonotone(Abs(s * l), Abs(l), Abs(d));
    ScaledMonotone(Abs(l), Abs(d), t);
  }

  lemma ScaledMonotone(c: real, a: real, b: real)
    requires c >= 0.0 && a <= b
    ensures c * a <= c * b
  {
  }

  /** Every entry of a regular row is bounded by the Love numbers alone. */
  lemma EntryBounds(love: Love, a: Angle)
    requires love.Valid() && a.Valid() && a.Regular()
    ensures Abs(EntryG(love, a, 0.0))
         <= Abs(love.k[love.Last()] - love.h[love.Last()]) / (2.0 * a.sinHalf) + SpreadG(love, |love.h|)
    ensures Abs(EntryU(love, a, 0.0)) <= Abs(love.h[love.Last()]) / (2.0 * a.sinHalf) + SpreadU(love, |love.h|)
    ensures Abs(EntryH(love, a)) <= SpreadH(love, |love.h|)
  {
    AngleBounds(a);
    SumGBound(love, a.cos, |love.h|);
    SumUBound(love, a.cos, |love.h|);
    SumHBound(love, a, |love.h|);
    RatioBound(love.k[love.Last()] - love.h[love.Last()], a.sinHalf);
    RatioBound(love.h[love.Last()], a.sinHalf);
    hide SumG;
    hide SumU;
    hide SumH;
    hide HalfRatio;
  }

  lemma RatioBound(c: real, s: real)
    requires s > 0.0
    ensures Abs(HalfRatio(c, s, 0.0)) == Abs(c) / (2.0 * s)
  {
  }
}
