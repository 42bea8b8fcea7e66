/** The discrete part of `YahooOptions._max_gain` (mp.py:82-98): the first
    index of the smallest total payout, the seven-index window around it, and
    the power sums that make up the normal equations of the quadratic fit. */
module MaxPain {
  import opened Wrappers
  import opened Errors

  // ---------------------------------------------------------------------
  // totals.index(min(totals))

  /** `min(t)`. */
  function Min(t: seq<real>): (m: real)
    requires |t| > 0
    ensures m in t
    ensures forall i :: 0 <= i < |t| ==> m <= t[i]
  {
    if |t| == 1 then t[0]
    else
      var m := Min(t[..|t| - 1]);
      assert forall i :: 0 <= i < |t| - 1 ==> t[..|t| - 1][i] == t[i];
      if t[|t| - 1] < m then t[|t| - 1] else m
  }

  /** `t.index(x)`: the first position holding `x`. */
  function IndexOf(t: seq<real>, x: real): (i: nat)
    requires x in t
    ensures i < |t| && t[i] == x
    ensures forall j :: 0 <= j < i ==> t[j] != x
  {
    if t[0] == x then 0 else 1 + IndexOf(t[1..], x)
  }

  /** `k` is the first position of a smallest entry of `t`. */
  ghost predicate IsFirstMin(t: seq<real>, k: int) {
    && 0 <= k < |t|
    && (forall j :: 0 <= j < |t| ==> t[k] <= t[j])
    && (forall j :: 0 <= j < k ==> t[k] < t[j])
  }

  /** `imin` of mp.py:86; `min` of an empty list raises. */
  function MinIndex(t: seq<real>): (r: Result<nat, Error>)
    ensures r.Failure? <==> |t| == 0
    ensures r.Success? ==> IsFirstMin(t, r.value)
  {
    if |t| == 0 then Failure(NoCandidates)
    else Success(IndexOf(t, Min(t)))
  }

  /** There is one first minimum, so `MinIndex` is determined by the
      property it promises. */
  lemma FirstMinUnique(t: seq<real>, k: int)
    requires IsFirstMin(t, k)
    ensures MinIndex(t) == Success(k)
  {
  }

  // ---------------------------------------------------------------------
  // The window [imin-3, imin+4)

  /** Index `i` is one of the seven around `imin` and a valid position in a
      sequence of length `n` (the filter of mp.py:90-91). */
  predicate InWindow(imin: int, n: int, i: int) {
    imin - 3 <= i < imin + 4 && 0 <= i < n
  }

  /** The run of consecutive indices `lo, lo+1, ..., hi-1` (empty if `hi <= lo`). */
  function Span(lo: nat, hi: nat): (w: seq<nat>)
    ensures |w| == if lo < hi then hi - lo else 0
    ensures forall k :: 0 <= k < |w| ==> w[k] == lo + k
  {
    if lo < hi then seq(hi - lo, k requires 0 <= k < hi - lo => lo + k) else []
  }

  /** The window, clipped to the valid positions, in ascending order. */
  function Window(imin: nat, n: nat): (w: seq<nat>)
    ensures forall k :: 0 <= k < |w| ==> InWindow(imin, n, w[k])
    ensures forall i :: InWindow(imin, n, i) ==> i in w
    ensures forall k :: 0 <= k < |w| ==> w[k] == w[0] + k
    ensures |w| <= 7
    ensures imin < n ==> imin in w
  {
    var lo := if imin < 3 then 0 else imin - 3;
    var hi := if imin + 4 < n then imin + 4 else n;
    var w := Span(lo, hi);
    assert forall i :: InWindow(imin, n, i) ==> w[i - lo] == i;
    w
  }

  /** The indices of the Python slice `s[start:stop]` of a list of length `n`:
      a negative bound counts from the end, and both are then clamped to
      `0..n`. */
  function SliceRange(n: nat, start: int, stop: int): (w: seq<nat>)
    ensures forall k :: 0 <= k < |w| ==> w[k] < n
  {
    var lo := if start < 0 then (if start + n < 0 then 0 else start + n) else (if start > n then n else start);
    var hi := if stop < 0 then (if stop + n < 0 then 0 else stop + n) else (if stop > n then n else stop);
    Span(lo, hi)
  }

  /** Index `i` is read by the slice `prices[imin-3:imin+4]` of a list of
      length `n`: a negative start counts from the end of the list. */
  predicate InSlice(imin: int, n: int, i: int) {
    0 <= i < n && (if imin >= 3 then imin - 3 else n + imin - 3) <= i < imin + 4
  }

  /** The indices the power sums of mp.py:89 actually read: `prices[p1:p2]`. */
  function SliceWindow(imin: nat, n: nat): (w: seq<nat>)
    ensures forall k :: 0 <= k < |w| ==> w[k] < n
    ensures forall k :: 0 <= k < |w| ==> w[k] == w[0] + k
    ensures forall i :: i in w <==> InSlice(imin, n, i)
  {
    var w := SliceRange(n, imin - 3, imin + 4);
    var lo := if imin - 3 < 0 then (if imin - 3 + n < 0 then 0 else imin - 3 + n)
              else (if imin - 3 > n then n else imin - 3);
    assert forall k :: 0 <= k < |w| ==> w[k] == lo + k;
    assert forall i :: InSlice(imin, n, i) ==> w[i - lo] == i;
    w
  }

  /** The slice at mp.py:89 reads exactly the clipped window when the minimum
      is at index 3 or later, or when the list is so short that the wrapped
      start still lands at 0; in every other case it differs. */
  lemma SliceWindowAgreement(imin: nat, n: nat)
    requires imin < n
    ensures SliceWindow(imin, n) == Window(imin, n) <==> (imin >= 3 || n + imin <= 3)
  {
    if imin < 3 && n + imin > 3 {
      assert 0 in Window(imin, n);
      assert 0 !in SliceWindow(imin, n);
    }
  }

  // ---------------------------------------------------------------------
  // Power sums of the normal equations

  function Pow(x: real, p: nat): real {
    if p == 0 then 1.0 else x * Pow(x, p - 1)
  }

  lemma PowSteps(x: real, p: nat)
    ensures Pow(x, p + 1) == x * Pow(x, p) && Pow(x, p + 2) == x * (x * Pow(x, p))
  {
    assert Pow(x, p + 2) == x * Pow(x, p + 1);
  }

  ghost predicate IndicesBelow(w: seq<nat>, n: nat) {
    forall k :: 0 <= k < |w| ==> w[k] < n
  }

  /** `sum(prices[i] ** p for i in w)`. */
  function PowerSum(prices: seq<real>, w: seq<nat>, p: nat): real
    requires IndicesBelow(w, |prices|)
  {
    if |w| == 0 then 0.0
    else PowerSum(prices, w[..|w| - 1], p) + Pow(prices[w[|w| - 1]], p)
  }

  /** `sum(totals[i] * prices[i] ** p for i in w)`. */
  function WeightedSum(prices: seq<real>, totals: seq<real>, w: seq<nat>, p: nat): real
    requires IndicesBelow(w, |prices|) && IndicesBelow(w, |totals|)
  {
    if |w| == 0 then 0.0
    else WeightedSum(prices, totals, w[..|w| - 1], p) + totals[w[|w| - 1]] * Pow(prices[w[|w| - 1]], p)
  }

  /** The normal equations `mA * C = mB` of mp.py:92-93: `a` holds the power
      sums of degree 0..4 and `b` the weighted sums of degree 0..2; row `r`
      of the system reads `c0 a[r] + c1 a[r+1] + c2 a[r+2] = b[r]`. */
  datatype Normal = Normal(a: seq<real>, b: seq<real>)

  /** The coefficients `(c0, c1, c2)` applied to three consecutive sums. */
  function Combine(c0: real, c1: real, c2: real, s0: real, s1: real, s2: real): real {
    c0 * s0 + c1 * s1 + c2 * s2
  }

  /** `(c0, c1, c2)` satisfies row `r` of the system. */
  ghost predicate SolvesRow(e: Normal, r: nat, c0: real, c1: real, c2: real)
    requires |e.a| == 5 && |e.b| == 3 && r < 3
  {
    Combine(c0, c1, c2, e.a[r], e.a[r + 1], e.a[r + 2]) == e.b[r]
  }

  ghost predicate Solves(e: Normal, c0: real, c1: real, c2: real)
    requires |e.a| == 5 && |e.b| == 3
  {
    SolvesRow(e, 0, c0, c1, c2) && SolvesRow(e, 1, c0, c1, c2) && SolvesRow(e, 2, c0, c1, c2)
  }

  function Equations(prices: seq<real>, totals: seq<real>, wa: seq<nat>, wb: seq<nat>): (e: Normal)
    requires IndicesBelow(wa, |prices|)
    requires IndicesBelow(wb, |prices|) && IndicesBelow(wb, |totals|)
    ensures |e.a| == 5 && |e.b| == 3
    ensures forall p :: 0 <= p < 5 ==> e.a[p] == PowerSum(prices, wa, p)
    ensures forall p :: 0 <= p < 3 ==> e.b[p] == WeightedSum(prices, totals, wb, p)
  {
    Normal(seq(5, p requires 0 <= p < 5 => PowerSum(prices, wa, p)),
           seq(3, p requires 0 <= p < 3 => WeightedSum(prices, totals, wb, p)))
  }

  /** The normal equations over the clipped window, for both the power sums
      and the weighted sums: the least-squares system of the points
      `(prices[i], totals[i])` with `i` in the window. */
  function NormalEquations(prices: seq<real>, totals: seq<real>, imin: nat): (e: Normal)
    requires |prices| == |totals| && imin < |prices|
    ensures |e.a| == 5 && |e.b| == 3
    ensures forall p :: 0 <= p < 5 ==> e.a[p] == PowerSum(prices, Window(imin, |prices|), p)
    ensures forall p :: 0 <= p < 3 ==> e.b[p] == WeightedSum(prices, totals, Window(imin, |prices|), p)
  {
    var w := Window(imin, |prices|);
    Equations(prices, totals, w, w)
  }

  /** The normal equations as mp.py:89-91 builds them: the power sums over the
      slice `prices[imin-3:imin+4]`, the weighted sums over the clipped
      window. */
  function NormalEquationsAsWritten(prices: seq<real>, totals: seq<real>, imin: nat): (e: Normal)
    requires |prices| == |totals| && imin < |prices|
    ensures |e.a| == 5 && |e.b| == 3
    ensures forall p :: 0 <= p < 5 ==> e.a[p] == PowerSum(prices, SliceWindow(imin, |prices|), p)
    ensures forall p :: 0 <= p < 3 ==> e.b[p] == WeightedSum(prices, totals, Window(imin, |prices|), p)
  {
    Equations(prices, totals, SliceWindow(imin, |prices|), Window(imin, |prices|))
  }

  function Parabola(c0: real, c1: real, c2: real, x: real): real {
    c0 + c1 * x + c2 * x * x
  }

  /** Adding one point on the parabola keeps the weighted sum equal to the
      coefficients applied to the power sums: `w0`, `s0..s2` are the sums
      before the point `(x, y)` is added and `w1`, `t0..t2` after it. */
  lemma AccumulateStep(c0: real, c1: real, c2: real, x: real, y: real, q: real,
                       w0: real, s0: real, s1: real, s2: real,
                       w1: real, t0: real, t1: real, t2: real)
    requires y == Parabola(c0, c1, c2, x)
    requires w0 == Combine(c0, c1, c2, s0, s1, s2)
    requires w1 == w0 + y * q
    requires t0 == s0 + q && t1 == s1 + x * q && t2 == s2 + x * (x * q)
    ensures w1 == Combine(c0, c1, c2, t0, t1, t2)
  {
    assert y * q == c0 * q + c1 * (x * q) + c2 * (x * (x * q));
  }

  /** Over any set of points lying on a parabola, the weighted sums are the
      power sums combined with the parabola's coefficients. */
  lemma {:induction false} WeightedSumOnParabola(prices: seq<real>, totals: seq<real>, w: seq<nat>, p: nat,
                                                 c0: real, c1: real, c2: real)
    requires IndicesBelow(w, |prices|) && IndicesBelow(w, |totals|)
    requires forall k :: 0 <= k < |w| ==> totals[w[k]] == Parabola(c0, c1, c2, prices[w[k]])
    ensures WeightedSum(prices, totals, w, p)
         == Combine(c0, c1, c2, PowerSum(prices, w, p), PowerSum(prices, w, p + 1), PowerSum(prices, w, p + 2))
  {
    if |w| > 0 {
      var init := w[..|w| - 1];
      var i := w[|w| - 1];
      assert forall k :: 0 <= k < |init| ==> init[k] == w[k];
      WeightedSumOnParabola(prices, totals, init, p, c0, c1, c2);
      var x := prices[i];
      assert totals[i] == Parabola(c0, c1, c2, x) by { assert w[|w| - 1] == i; }
      PowSteps(x, p);
      AccumulateStep(c0, c1, c2, x, totals[i], Pow(x, p),
                     WeightedSum(prices, totals, init, p),
                     PowerSum(prices, init, p), PowerSum(prices, init, p + 1), PowerSum(prices, init, p + 2),
                     WeightedSum(prices, totals, w, p),
                     PowerSum(prices, w, p), PowerSum(prices, w, p + 1), PowerSum(prices, w, p + 2));
    }
  }

  lemma ParabolaRow(prices: seq<real>, totals: seq<real>, w: seq<nat>, r: nat,
                    c0: real, c1: real, c2: real)
    requires IndicesBelow(w, |prices|) && IndicesBelow(w, |totals|)
    requires forall k :: 0 <= k < |w| ==> totals[w[k]] == Parabola(c0, c1, c2, prices[w[k]])
    requires r < 3
    ensures SolvesRow(Equations(prices, totals, w, w), r, c0, c1, c2)
  {
    WeightedSumOnParabola(prices, totals, w, r, c0, c1, c2);
  }

  /** If the points of `w` lie exactly on a parabola, its coefficients solve
      the normal equations built over `w`. */
  lemma ParabolaSolvesEquations(prices: seq<real>, totals: seq<real>, w: seq<nat>,
                                c0: real, c1: real, c2: real)
    requires IndicesBelow(w, |prices|) && IndicesBelow(w, |totals|)
    requires forall k :: 0 <= k < |w| ==> totals[w[k]] == Parabola(c0, c1, c2, prices[w[k]])
    ensures Solves(Equations(prices, totals, w, w), c0, c1, c2)
  {
    ParabolaRow(prices, totals, w, 0, c0, c1, c2);
    ParabolaRow(prices, totals, w, 1, c0, c1, c2);
    ParabolaRow(prices, totals, w, 2, c0, c1, c2);
  }

  /** If the windowed payouts lie exactly on a parabola, its coefficients
      solve the normal equations: the fit recovers the parabola whenever the
      system has a unique solution. */
  lemma ParabolaSolvesNormalEquations(prices: seq<real>, totals: seq<real>, imin: nat,
                                      c0: real, c1: real, c2: real)
    requires |prices| == |totals| && imin < |prices|
    requires forall i :: InWindow(imin, |prices|, i) ==> totals[i] == Parabola(c0, c1, c2, prices[i])
    ensures Solves(NormalEquations(prices, totals, imin), c0, c1, c2)
  {
    var w := Window(imin, |prices|);
    assert forall k :: 0 <= k < |w| ==> InWindow(imin, |prices|, w[k]);
    ParabolaSolvesEquations(prices, totals, w, c0, c1, c2);
  }

  /** The zeroth power sum counts the points. */
  lemma {:induction false} PowerSumZero(prices: seq<real>, w: seq<nat>)
    requires IndicesBelow(w, |prices|)
    ensures PowerSum(prices, w, 0) == |w| as real
  {
    if |w| > 0 {
      PowerSumZero(prices, w[..|w| - 1]);
    }
  }

  /** With the minimum among the first three positions of a list of more than
      `3 - imin` prices, the power sums of mp.py:89 count fewer points than the
      weighted sums use: the wrapped slice leaves out the leading indices. */
  lemma AsWrittenDropsPoints(prices: seq<real>, totals: seq<real>, imin: nat)
    requires |prices| == |totals| && imin < |prices|
    requires imin < 3 < |prices| + imin
    ensures NormalEquations(prices, totals, imin).a[0] == |Window(imin, |prices|)| as real
    ensures NormalEquationsAsWritten(prices, totals, imin).a[0] < |Window(imin, |prices|)| as real
  {
    var n := |prices|;
    PowerSumZero(prices, Window(imin, n));
    PowerSumZero(prices, SliceWindow(imin, n));
  }

  /** With seven or more prices and the minimum among the first three, the
      wrapped start of the slice at mp.py:89 lies past its stop, so the slice
      is empty and every power sum is 0: the matrix of mp.py:92 is all zeros
      and has no inverse. */
  lemma AsWrittenEmptySlice(prices: seq<real>, totals: seq<real>, imin: nat)
    requires |prices| == |totals| && |prices| >= 7 && imin < 3
    ensures SliceWindow(imin, |prices|) == []
    ensures forall p :: 0 <= p < 5 ==> NormalEquationsAsWritten(prices, totals, imin).a[p] == 0.0
  {
  }

  /** The slice of mp.py:89 for the minimum at index 0 of five prices reads
      indices 2 and 3, so its power sums see only the prices 3 and 4. */
  lemma SliceSumsAtZero()
    ensures var e := NormalEquationsAsWritten([1.0, 2.0, 3.0, 4.0, 5.0], [0.0, 1.0, 4.0, 9.0, 16.0], 0);
            e.a[0] == 2.0 && e.a[1] == 7.0 && e.a[2] == 25.0
  {
    var prices := [1.0, 2.0, 3.0, 4.0, 5.0];
    var sw := SliceWindow(0, 5);
    assert sw == [2, 3];
    assert sw[..1] == [2] && sw[..1][..0] == [];
    assert PowerSum(prices, sw, 0) == 2.0;
    assert PowerSum(prices, sw, 1) == 7.0;
    assert Pow(3.0, 2) == 9.0 && Pow(4.0, 2) == 16.0;
    assert PowerSum(prices, sw, 2) == 25.0;
  }

  /** The zeroth weighted sum over the window `[0, 1, 2, 3]` of the totals
      `(x - 1)^2` at prices 1..4 is 0 + 1 + 4 + 9. */
  lemma WindowSumAtZero()
    ensures NormalEquationsAsWritten([1.0, 2.0, 3.0, 4.0, 5.0], [0.0, 1.0, 4.0, 9.0, 16.0], 0).b[0] == 14.0
  {
    var prices := [1.0, 2.0, 3.0, 4.0, 5.0];
    var totals := [0.0, 1.0, 4.0, 9.0, 16.0];
    var w := Window(0, 5);
    assert w == [0, 1, 2, 3];
    assert w[..3] == [0, 1, 2] && [0, 1, 2][..2] == [0, 1] && [0, 1][..1] == [0] && [0][..0] == [];
    assert WeightedSum(prices, totals, [0], 0) == 0.0;
    assert WeightedSum(prices, totals, [0, 1], 0) == 1.0;
    assert WeightedSum(prices, totals, [0, 1, 2], 0) == 5.0;
    assert WeightedSum(prices, totals, w, 0) == 14.0;
  }

  /** Five prices with the smallest total at the first: the totals lie on the
      parabola `(x - 1)^2`, which solves the normal equations over the
      window but not the system mp.py:89-91 builds, whose power sums see only
      the prices at indices 2 and 3. */
  lemma AsWrittenMissesParabola()
    ensures MinIndex([0.0, 1.0, 4.0, 9.0, 16.0]) == Success(0)
    ensures Solves(NormalEquations([1.0, 2.0, 3.0, 4.0, 5.0], [0.0, 1.0, 4.0, 9.0, 16.0], 0), 1.0, -2.0, 1.0)
    ensures !Solves(NormalEquationsAsWritten([1.0, 2.0, 3.0, 4.0, 5.0], [0.0, 1.0, 4.0, 9.0, 16.0], 0), 1.0, -2.0, 1.0)
  {
    var prices := [1.0, 2.0, 3.0, 4.0, 5.0];
    var totals := [0.0, 1.0, 4.0, 9.0, 16.0];
    FirstMinUnique(totals, 0);
    ParabolaSolvesNormalEquations(prices, totals, 0, 1.0, -2.0, 1.0);
    SliceSumsAtZero();
    WindowSumAtZero();
    var e := NormalEquationsAsWritten(prices, totals, 0);
    assert Combine(1.0, -2.0, 1.0, e.a[0], e.a[1], e.a[2]) == 13.0;
    assert !SolvesRow(e, 0, 1.0, -2.0, 1.0);
  }
}
