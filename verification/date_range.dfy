/** `getDateRange` (mp.py:174-184): the (month, year) pairs of the current
    month and the `months` months after it. The current date is a parameter
    instead of `date.today()`. */
module DateRange {

  /** A calendar month as a single count: `12 * year + month`. */
  function MonthIndex(month: int, year: int): int {
    12 * year + month
  }

  /** Two months in 1..12 with the same count are the same (month, year). */
  lemma MonthIndexInjective(m: int, y: int, m': int, y': int)
    requires 1 <= m <= 12 && 1 <= m' <= 12
    requires MonthIndex(m, y) == MonthIndex(m', y')
    ensures m == m' && y == y'
  {
  }

  /** The pair for offset `dm` as the loop body computes it. Python's `%` and
      `//` agree with Dafny's here because `m0 + dm` is positive. */
  function MonthAfter(m0: int, y0: int, dm: nat): (r: (int, int))
    requires 1 <= m0 <= 12
    ensures 1 <= r.0 <= 12
    ensures MonthIndex(r.0, r.1) == MonthIndex(m0, y0) + dm
  {
    var mm := (m0 + dm) % 12;
    var yy := y0 + (m0 + dm) / 12;
    if mm == 0 then (12, yy - 1) else (mm, yy)
  }

  /** The calendar's own successor: December rolls over into January. */
  function NextMonth(m: int, y: int): (int, int) {
    if m == 12 then (1, y + 1) else (m + 1, y)
  }

  /** The modular arithmetic with its `mm == 0` fix-up walks the calendar one
      month at a time, starting at the start month itself. */
  lemma MonthAfterSteps(m0: int, y0: int, dm: nat)
    requires 1 <= m0 <= 12
    ensures MonthAfter(m0, y0, 0) == (m0, y0)
    ensures MonthAfter(m0, y0, dm + 1) == NextMonth(MonthAfter(m0, y0, dm).0, MonthAfter(m0, y0, dm).1)
  {
    var a := MonthAfter(m0, y0, 0);
    MonthIndexInjective(a.0, a.1, m0, y0);
    var b := MonthAfter(m0, y0, dm);
    var c := MonthAfter(m0, y0, dm + 1);
    var n := NextMonth(b.0, b.1);
    MonthIndexInjective(c.0, c.1, n.0, n.1);
  }

  /** `getDateRange(months)` with today's month and year given: `months + 1`
      pairs (none when `months` is negative), entry `dm` lying exactly `dm`
      months after the start, every month in 1..12. */
  method GetDateRange(m0: int, y0: int, months: int) returns (out: seq<(int, int)>)
    requires 1 <= m0 <= 12
    ensures |out| == if months < 0 then 0 else months + 1
    ensures forall dm :: 0 <= dm < |out| ==>
              1 <= out[dm].0 <= 12 && MonthIndex(out[dm].0, out[dm].1) == MonthIndex(m0, y0) + dm
    ensures forall dm :: 0 <= dm < |out| ==> out[dm] == MonthAfter(m0, y0, dm)
  {
    out := [];
    var dm := 0;
    while dm < months + 1
      invariant dm == 0 || dm <= months + 1
      invariant |out| == dm
      invariant forall k :: 0 <= k < dm ==>
                  1 <= out[k].0 <= 12 && MonthIndex(out[k].0, out[k].1) == MonthIndex(m0, y0) + k
      invariant forall k :: 0 <= k < dm ==> out[k] == MonthAfter(m0, y0, k)
    {
      var mm := (m0 + dm) % 12;
      var yy := y0 + (m0 + dm) / 12;
      if mm == 0 {
        mm := 12;
        yy := yy - 1;
      }
      out := out + [(mm, yy)];
      dm := dm + 1;
    }
  }
}
