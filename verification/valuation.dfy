/** `YahooOptions._value_options` (mp.py:63-80): the candidate settlement
    prices and, at each, what call holders and put holders would be paid. */
module Valuation {
  import opened Wrappers
  import opened Errors
  import opened StrikeTable

  /** One option row: its strike and its open interest. */
  datatype Row = Row(strike: real, openInt: real)

  /** The valuation table `out['value']`. */
  datatype Profile = Profile(prices: seq<real>, calls: seq<real>, puts: seq<real>, totals: seq<real>)

  ghost predicate StrictlyIncreasing(s: seq<real>) {
    forall i, j :: 0 <= i < j < |s| ==> s[i] < s[j]
  }

  function Elements(s: seq<real>): set<real> {
    set x | x in s
  }

  // ---------------------------------------------------------------------
  // From the aggregated series to rows

  /** The number in a cell; arithmetic on a `str` raises in the source. */
  function CellNumber(c: Cell): Option<real> {
    match c
    case TextCell(_) => None
    case IntCell(n) => Some(n as real)
    case PriceCell(x) => Some(x)
  }

  /** A whole column as numbers, or `None` if any cell is text. */
  function Numbers(cells: seq<Cell>): (r: Option<seq<real>>)
    ensures r.Some? <==> forall i :: 0 <= i < |cells| ==> CellNumber(cells[i]).Some?
    ensures r.Some? ==> |r.value| == |cells|
    ensures r.Some? ==> forall i :: 0 <= i < |cells| ==> CellNumber(cells[i]) == Some(r.value[i])
  {
    if |cells| == 0 then Some([])
    else
      var init :- Numbers(cells[..|cells| - 1]);
      var x :- CellNumber(cells[|cells| - 1]);
      Some(init + [x])
  }

  /** The lookups `oc['strike']` and `oc['open int'][i]` of mp.py:64-76,
      paired row by row. */
  function LegOf(s: Series): (r: Result<seq<Row>, Error>)
    ensures r.Success? <==> && "strike" in s && "open int" in s
                            && Numbers(s["strike"]).Some? && Numbers(s["open int"]).Some?
                            && |s["strike"]| <= |s["open int"]|
    ensures r.Success? ==> |r.value| == |s["strike"]|
    ensures r.Success? ==> forall i :: 0 <= i < |r.value| ==>
                             && CellNumber(s["strike"][i]) == Some(r.value[i].strike)
                             && CellNumber(s["open int"][i]) == Some(r.value[i].openInt)
  {
    if "strike" !in s then Failure(MissingField("strike"))
    else if "open int" !in s then Failure(MissingField("open int"))
    else
      var strikes := Numbers(s["strike"]);
      var openInts := Numbers(s["open int"]);
      if strikes.None? then Failure(NotNumeric("strike"))
      else if openInts.None? then Failure(NotNumeric("open int"))
      else if |strikes.value| > |openInts.value| then Failure(ShortColumn("open int", |openInts.value|))
      else Success(seq(|strikes.value|, i requires 0 <= i < |strikes.value| =>
                         Row(strikes.value[i], openInts.value[i])))
  }

  /** A column bound under a rule other than `Str` holds only numbers, one per
      data row. */
  lemma HeldColumnNumeric(tbl: Table, n: nat, k: string, cells: seq<Cell>, parse: string -> Option<real>)
    requires |tbl| > 0 && n <= |tbl[0]|
    requires HoldsColumn(tbl, n, k, cells, parse) && RuleFor(k) != Str
    ensures Numbers(cells).Some? && |cells| == |tbl| - 1
  {
    var c := LastColumn(tbl, n, k);
    forall j | 0 <= j < |cells|
      ensures CellNumber(cells[j]).Some?
    {
      assert ParseCell(RuleFor(k), tbl[j + 1][c], parse) == Success(cells[j + 1 - 1]);
    }
  }

  /** An aggregated column whose rule is not `Str` holds only numbers, one per
      data row. */
  lemma NumericColumn(tbl: Table, parse: string -> Option<real>, k: string)
    requires Aggregate(tbl, parse).Success? && k in Aggregate(tbl, parse).value
    requires RuleFor(k) != Str
    ensures Numbers(Aggregate(tbl, parse).value[k]).Some?
    ensures |Aggregate(tbl, parse).value[k]| == |tbl| - 1
  {
    var cells := Aggregate(tbl, parse).value[k];
    assert HoldsColumn(tbl, |tbl[0]|, k, cells, parse);
    HeldColumnNumeric(tbl, |tbl[0]|, k, cells, parse);
  }

  /** A table the aggregation accepted, with a strike and an open-interest
      column, always yields rows: the two columns have the same length and hold
      numbers, so the indexing `oc['open int'][i]` never fails. */
  lemma AggregatedLeg(tbl: Table, parse: string -> Option<real>)
    requires Aggregate(tbl, parse).Success?
    requires "strike" in Aggregate(tbl, parse).value && "open int" in Aggregate(tbl, parse).value
    ensures LegOf(Aggregate(tbl, parse).value).Success?
    ensures |LegOf(Aggregate(tbl, parse).value).value| == |tbl| - 1
  {
    NumericColumn(tbl, parse, "strike");
    NumericColumn(tbl, parse, "open int");
  }

  // ---------------------------------------------------------------------
  // Candidate prices: sorted(set(call strikes) | set(put strikes))

  /** Insert `x` into a strictly increasing sequence unless it is there. */
  function Insert(s: seq<real>, x: real): (r: seq<real>)
    requires StrictlyIncreasing(s)
    ensures StrictlyIncreasing(r)
    ensures forall y :: y in r <==> y in s || y == x
  {
    if |s| == 0 then [x]
    else if x < s[0] then [x] + s
    else if x == s[0] then s
    else
      var rest := Insert(s[1..], x);
      InsertTail(s, x, rest);
      [s[0]] + rest
  }

  /** Putting the head of `s` back in front of the insertion into its tail. */
  lemma InsertTail(s: seq<real>, x: real, rest: seq<real>)
    requires StrictlyIncreasing(s) && |s| > 0 && s[0] < x
    requires StrictlyIncreasing(rest)
    requires forall y :: y in rest <==> y in s[1..] || y == x
    ensures StrictlyIncreasing([s[0]] + rest)
    ensures forall y :: y in [s[0]] + rest <==> y in s || y == x
  {
    assert forall k :: 0 <= k < |s[1..]| ==> s[0] < s[1..][k];
    assert forall k :: 0 <= k < |rest| ==> s[0] < rest[k] by {
      forall k | 0 <= k < |rest|
        ensures s[0] < rest[k]
      {
        assert rest[k] in rest;
      }
    }
    assert s == [s[0]] + s[1..];
  }

  /** `sorted(set(xs))`. */
  function SortedUnique(xs: seq<real>): (r: seq<real>)
    ensures StrictlyIncreasing(r)
    ensures forall y :: y in r <==> y in xs
  {
    if |xs| == 0 then []
    else
      var init := xs[..|xs| - 1];
      assert xs == init + [xs[|xs| - 1]];
      Insert(SortedUnique(init), xs[|xs| - 1])
  }

  /** Python's `sorted(set(...))` is the only strictly increasing listing of a
      set: any two such listings of the same elements are equal. */
  lemma {:induction false} StrictlyIncreasingUnique(a: seq<real>, b: seq<real>)
    requires StrictlyIncreasing(a) && StrictlyIncreasing(b)
    requires Elements(a) == Elements(b)
    ensures a == b
  {
    assert |a| > 0 ==> a[0] in Elements(b);
    assert |b| > 0 ==> b[0] in Elements(a);
    if |a| > 0 && |b| > 0 {
      assert a[0] == b[0];
      assert Elements(a[1..]) == Elements(a) - {a[0]};
      assert Elements(b[1..]) == Elements(b) - {b[0]};
      StrictlyIncreasingUnique(a[1..], b[1..]);
      assert a == [a[0]] + a[1..];
      assert b == [b[0]] + b[1..];
    }
  }

  function Strikes(rows: seq<Row>): (r: seq<real>)
    ensures |r| == |rows| && forall i :: 0 <= i < |rows| ==> r[i] == rows[i].strike
  {
    seq(|rows|, i requires 0 <= i < |rows| => rows[i].strike)
  }

  /** `prices` of mp.py:68. */
  function Candidates(calls: seq<Row>, puts: seq<Row>): (r: seq<real>)
    ensures StrictlyIncreasing(r)
    ensures Elements(r) == Elements(Strikes(calls)) + Elements(Strikes(puts))
  {
    var all := Strikes(calls) + Strikes(puts);
    var r := SortedUnique(all);
    assert Elements(r) == Elements(all);
    assert Elements(all) == Elements(Strikes(calls)) + Elements(Strikes(puts));
    r
  }

  // ---------------------------------------------------------------------
  // Payouts

  /** One row's share of the call payout at settlement `p` (mp.py:74): a
      strike strictly below `p` pays `(p - strike) * open interest`. */
  function CallAt(v: Row, p: real): real {
    if p > v.strike then (p - v.strike) * v.openInt else 0.0
  }

  /** One row's share of the put payout at settlement `p` (mp.py:76): a
      strike strictly above `p` pays `(strike - p) * open interest`. */
  function PutAt(v: Row, p: real): real {
    if p < v.strike then (v.strike - p) * v.openInt else 0.0
  }

  ghost predicate NonNegativeInterest(rows: seq<Row>) {
    forall i :: 0 <= i < |rows| ==> rows[i].openInt >= 0.0
  }

  /** A row with non-negative open interest pays neither side a negative
      amount. */
  lemma RowPaysNonNegative(v: Row, p: real)
    ensures v.openInt >= 0.0 ==> CallAt(v, p) >= 0.0 && PutAt(v, p) >= 0.0
  {
    if v.openInt >= 0.0 {
      if p > v.strike { MulNonNegative(p - v.strike, v.openInt); }
      if p < v.strike { MulNonNegative(v.strike - p, v.openInt); }
    }
  }

  lemma MulNonNegative(x: real, y: real)
    requires x >= 0.0 && y >= 0.0
    ensures x * y >= 0.0
  {
  }

  /** What call holders are paid at settlement `p` (mp.py:73-74); with
      non-negative open interest it is never negative. */
  function CallPayout(rows: seq<Row>, p: real): (r: real)
    ensures NonNegativeInterest(rows) ==> r >= 0.0
  {
    if |rows| == 0 then 0.0
    else
      var init, v := rows[..|rows| - 1], rows[|rows| - 1];
      assert forall i :: 0 <= i < |init| ==> init[i] == rows[i];
      RowPaysNonNegative(v, p);
      CallPayout(init, p) + CallAt(v, p)
  }

  /** What put holders are paid at settlement `p` (mp.py:75-76); with
      non-negative open interest it is never negative. */
  function PutPayout(rows: seq<Row>, p: real): (r: real)
    ensures NonNegativeInterest(rows) ==> r >= 0.0
  {
    if |rows| == 0 then 0.0
    else
      var init, v := rows[..|rows| - 1], rows[|rows| - 1];
      assert forall i :: 0 <= i < |init| ==> init[i] == rows[i];
      RowPaysNonNegative(v, p);
      PutPayout(init, p) + PutAt(v, p)
  }

  /** Only strikes strictly below the settlement price pay calls: if none is
      below, the call payout is zero. */
  lemma {:induction false} CallPayoutNoneBelow(rows: seq<Row>, p: real)
    requires forall i :: 0 <= i < |rows| ==> rows[i].strike >= p
    ensures CallPayout(rows, p) == 0.0
  {
    if |rows| > 0 {
      CallPayoutNoneBelow(rows[..|rows| - 1], p);
    }
  }

  /** Only strikes strictly above the settlement price pay puts: if none is
      above, the put payout is zero. */
  lemma {:induction false} PutPayoutNoneAbove(rows: seq<Row>, p: real)
    requires forall i :: 0 <= i < |rows| ==> rows[i].strike <= p
    ensures PutPayout(rows, p) == 0.0
  {
    if |rows| > 0 {
      PutPayoutNoneAbove(rows[..|rows| - 1], p);
    }
  }

  /** With non-negative open interest the call payout grows with the
      settlement price. */
  lemma {:induction false} CallPayoutMonotone(rows: seq<Row>, p: real, q: real)
    requires NonNegativeInterest(rows)
    requires p <= q
    ensures CallPayout(rows, p) <= CallPayout(rows, q)
  {
    if |rows| > 0 {
      var v := rows[|rows| - 1];
      CallPayoutMonotone(rows[..|rows| - 1], p, q);
      assert v.openInt >= 0.0;
      var atP, atQ := CallAt(v, p), CallAt(v, q);
      if p > v.strike {
        MulMonotone(p - v.strike, q - v.strike, v.openInt);
      } else if q > v.strike {
        MulNonNegative(q - v.strike, v.openInt);
      }
      assert atP <= atQ;
    }
  }

  /** With non-negative open interest the put payout shrinks as the
      settlement price grows. */
  lemma {:induction false} PutPayoutAntitone(rows: seq<Row>, p: real, q: real)
    requires NonNegativeInterest(rows)
    requires p <= q
    ensures PutPayout(rows, p) >= PutPayout(rows, q)
  {
    if |rows| > 0 {
      var v := rows[|rows| - 1];
      PutPayoutAntitone(rows[..|rows| - 1], p, q);
      assert v.openInt >= 0.0;
      var atP, atQ := PutAt(v, p), PutAt(v, q);
      if q < v.strike {
        MulMonotone(v.strike - q, v.strike - p, v.openInt);
      } else if p < v.strike {
        MulNonNegative(v.strike - p, v.openInt);
      }
      assert atQ <= atP;
    }
  }

  lemma MulMonotone(x: real, y: real, z: real)
    requires 0.0 <= x <= y && z >= 0.0
    ensures x * z <= y * z
  {
  }

  /** `_value_options`: the profile over the candidate prices. */
  function Value(calls: seq<Row>, puts: seq<Row>): (v: Profile)
    ensures StrictlyIncreasing(v.prices)
    ensures Elements(v.prices) == Elements(Strikes(calls)) + Elements(Strikes(puts))
    ensures |v.calls| == |v.prices| && |v.puts| == |v.prices| && |v.totals| == |v.prices|
    ensures forall k :: 0 <= k < |v.prices| ==>
              && v.calls[k] == CallPayout(calls, v.prices[k])
              && v.puts[k] == PutPayout(puts, v.prices[k])
              && v.totals[k] == v.calls[k] + v.puts[k]
  {
    var prices := Candidates(calls, puts);
    var c := seq(|prices|, k requires 0 <= k < |prices| => CallPayout(calls, prices[k]));
    var p := seq(|prices|, k requires 0 <= k < |prices| => PutPayout(puts, prices[k]));
    Profile(prices, c, p, seq(|prices|, k requires 0 <= k < |prices| => c[k] + p[k]))
  }

  /** The profile's total payout is never negative when open interest is not. */
  lemma ProfileNonNegative(calls: seq<Row>, puts: seq<Row>)
    requires NonNegativeInterest(calls) && NonNegativeInterest(puts)
    ensures var v := Value(calls, puts);
            forall k :: 0 <= k < |v.totals| ==> v.calls[k] >= 0.0 && v.puts[k] >= 0.0 && v.totals[k] >= 0.0
  {
  }

  /** At the lowest candidate price no call is in the money, and at the highest
      no put is. */
  lemma ProfileEdges(calls: seq<Row>, puts: seq<Row>)
    ensures var v := Value(calls, puts);
            |v.prices| > 0 ==> v.calls[0] == 0.0 && v.puts[|v.prices| - 1] == 0.0
  {
    var v := Value(calls, puts);
    if |v.prices| > 0 {
      var lo, hi := v.prices[0], v.prices[|v.prices| - 1];
      forall x | x in Elements(v.prices)
        ensures lo <= x <= hi
      {
        var k :| 0 <= k < |v.prices| && v.prices[k] == x;
      }
      forall i | 0 <= i < |calls|
        ensures calls[i].strike >= lo
      {
        assert Strikes(calls)[i] in Elements(Strikes(calls));
      }
      forall i | 0 <= i < |puts|
        ensures puts[i].strike <= hi
      {
        assert Strikes(puts)[i] in Elements(Strikes(puts));
      }
      CallPayoutNoneBelow(calls, lo);
      PutPayoutNoneAbove(puts, hi);
    }
  }
}

/** A worked example: two strikes on each side, computed through the model. */
module ValuationExample {
  import opened Valuation

  const ExampleCalls: seq<Row> := [Row(10.0, 5.0), Row(20.0, 2.0)]
  const ExamplePuts: seq<Row> := [Row(10.0, 1.0), Row(20.0, 4.0)]

  lemma ExamplePrices()
    ensures Candidates(ExampleCalls, ExamplePuts) == [10.0, 20.0]
  {
    var r := Candidates(ExampleCalls, ExamplePuts);
    assert Strikes(ExampleCalls) == [10.0, 20.0];
    assert Strikes(ExamplePuts) == [10.0, 20.0];
    assert Elements([10.0, 20.0]) == {10.0, 20.0};
    StrictlyIncreasingUnique(r, [10.0, 20.0]);
  }

  lemma ExamplePayouts()
    ensures CallPayout(ExampleCalls, 10.0) == 0.0 && CallPayout(ExampleCalls, 20.0) == 50.0
    ensures PutPayout(ExamplePuts, 10.0) == 40.0 && PutPayout(ExamplePuts, 20.0) == 0.0
  {
    assert ExampleCalls[..1] == [ExampleCalls[0]] && ExampleCalls[..1][..0] == [];
    assert ExamplePuts[..1] == [ExamplePuts[0]] && ExamplePuts[..1][..0] == [];
  }

  /** Calls with strikes 10 and 20 and open interest 5 and 2, puts with the
      same strikes and open interest 1 and 4: the candidates are 10 and 20,
      the totals 40 and 50. */
  lemma TwoStrikes()
    ensures Value(ExampleCalls, ExamplePuts)
         == Profile([10.0, 20.0], [0.0, 50.0], [40.0, 0.0], [40.0, 50.0])
  {
    ExamplePrices();
    ExamplePayouts();
  }
}
