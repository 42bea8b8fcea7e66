/** `YahooOptions._parse_strike_table` (mp.py:14-41): a raw table whose row 0
    is the header becomes a map from lower-cased field name to the column of
    parsed cells, one cell per data row. */
module StrikeTable {
  import opened Wrappers
  import opened Errors
  import opened Text

  /** The parse rules of `OPTFMT` (mp.py:24-29) as a closed set; `Drop` is the
      `None` entry that removes a column. */
  datatype Rule = Str | Int | Price | Drop

  /** A parsed cell: `str`, the `int` of `fmt_int` or the `float` of `fmt_price`. */
  datatype Cell = TextCell(text: string) | IntCell(n: int) | PriceCell(x: real)

  type Table = seq<seq<string>>
  type Series = map<string, seq<Cell>>

  /** The rule a lower-cased field name gets; unlisted fields are prices. */
  function RuleFor(key: string): (r: Rule)
    ensures r == Str <==> key == "symbol"
    ensures r == Drop <==> key == "chg"
    ensures r == Int <==> key == "vol" || key == "open int"
  {
    if key == "symbol" then Str
    else if key == "chg" then Drop
    else if key == "vol" || key == "open int" then Int
    else Price
  }

  /** One cell through one rule. Only the integer rule can fail. */
  function ParseCell(rule: Rule, s: string, parse: string -> Option<real>): (r: Result<Cell, Error>)
    requires rule != Drop
    ensures r.Failure? <==> rule == Int && !WellFormedInt(StripCommas(s))
    ensures r.Success? ==> match rule
                           case Str => r.value.TextCell?
                           case Int => r.value.IntCell?
                           case Price => r.value.PriceCell?
                           case Drop => false
    ensures rule == Str ==> r == Success(TextCell(s))
    ensures rule == Int && r.Success? ==> FmtInt(s) == Success(r.value.n)
    ensures rule == Price ==> r == Success(PriceCell(FmtPrice(parse, s)))
  {
    match rule
    case Str => Success(TextCell(s))
    case Int =>
      var n :- FmtInt(s);
      Success(IntCell(n))
    case Price => Success(PriceCell(FmtPrice(parse, s)))
  }

  /** Every data row has a cell at `col` and that cell parses. */
  ghost predicate ColumnParses(rows: Table, col: nat, rule: Rule, parse: string -> Option<real>)
    requires rule != Drop
  {
    forall j :: 0 <= j < |rows| ==> col < |rows[j]| && ParseCell(rule, rows[j][col], parse).Success?
  }

  /** The inner loop (mp.py:38-40) over the data rows `rows` = `tbl[1:]`, in
      row order: the first row that is too short or does not parse raises. */
  function ParseColumn(rows: Table, col: nat, rule: Rule, parse: string -> Option<real>): (r: Result<seq<Cell>, Error>)
    requires rule != Drop
    ensures r.Success? <==> ColumnParses(rows, col, rule, parse)
    ensures r.Success? ==> |r.value| == |rows|
    ensures r.Success? ==> forall j :: 0 <= j < |rows| ==>
                             col < |rows[j]| && ParseCell(rule, rows[j][col], parse) == Success(r.value[j])
  {
    if |rows| == 0 then Success([])
    else
      var last := rows[|rows| - 1];
      var init :- ParseColumn(rows[..|rows| - 1], col, rule, parse);
      if col >= |last| then Failure(ShortRow(|rows|, col))
      else
        var c :- ParseCell(rule, last[col], parse);
        Success(init + [c])
  }

  /** The field key of column `i`: its header cell, lower-cased letter by
      letter. */
  function Key(tbl: Table, i: nat): (k: string)
    requires |tbl| > 0 && i < |tbl[0]|
    ensures |k| == |tbl[0][i]|
    ensures forall j :: 0 <= j < |k| ==> k[j] == LowerChar(tbl[0][i][j])
  {
    Lower(tbl[0][i])
  }

  /** The keys the first `n` header cells contribute: every lower-cased name
      other than `chg`. */
  ghost function IncludedKeys(tbl: Table, n: nat): set<string>
    requires |tbl| > 0 && n <= |tbl[0]|
  {
    set i | 0 <= i < n && Key(tbl, i) != "chg" :: Key(tbl, i)
  }

  /** Every included column among the first `n` parses in full. */
  ghost predicate ColumnsParse(tbl: Table, n: nat, parse: string -> Option<real>)
    requires |tbl| > 0 && n <= |tbl[0]|
  {
    forall i :: 0 <= i < n && RuleFor(Key(tbl, i)) != Drop ==>
      ColumnParses(tbl[1..], i, RuleFor(Key(tbl, i)), parse)
  }

  /** The last of the first `n` columns whose key is `k`, or -1; a later column
      with the same lower-cased name replaces an earlier one in the map. */
  function LastColumn(tbl: Table, n: nat, k: string): (c: int)
    requires |tbl| > 0 && n <= |tbl[0]|
    ensures -1 <= c < n
    ensures c >= 0 ==> Key(tbl, c) == k
    ensures forall i :: c < i < n ==> Key(tbl, i) != k
  {
    if n == 0 then -1
    else if Key(tbl, n - 1) == k then n - 1
    else LastColumn(tbl, n - 1, k)
  }

  /** `cells` is the column of field `k`: one entry per data row, entry `j-1`
      parsed from row `j` at the last column named `k`. */
  ghost predicate HoldsColumn(tbl: Table, n: nat, k: string, cells: seq<Cell>, parse: string -> Option<real>)
    requires |tbl| > 0 && n <= |tbl[0]|
  {
    var c := LastColumn(tbl, n, k);
    && 0 <= c
    && RuleFor(k) != Drop
    && |cells| == |tbl| - 1
    && forall j :: 1 <= j < |tbl| ==>
         c < |tbl[j]| && ParseCell(RuleFor(k), tbl[j][c], parse) == Success(cells[j - 1])
  }

  /** The outer loop (mp.py:32-40) after its first `n` iterations. */
  function AggregateColumns(tbl: Table, n: nat, parse: string -> Option<real>): (r: Result<Series, Error>)
    requires |tbl| > 0 && n <= |tbl[0]|
    ensures r.Success? <==> ColumnsParse(tbl, n, parse)
    ensures r.Success? ==> r.value.Keys == IncludedKeys(tbl, n)
    ensures r.Success? ==> forall k :: k in r.value ==> HoldsColumn(tbl, n, k, r.value[k], parse)
  {
    if n == 0 then Success(map[])
    else
      ColumnsParseStep(tbl, n, parse);
      IncludedKeysStep(tbl, n);
      var prev :- AggregateColumns(tbl, n - 1, parse);
      var key := Key(tbl, n - 1);
      var rule := RuleFor(key);
      if rule == Drop then
        HoldsAfterDrop(tbl, n, prev, parse);
        Success(prev)
      else
        var col :- ParseColumn(tbl[1..], n - 1, rule, parse);
        HoldsAfterUpdate(tbl, n, prev, col, parse);
        Success(prev[key := col])
  }

  lemma ColumnsParseStep(tbl: Table, n: nat, parse: string -> Option<real>)
    requires |tbl| > 0 && 0 < n <= |tbl[0]|
    ensures ColumnsParse(tbl, n, parse)
        <==> && ColumnsParse(tbl, n - 1, parse)
             && (RuleFor(Key(tbl, n - 1)) != Drop ==>
                   ColumnParses(tbl[1..], n - 1, RuleFor(Key(tbl, n - 1)), parse))
  {
  }

  lemma IncludedKeysStep(tbl: Table, n: nat)
    requires |tbl| > 0 && 0 < n <= |tbl[0]|
    ensures IncludedKeys(tbl, n)
         == IncludedKeys(tbl, n - 1) + (if Key(tbl, n - 1) != "chg" then {Key(tbl, n - 1)} else {})
  {
  }

  /** A dropped column leaves every existing field bound where it was. */
  lemma HoldsAfterDrop(tbl: Table, n: nat, prev: Series, parse: string -> Option<real>)
    requires |tbl| > 0 && 0 < n <= |tbl[0]|
    requires Key(tbl, n - 1) == "chg"
    requires prev.Keys == IncludedKeys(tbl, n - 1)
    requires forall k :: k in prev ==> HoldsColumn(tbl, n - 1, k, prev[k], parse)
    ensures forall k :: k in prev ==> HoldsColumn(tbl, n, k, prev[k], parse)
  {
    forall k | k in prev
      ensures HoldsColumn(tbl, n, k, prev[k], parse)
    {
      assert k != "chg";
      assert LastColumn(tbl, n, k) == LastColumn(tbl, n - 1, k);
    }
  }

  /** An included column binds its own key and leaves the others alone. */
  lemma HoldsAfterUpdate(tbl: Table, n: nat, prev: Series, col: seq<Cell>, parse: string -> Option<real>)
    requires |tbl| > 0 && 0 < n <= |tbl[0]|
    requires RuleFor(Key(tbl, n - 1)) != Drop
    requires ParseColumn(tbl[1..], n - 1, RuleFor(Key(tbl, n - 1)), parse) == Success(col)
    requires forall k :: k in prev ==> HoldsColumn(tbl, n - 1, k, prev[k], parse)
    ensures var m := prev[Key(tbl, n - 1) := col];
            forall k :: k in m ==> HoldsColumn(tbl, n, k, m[k], parse)
  {
    var key := Key(tbl, n - 1);
    var m := prev[key := col];
    forall k | k in m
      ensures HoldsColumn(tbl, n, k, m[k], parse)
    {
      if k == key {
        assert LastColumn(tbl, n, k) == n - 1;
        forall j | 1 <= j < |tbl|
          ensures n - 1 < |tbl[j]| && ParseCell(RuleFor(k), tbl[j][n - 1], parse) == Success(col[j - 1])
        {
          assert tbl[1..][j - 1] == tbl[j];
        }
      } else {
        assert LastColumn(tbl, n, k) == LastColumn(tbl, n - 1, k);
      }
    }
  }

  /** One step of the aggregation when column n-1 is included: the map so far
      gains (or rebinds) that column's key. */
  lemma AggregateStepKeep(tbl: Table, n: nat, parse: string -> Option<real>, prev: Series, key: string, col: seq<Cell>)
    requires |tbl| > 0 && 0 < n <= |tbl[0]|
    requires AggregateColumns(tbl, n - 1, parse) == Success(prev)
    requires Key(tbl, n - 1) == key && RuleFor(key) != Drop
    requires ParseColumn(tbl[1..], n - 1, RuleFor(key), parse) == Success(col)
    ensures AggregateColumns(tbl, n, parse) == Success(prev[key := col])
  {
  }

  /** One step of the aggregation when column n-1 is `chg`: nothing changes. */
  lemma AggregateStepDrop(tbl: Table, n: nat, parse: string -> Option<real>, prev: Series)
    requires |tbl| > 0 && 0 < n <= |tbl[0]|
    requires AggregateColumns(tbl, n - 1, parse) == Success(prev)
    requires RuleFor(Key(tbl, n - 1)) == Drop
    ensures AggregateColumns(tbl, n, parse) == Success(prev)
  {
  }

  /** `_parse_strike_table(tbl)`: a table without a header row raises; otherwise
      the result holds, for each lower-cased header name other than `chg`, the
      column of cells parsed by that field's rule, aligned row by row. */
  function Aggregate(tbl: Table, parse: string -> Option<real>): (r: Result<Series, Error>)
    ensures |tbl| == 0 ==> r == Failure(EmptyTable)
    ensures |tbl| > 0 ==> (r.Success? <==> ColumnsParse(tbl, |tbl[0]|, parse))
    ensures r.Success? ==> r.value.Keys == IncludedKeys(tbl, |tbl[0]|)
    ensures r.Success? ==> forall k :: k in r.value ==> HoldsColumn(tbl, |tbl[0]|, k, r.value[k], parse)
  {
    if |tbl| == 0 then Failure(EmptyTable)
    else AggregateColumns(tbl, |tbl[0]|, parse)
  }
}

/** Checks of the aggregation against a table shaped like the ones the source
    reads. */
module StrikeTableExamples {
  import opened Wrappers
  import opened Errors
  import opened Text
  import opened StrikeTable

  /** A decimal parser that knows a few texts, standing in for `float()`. */
  function SomePrices(s: string): Option<real> {
    if s == "12.50" then Some(12.5) else if s == "1.05" then Some(1.05) else None
  }

  const Chain: Table := [["Strike", "Chg", "Open Int", "Bid"],
                         ["12.50", "n/a", "1,204", "N/A"]]

  lemma ChainKeys()
    ensures Key(Chain, 0) == "strike" && Key(Chain, 1) == "chg"
    ensures Key(Chain, 2) == "open int" && Key(Chain, 3) == "bid"
  {
  }

  lemma ChainInteger()
    ensures FmtInt("1,204") == Success(1204)
  {
    GroupedRoundTrip(1204);
    assert Pad3(204) == "204";
    assert Decimal(1) == "1";
    assert Grouped(1204) == "1,204";
  }

  lemma ChainStrikeColumn()
    ensures ParseColumn(Chain[1..], 0, Price, SomePrices) == Success([PriceCell(12.5)])
  {
    var rows := Chain[1..];
    assert rows[..0] == [];
    assert ParseColumn(rows[..0], 0, Price, SomePrices) == Success([]);
    assert rows[|rows| - 1][0] == "12.50";
    assert StripCommas("12.50") == "12.50";
    assert ParseCell(Price, "12.50", SomePrices) == Success(PriceCell(12.5));
    assert [] + [PriceCell(12.5)] == [PriceCell(12.5)];
  }

  lemma ChainOpenIntColumn()
    ensures ParseColumn(Chain[1..], 2, Int, SomePrices) == Success([IntCell(1204)])
  {
    var rows := Chain[1..];
    assert rows[..0] == [];
    assert ParseColumn(rows[..0], 2, Int, SomePrices) == Success([]);
    assert rows[|rows| - 1][2] == "1,204";
    ChainInteger();
    assert ParseCell(Int, "1,204", SomePrices) == Success(IntCell(1204));
    assert [] + [IntCell(1204)] == [IntCell(1204)];
  }

  lemma ChainBidColumn()
    ensures ParseColumn(Chain[1..], 3, Price, SomePrices) == Success([PriceCell(0.0)])
  {
    var rows := Chain[1..];
    assert rows[..0] == [];
    assert ParseColumn(rows[..0], 3, Price, SomePrices) == Success([]);
    assert rows[|rows| - 1][3] == "N/A";
    assert StripCommas("N/A") == "N/A";
    assert ParseCell(Price, "N/A", SomePrices) == Success(PriceCell(0.0));
    assert [] + [PriceCell(0.0)] == [PriceCell(0.0)];
  }

  lemma ChainFirstOne()
    ensures AggregateColumns(Chain, 1, SomePrices) == Success(map["strike" := [PriceCell(12.5)]])
  {
    ChainKeys();
    ChainStrikeColumn();
    assert AggregateColumns(Chain, 0, SomePrices) == Success(map[]);
    AggregateStepKeep(Chain, 1, SomePrices, map[], "strike", [PriceCell(12.5)]);
  }

  lemma ChainFirstTwo()
    ensures AggregateColumns(Chain, 2, SomePrices) == Success(map["strike" := [PriceCell(12.5)]])
  {
    ChainKeys();
    ChainFirstOne();
    AggregateStepDrop(Chain, 2, SomePrices, map["strike" := [PriceCell(12.5)]]);
  }

  lemma ChainFirstThree()
    ensures AggregateColumns(Chain, 3, SomePrices)
         == Success(map["strike" := [PriceCell(12.5)], "open int" := [IntCell(1204)]])
  {
    ChainKeys();
    ChainFirstTwo();
    ChainOpenIntColumn();
    AggregateStepKeep(Chain, 3, SomePrices, map["strike" := [PriceCell(12.5)]], "open int", [IntCell(1204)]);
  }

  lemma ChainAll()
    ensures AggregateColumns(Chain, 4, SomePrices)
         == Success(map["strike" := [PriceCell(12.5)], "open int" := [IntCell(1204)], "bid" := [PriceCell(0.0)]])
  {
    var prev := map["strike" := [PriceCell(12.5)], "open int" := [IntCell(1204)]];
    assert RuleFor("bid") == Price;
    assert Key(Chain, 3) == "bid" by { ChainKeys(); }
    assert ParseColumn(Chain[1..], 3, Price, SomePrices) == Success([PriceCell(0.0)]) by { ChainBidColumn(); }
    assert AggregateColumns(Chain, 3, SomePrices) == Success(prev) by { ChainFirstThree(); }
    AggregateStepKeep(Chain, 4, SomePrices, prev, "bid", [PriceCell(0.0)]);
  }

  /** An option-chain header: `Chg` disappears, `Open Int` becomes `open int`
      and goes through the integer rule, the comma-grouped open interest
      parses, and a price the parser rejects reads as 0.0. */
  lemma ChainHeader()
    ensures Aggregate(Chain, SomePrices)
         == Success(map["strike" := [PriceCell(12.5)], "open int" := [IntCell(1204)], "bid" := [PriceCell(0.0)]])
  {
    ChainAll();
    assert |Chain[0]| == 4;
  }
}
