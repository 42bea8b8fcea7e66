# pymaxpain core in Dafny

The model covers the core of `mp.py`. That file estimates the "max pain" price of an option chain: the settlement price at which option holders, taken together, would be paid the least. Four pure, sequential pieces are modelled:

- **Strike-table aggregation** (`YahooOptions._parse_strike_table`, module `StrikeTable`). A raw table has row 0 as its header. It becomes a map from lower-cased field name to a column of parsed cells. The per-field rules of `OPTFMT` form a closed datatype `Str | Int | Price | Drop`. The cell parsers `fmt_int` and `fmt_price` are in module `Text`.
- **Valuation profile** (`YahooOptions._value_options`, module `Valuation`). The candidate prices are the sorted, de-duplicated union of call and put strikes. At each candidate price the model computes the call payout, the put payout and their total.
- **Max-pain window** (the discrete part of `YahooOptions._max_gain`, module `MaxPain`). This covers the first index of the smallest total, the clipped seven-index window around it, and the power sums that make up the normal equations of the quadratic fit.
- **Month range** (`getDateRange`, module `DateRange`). It produces `months + 1` (month, year) pairs. The start month and year are parameters instead of `date.today()`.

Module `Chain` chains the valuation and the window the way `YahooOptions.get` does once the page has been parsed, with the corrected normal equations (see "## Findings"). `Wrappers` holds `Option`/`Result`. `Errors` lists the failures of the modelled steps; the source's catch-all turns each of them, and every failure of the left-out parts, into "no max pain".

Two parts of the model are parameters or exact values:
- Prices are exact `real`s.
- Python's `float()` is a parameter `parse: string -> Option<real>`. `fmt_price` returns 0.0 wherever `parse` rejects the text.

Python's `int()` is modelled concretely: an optional sign followed by ASCII digits.

Three choices follow the code exactly:
- The minimum is the FIRST minimal index (`totals.index(min(totals))`).
- When two header cells lower-case to the same name, the later column replaces the earlier one in the map.
- `chg` is the only dropped field.

## Model

| member | source | states |
|---|---|---|
| `Text.StripCommas` | mp.py:22 | removing thousands separators leaves no comma and never lengthens the text |
| `Text.ParseInt` | mp.py:22 | `int()` succeeds exactly on an optional sign followed by at least one digit, and otherwise raises with the offending text |
| `Text.FmtInt` | mp.py:21-22 | the integer rule succeeds exactly when the comma-free text is a well-formed integer |
| `Text.GroupDigitsStripped` | mp.py:22 | removing the separators from a comma-grouped number leaves exactly its plain decimal digits |
| `Text.GroupedRoundTrip` | mp.py:21-22 | for every integer n, `fmt_int` of its comma-grouped form is n |
| `Text.FmtPrice` | mp.py:15-19 | the price rule never fails: it is the parser's value of the comma-free text, or 0.0 when the parser rejects it |
| `Text.FmtPriceIgnoresCommas` | mp.py:15-19 | a text and its comma-free form give the same price |
| `Text.GroupedPrice` | mp.py:15-19 | a comma-grouped whole number reads as that number under any parser that reads plain digits correctly |
| `Text.Lower` | mp.py:33 | the header key has the header's length; each ASCII capital becomes its lower-case letter (code point + 32) and every other character is kept |
| `Text.LowerIdempotent` | mp.py:33 | lower-casing a key again changes nothing |
| `StrikeTable.RuleFor` | mp.py:24-37 | the `OPTFMT` lookup: `symbol` is kept as text, `chg` is dropped, `vol` and `open int` are integers, and every other field is a price |
| `StrikeTable.Key` | mp.py:33 | a column's key is its header cell lower-cased character by character, of the same length |
| `StrikeTable.ParseCell` | mp.py:24-37 | `symbol` keeps its text; `vol`/`open int` hold `fmt_int`'s value and fail exactly when the comma-free text is not an integer; any other field holds `fmt_price`'s value and never fails |
| `StrikeTable.ParseColumn` | mp.py:38-40 | a column parses iff every data row has a cell there that parses; the result has one cell per row, entry j coming from row j |
| `StrikeTable.LastColumn` | mp.py:32-38 | the column a key ends up bound to is the last header cell with that lower-cased name |
| `StrikeTable.AggregateColumns` | mp.py:32-40 | after n columns: success iff every non-`chg` column so far parses; keys are the lower-cased non-`chg` headers; each key's list is row-aligned with its source column |
| `StrikeTable.Aggregate` | mp.py:14-41 | an empty table raises; otherwise success iff every included column parses; keys are exactly the lower-cased headers other than `chg`; every list has `len(tbl)-1` entries, entry j-1 parsed from row j under the field's rule |
| `StrikeTableExamples.ChainHeader` | mp.py:24-40 | on an option-chain header, `Chg` disappears, `Open Int` becomes `open int` with `1,204` read as 1204, and an unparseable price reads as 0.0 |
| `Valuation.Numbers` | mp.py:73-76 | a column is numeric iff no cell is text, and then the numbers line up with the cells |
| `Valuation.LegOf` | mp.py:64-76 | rows exist iff both `strike` and `open int` are present and numeric with enough open-interest entries; row i pairs strike i with open interest i |
| `Valuation.NumericColumn` | mp.py:24-40 | an aggregated non-`symbol` column holds one number per data row |
| `Valuation.AggregatedLeg` | mp.py:73-76 | for an aggregated table with strike and open-interest columns, the row lookups never fail and give one row per data row |
| `Valuation.Insert` | mp.py:68 | inserting into a strictly increasing list keeps it strictly increasing and adds exactly the new element |
| `Valuation.SortedUnique` | mp.py:68 | `sorted(set(xs))` is strictly increasing with the same elements as xs |
| `Valuation.StrictlyIncreasingUnique` | mp.py:68 | two strictly increasing lists with the same elements are equal, so the candidate list is the unique sorted de-duplicated union |
| `Valuation.Candidates` | mp.py:68 | candidate prices are strictly ascending and, as a set, the union of call and put strikes |
| `Valuation.Value` | mp.py:63-80 | prices are strictly ascending and equal the strike union as a set; calls, puts and totals align with prices; totals are call payout plus put payout at each price |
| `Valuation.CallPayout` | mp.py:73-74 | with non-negative open interest the call payout `sum((P - strike) * open int)` over strikes strictly below P is never negative |
| `Valuation.PutPayout` | mp.py:75-76 | with non-negative open interest the put payout `sum((strike - P) * open int)` over strikes strictly above P is never negative |
| `Valuation.CallPayoutNoneBelow` | mp.py:73-74 | only strikes strictly below P pay calls: with none below, the call payout is 0 |
| `Valuation.PutPayoutNoneAbove` | mp.py:75-76 | only strikes strictly above P pay puts: with none above, the put payout is 0 |
| `Valuation.CallPayoutMonotone` | mp.py:73-74 | with non-negative open interest, the call payout does not decrease as P grows |
| `Valuation.PutPayoutAntitone` | mp.py:75-76 | with non-negative open interest, the put payout does not increase as P grows |
| `Valuation.ProfileNonNegative` | mp.py:72-79 | with non-negative open interest, every call, put and total entry of the profile is non-negative |
| `Valuation.ProfileEdges` | mp.py:72-79 | the call payout at the lowest candidate and the put payout at the highest are 0 |
| `ValuationExample.TwoStrikes` | mp.py:63-80 | calls at 10/20 with open interest 5/2 and puts at 10/20 with 1/4 give prices [10, 20], calls [0, 50], puts [40, 0], totals [40, 50] |
| `MaxPain.Min` | mp.py:86 | `min(totals)` is an element no greater than any other |
| `MaxPain.IndexOf` | mp.py:86 | `list.index(x)` is the first position holding x |
| `MaxPain.MinIndex` | mp.py:86 | an empty totals list raises; otherwise `imin` is the first position of a smallest total |
| `MaxPain.FirstMinUnique` | mp.py:86 | any first position of a smallest total is what `MinIndex` returns |
| `MaxPain.Window` | mp.py:87-91 | the window holds exactly the indices i with `imin-3 <= i < imin+4` valid in the list, ascending, at most 7, including imin |
| `MaxPain.SliceWindow` | mp.py:89 | `prices[imin-3:imin+4]` reads consecutive indices: exactly the valid i below imin+4 from imin-3 on, or, when imin-3 is negative, from len+imin-3 on |
| `MaxPain.SliceWindowAgreement` | mp.py:87-91 | the slice of line 89 equals the clipped window iff `imin >= 3` or `len + imin <= 3` |
| `MaxPain.NormalEquations` | mp.py:89-91 | the corrected system: power sums of degree 0..4 and weighted sums of degree 0..2, both over the clipped window |
| `MaxPain.NormalEquationsAsWritten` | mp.py:89-91 | the system as written: power sums over the slice of line 89, weighted sums over the clipped window of lines 90-91 |
| `MaxPain.WeightedSumOnParabola` | mp.py:90-91 | over points on a parabola, each weighted sum is the parabola's coefficients applied to three consecutive power sums |
| `MaxPain.ParabolaSolvesEquations` | mp.py:89-93 | points on a parabola satisfy all three rows of the normal equations built over them |
| `MaxPain.ParabolaSolvesNormalEquations` | mp.py:89-93 | if the windowed totals lie on a parabola, its coefficients solve the normal equations over the clipped window |
| `MaxPain.PowerSumZero` | mp.py:89 | the zeroth power sum is the number of points |
| `MaxPain.AsWrittenDropsPoints` | mp.py:87-91 | with `imin < 3 < len + imin`, the power sums of line 89 count fewer points than the window that lines 90-91 sum over |
| `MaxPain.AsWrittenEmptySlice` | mp.py:89 | with at least 7 prices and `imin < 3`, the slice `prices[imin-3:imin+4]` is empty and all five power sums of the as-written system are 0 |
| `MaxPain.AsWrittenMissesParabola` | mp.py:86-93 | for totals (x-1)^2 at prices 1..5, imin is 0 and the parabola solves the clipped system but not the system as written |
| `Chain.Analyze` | mp.py:63-91 | fails exactly when a leg lacks usable strike/open-interest columns or both legs are empty; otherwise imin is the first minimum of the profile's totals, the window is exactly the clipped index range around it, and the equations are the corrected system of the Findings row |
| `ChainExample.TwoStrikesMinimum` | mp.py:86-88 | in the two-strike example the smallest total is at the first candidate, price 10, and the window holds both candidates |
| `DateRange.MonthAfter` | mp.py:178-183 | the pair for offset dm has a month in 1..12 and lies exactly dm months after the start |
| `DateRange.MonthAfterSteps` | mp.py:177-183 | offset 0 is the start month, and each next offset is the calendar's next month (December rolls into January of the next year) |
| `DateRange.GetDateRange` | mp.py:174-184 | returns `months+1` pairs (none for negative months); entry dm is `MonthAfter(start, dm)`: month in 1..12 and `12*yy+mm == 12*startYear+startMonth+dm` |

## Findings

| source | as written | input that shows it | evidently intended | confidence | as-written member | corrected member |
|---|---|---|---|---|---|---|
| mp.py:89 | power sums taken over `prices[imin-3:imin+4]`; for `imin < 3` the negative start counts from the end of the list | five candidate prices with the smallest total at index 0: the slice reads indices 2..3 while the right-hand sums of mp.py:90-91 use 0..3 | power sums over the same clipped window `max(0, imin-3) <= i < imin+4` as mp.py:90-91 | high; not executed | `MaxPain.AsWrittenMissesParabola` | `MaxPain.ParabolaSolvesNormalEquations` |

`MaxPain.NormalEquationsAsWritten` models lines 89-91 as written. `MaxPain.NormalEquations` is the corrected system, and `Chain.Analyze` uses it. With seven or more candidate prices and the minimum among the first three, the slice is empty (`MaxPain.AsWrittenEmptySlice`), so the matrix of mp.py:92 is all zeros and the source's inverse fails; such a chain ends in "no max pain".

## Left out

- The least-squares solve: the matrix inverse, the product and the vertex `-C[1]/(2*C[2])` (mp.py:92-97). This is floating-point linear algebra through numpy. The model stops at the normal equations, and the singular-matrix failure is not modelled.
- The HTTP fetch and the catch-all `try`/`except` of `YahooOptions.get` (mp.py:100-119). They are network I/O. The exceptions the model can raise are listed in `Errors`.
- `YahooOptions._parse_html` (mp.py:43-61). It depends on `lib.html.HTMLTableParser`, which is not part of this model, on fixed table ids and on character offsets into scraped text.
- Threads and the bounded semaphore in `async_get`, `do3` and `do4` (mp.py:121-142, 187-244). They are concurrency.
- The printing and formatting helpers `dumphtml`, `fmt_ptable`, `ptable` and `dump` (mp.py:144-169), and the wrappers `do` and `do5`. They are output and command-line glue.
- Floating point: every value is an exact `real`, so rounding, NaN and infinities are not modelled. Python's `float()` is the abstract parameter `parse`.
- Text.Lower: models `str.lower()` on ASCII letters only. Headers outside ASCII keep their case.
- Text.ParseInt: Python's `int()` also accepts surrounding whitespace, underscores between digits and non-ASCII digits. The model rejects them.
- Valuation.LegOf: fails whenever `open int` is missing, non-numeric or shorter than `strike`. The source only raises when an in-the-money row's open interest is actually read (mp.py:73-76). `Valuation.AggregatedLeg` shows that the two agree for every accepted table that has both a `Strike` and an `Open Int` column.
- Chain.Analyze: the source's error precedence (which missing key raises first) is not distinguished. Every error leads to the same "no max pain" outcome.
