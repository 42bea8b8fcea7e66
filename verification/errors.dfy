/** The ways the modelled steps of one fetch unit can fail. In the source each
    of them is a Python exception that the catch-all of `YahooOptions.get`
    turns into "no max pain", as it does every failure of the steps the model
    leaves out (reading the page, `_parse_html`, the matrix inverse). */
module Errors {

  datatype Error =
    | EmptyTable                             // `tbl[0]` on a table without rows
    | ShortRow(row: nat, column: nat)        // `tbl[j][i]` past the end of row j
    | ShortColumn(name: string, index: nat)  // `oc[name][i]` past the end of that column
    | BadInteger(text: string)               // `int(...)` rejected the text
    | MissingField(name: string)             // `out['calls']['strike']` and friends
    | NotNumeric(name: string)               // arithmetic on a string cell
    | NoCandidates                           // `min(totals)` of an empty list
}
