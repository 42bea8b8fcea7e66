/** The data path of `YahooOptions.get` once the page has been parsed:
    `_value_options` over the calls and puts series, then the discrete part of
    `_max_gain`. The fetch, the HTML parsing and the least-squares solve are
    not part of this model. */
module Chain {
  import opened Wrappers
  import opened Errors
  import opened StrikeTable
  import opened Valuation
  import opened MaxPain

  /** What the model computes for one option chain: the valuation profile,
      the index of its first minimum, the window around it and the normal
      equations of the fit over that window. */
  datatype Analysis = Analysis(profile: Profile, imin: nat, window: seq<nat>, equations: Normal)

  /** Fails exactly when a leg lacks usable strike or open-interest columns,
      or when neither leg has a row (then `min(totals)` raises). */
  function Analyze(calls: Series, puts: Series): (r: Result<Analysis, Error>)
    ensures r.Success? <==> && LegOf(calls).Success? && LegOf(puts).Success?
                            && |LegOf(calls).value| + |LegOf(puts).value| > 0
    ensures r.Success? ==> r.value.profile == Value(LegOf(calls).value, LegOf(puts).value)
    ensures r.Success? ==> IsFirstMin(r.value.profile.totals, r.value.imin)
    ensures r.Success? ==> forall i :: InWindow(r.value.imin, |r.value.profile.prices|, i) ==> i in r.value.window
    ensures r.Success? ==> forall k :: 0 <= k < |r.value.window| ==>
                             InWindow(r.value.imin, |r.value.profile.prices|, r.value.window[k])
    // The corrected system over the clipped window, not the one mp.py:89-91
    // builds (see `NormalEquationsAsWritten`).
    ensures r.Success? ==>
              r.value.equations == NormalEquations(r.value.profile.prices, r.value.profile.totals, r.value.imin)
  {
    var c :- LegOf(calls);
    var p :- LegOf(puts);
    var v := Value(c, p);
    assert |c| > 0 ==> Strikes(c)[0] in Elements(v.prices);
    assert |p| > 0 ==> Strikes(p)[0] in Elements(v.prices);
    var imin :- MinIndex(v.totals);
    Success(Analysis(v, imin, Window(imin, |v.prices|), NormalEquations(v.prices, v.totals, imin)))
  }
}

/** The worked example carried through to the minimum. */
module ChainExample {
  import opened Wrappers
  import opened Valuation
  import opened ValuationExample
  import opened MaxPain

  /** The smallest total of the two-strike example is at the first candidate,
      price 10, and the window holds both candidates. */
  lemma TwoStrikesMinimum()
    ensures MinIndex(Value(ExampleCalls, ExamplePuts).totals) == Success(0)
    ensures Value(ExampleCalls, ExamplePuts).prices[0] == 10.0
    ensures Window(0, 2) == [0, 1]
  {
    TwoStrikes();
    FirstMinUnique([40.0, 50.0], 0);
  }
}
