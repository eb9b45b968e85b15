/** The moving-average crossover strategy, class MACS of ScanEQ.py.  Its two
    indicators, the 10- and 20-bar simple moving averages of the close, come from the
    backtesting library and are inputs here; so is the library's `crossover`, a
    predicate over the two indicator histories up to the current bar. */
module Macs {

  import opened Strategy

  /** `MACS.next` on one bar, given `crossover(sma1, sma2)` (up) and
      `crossover(sma2, sma1)` (down). */
  function Decide(up: bool, down: bool): (a: Action)
    ensures a != Close
    ensures a == Buy <==> up
    ensures a == Sell <==> !up && down
    ensures a == NoAction <==> !up && !down
  {
    if up then Buy
    else if down then Sell
    else NoAction
  }

  /** The bar loop of the backtesting engine over MACS: at bar k it asks `crossover`
      of the indicator values seen so far, bars 0..k, and collects the order. */
  method Run(sma1: seq<real>, sma2: seq<real>, crossover: (seq<real>, seq<real>) -> bool)
    returns (orders: seq<Action>)
    requires |sma1| == |sma2|
    ensures |orders| == |sma1|
    ensures forall k :: 0 <= k < |orders| ==> orders[k] != Close
    ensures forall k :: 0 <= k < |orders| ==>
      (orders[k] == Buy <==> crossover(sma1[..k + 1], sma2[..k + 1]))
    ensures forall k :: 0 <= k < |orders| ==>
      (orders[k] == Sell <==> !crossover(sma1[..k + 1], sma2[..k + 1]) && crossover(sma2[..k + 1], sma1[..k + 1]))
  {
    orders := [];
    var i := 0;
    while i < |sma1|
      invariant 0 <= i <= |sma1| && |orders| == i
      invariant forall k :: 0 <= k < i ==>
        orders[k] == Decide(crossover(sma1[..k + 1], sma2[..k + 1]), crossover(sma2[..k + 1], sma1[..k + 1]))
    {
      var seen1, seen2 := sma1[..i + 1], sma2[..i + 1];
      orders := orders + [Decide(crossover(seen1, seen2), crossover(seen2, seen1))];
      i := i + 1;
    }
  }
}
