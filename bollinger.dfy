/** The Bollinger-band strategy, class BollingerBands of ScanEQ.py: `init` computes a
    20-bar rolling mean of the close and bands two standard deviations either side
    of it, once, over the whole series; `next` compares each bar's close with that
    bar's bands and opens or closes a position.  The standard deviation of a window
    (`rolling().std()`, a floating-point square root) is a function parameter,
    applied to the same window as the mean. */
module Bollinger {

  import opened Wrappers
  import opened Strategy

  /** `self.n`, the length of the rolling window. */
  const Window: nat := 20

  /** `self.k`, the width of the bands in standard deviations. */
  const Multiplier: real := 2.0

  function Sum(s: seq<real>): real {
    if s == [] then 0.0 else s[0] + Sum(s[1..])
  }

  /** The last `Window` closes up to bar i: what `close.rolling(window=self.n)`
      reduces at that bar. */
  function WindowAt(closes: seq<real>, i: nat): (w: seq<real>)
    requires i < |closes| && i + 1 >= Window
    ensures |w| == Window
    ensures forall j :: 0 <= j < Window ==> w[j] == closes[i + 1 - Window + j]
  {
    closes[i + 1 - Window .. i + 1]
  }

  /** `close.rolling(window=self.n).mean()` at bar i: undefined (NaN in pandas) until
      the window is full, then the average of the last `Window` closes. */
  function RollingMean(closes: seq<real>, i: nat): (m: Option<real>)
    requires i < |closes|
    ensures m.Some? <==> i + 1 >= Window
  {
    if i + 1 < Window then None
    else Some(Sum(WindowAt(closes, i)) / (Window as real))
  }

  datatype Band = Band(middle: real, upper: real, lower: real)

  /** `self.sma`, `self.upper_band` and `self.lower_band` at bar i. */
  function BandsAt(closes: seq<real>, deviation: seq<real> -> real, i: nat): (b: Option<Band>)
    requires i < |closes|
    ensures b.Some? <==> i + 1 >= Window
  {
    match RollingMean(closes, i)
    case None => None
    case Some(m) =>
      var sd := deviation(WindowAt(closes, i));
      Some(Band(m, m + Multiplier * sd, m - Multiplier * sd))
  }

  /** Every value of a sequence lies in [lo, hi], so its sum lies in [|s|*lo, |s|*hi]. */
  lemma {:induction false} SumBounds(s: seq<real>, lo: real, hi: real)
    requires forall j :: 0 <= j < |s| ==> lo <= s[j] <= hi
    ensures (|s| as real) * lo <= Sum(s) <= (|s| as real) * hi
  {
    if s != [] {
      SumBounds(s[1..], lo, hi);
    }
  }

  /** The rolling mean lies between the smallest and the largest close of its window. */
  lemma MeanWithinWindow(closes: seq<real>, i: nat, lo: real, hi: real)
    requires i < |closes| && i + 1 >= Window
    requires forall j :: i + 1 - Window <= j <= i ==> lo <= closes[j] <= hi
    ensures lo <= RollingMean(closes, i).value <= hi
  {
    SumBounds(WindowAt(closes, i), lo, hi);
  }

  /** With a non-negative standard deviation the bands straddle the mean, each
      `Multiplier` deviations from it. */
  lemma BandsOrdered(closes: seq<real>, deviation: seq<real> -> real, i: nat)
    requires i < |closes| && i + 1 >= Window
    requires deviation(WindowAt(closes, i)) >= 0.0
    ensures var b := BandsAt(closes, deviation, i).value;
      b.lower <= b.middle <= b.upper &&
      b.upper - b.middle == b.middle - b.lower == 2.0 * deviation(WindowAt(closes, i))
  {
  }

  /** The bands are computed once over the whole series, but the value used at bar i
      depends on bars 0..i only: computing them over any longer prefix gives the same
      value. */
  lemma BandsCausal(closes: seq<real>, deviation: seq<real> -> real, i: nat, n: nat)
    requires i < n <= |closes|
    ensures BandsAt(closes, deviation, i) == BandsAt(closes[..n], deviation, i)
  {
    if i + 1 >= Window {
      assert WindowAt(closes[..n], i) == WindowAt(closes, i);
    }
  }

  /** `BollingerBands.next` on one bar.  Comparisons with an undefined band are false,
      as comparisons with NaN are in Python. */
  function Decide(pos: Position, close: real, band: Option<Band>): (a: Action)
    ensures band.None? ==> a == NoAction
    ensures pos == Flat ==> a != Close
    ensures pos != Flat ==> a == NoAction || a == Close
    ensures pos == Flat && band.Some? ==> (a == Sell <==> close > band.value.upper)
    ensures pos == Flat && band.Some? && band.value.lower <= band.value.upper ==>
      (a == Buy <==> close < band.value.lower)
    ensures pos == Long ==> (a == Close <==> band.Some? && close > band.value.upper)
    ensures pos == Short ==> (a == Close <==> band.Some? && close < band.value.lower)
  {
    match band
    case None => NoAction
    case Some(b) =>
      if pos == Flat then
        if close > b.upper then Sell
        else if close < b.lower then Buy
        else NoAction
      else if pos == Long && close > b.upper then Close
      else if pos == Short && close < b.lower then Close
      else NoAction
  }

  /** The position `next` sees at bar k, when the run starts flat and every order is
      filled before the following bar. */
  function PositionAt(closes: seq<real>, deviation: seq<real> -> real, k: nat): Position
    requires k <= |closes|
    decreases k
  {
    if k == 0 then Flat
    else
      var p := PositionAt(closes, deviation, k - 1);
      Apply(p, Decide(p, closes[k - 1], BandsAt(closes, deviation, k - 1)))
  }

  /** The order `next` places at bar k. */
  function ActionAt(closes: seq<real>, deviation: seq<real> -> real, k: nat): Action
    requires k < |closes|
  {
    Decide(PositionAt(closes, deviation, k), closes[k], BandsAt(closes, deviation, k))
  }

  /** The bar loop of the backtesting engine over BollingerBands: one call of `next`
      per bar, with the position updated from the order it placed. */
  method Run(closes: seq<real>, deviation: seq<real> -> real) returns (actions: seq<Action>, position: Position)
        ensures |actions| == |closes|
    ensures forall k :: 0 <= k < |closes| ==> actions[k] == ActionAt(closes, deviation, k)
    ensures position == PositionAt(closes, deviation, |closes|)
  {
    actions, position := [], Flat;
    var i := 0;
    while i < |closes|
      invariant 0 <= i <= |closes| && |actions| == i
      invariant position == PositionAt(closes, deviation, i)
      invariant forall k :: 0 <= k < i ==> actions[k] == ActionAt(closes, deviation, k)
    {
      var a := Decide(position, closes[i], BandsAt(closes, deviation, i));
      actions := actions + [a];
      position := Apply(position, a);
      i := i + 1;
    }
  }

  /** Before the window fills no order is placed, so the run is still flat at the
      first bar whose bands are defined. */
  lemma {:induction false} WarmUpIsFlat(closes: seq<real>, deviation: seq<real> -> real, k: nat)
    requires k <= |closes| && k + 1 <= Window
    ensures PositionAt(closes, deviation, k) == Flat
    ensures k < |closes| && k + 1 < Window ==> ActionAt(closes, deviation, k) == NoAction
  {
    if k > 0 {
      WarmUpIsFlat(closes, deviation, k - 1);
    }
  }

  /** The position changes only into or out of Flat: a long never turns into a short
      on one bar, nor a short into a long. */
  lemma ChangesOnlyThroughFlat(closes: seq<real>, deviation: seq<real> -> real, k: nat)
    requires k < |closes|
    ensures var p, q := PositionAt(closes, deviation, k), PositionAt(closes, deviation, k + 1);
      p == q || p == Flat || q == Flat
  {
  }

  /** The bar on which an open position is closed: a long once the close is above the
      upper band, a short once it is below the lower band. */
  predicate ExitAt(closes: seq<real>, deviation: seq<real> -> real, pos: Position, j: nat)
    requires j < |closes|
  {
    match BandsAt(closes, deviation, j)
    case None => false
    case Some(b) =>
      (pos == Long && closes[j] > b.upper) || (pos == Short && closes[j] < b.lower)
  }

  /** When flat, a bar with defined bands opens a short if it closes above the upper
      band, a long if it closes below the lower band, and nothing otherwise. */
  lemma EntryAtBreakout(closes: seq<real>, deviation: seq<real> -> real, k: nat)
    requires k < |closes| && k + 1 >= Window
    requires deviation(WindowAt(closes, k)) >= 0.0
    requires PositionAt(closes, deviation, k) == Flat
    ensures var b := BandsAt(closes, deviation, k).value;
      var a, next := ActionAt(closes, deviation, k), PositionAt(closes, deviation, k + 1);
      (closes[k] > b.upper ==> a == Sell && next == Short) &&
      (closes[k] < b.lower ==> a == Buy && next == Long) &&
      (b.lower <= closes[k] <= b.upper ==> a == NoAction && next == Flat)
  {
    BandsOrdered(closes, deviation, k);
  }

  /** An open position is closed on its exit bar and the run is then flat. */
  lemma ExitAtReversion(closes: seq<real>, deviation: seq<real> -> real, k: nat)
    requires k < |closes|
    requires PositionAt(closes, deviation, k) != Flat
    requires ExitAt(closes, deviation, PositionAt(closes, deviation, k), k)
    ensures ActionAt(closes, deviation, k) == Close && PositionAt(closes, deviation, k + 1) == Flat
  {
  }

  /** An open position is held on every bar up to its exit bar: nothing but the exit
      condition closes it, and no new position is opened meanwhile. */
  lemma {:induction false} HeldUntilExit(closes: seq<real>, deviation: seq<real> -> real, pos: Position, k: nat, m: nat)
    requires k <= m <= |closes| && pos != Flat
    requires PositionAt(closes, deviation, k) == pos
    requires forall j :: k <= j < m ==> !ExitAt(closes, deviation, pos, j)
    ensures PositionAt(closes, deviation, m) == pos
    decreases m - k
  {
    if k < m {
      assert !ExitAt(closes, deviation, pos, k);
      assert PositionAt(closes, deviation, k + 1) == pos;
      HeldUntilExit(closes, deviation, pos, k + 1, m);
    }
  }

  /** The whole run is causal: the position at bar k is the same whether the bands
      are computed over the full series or over the bars seen so far. */
  lemma {:induction false} PositionCausal(closes: seq<real>, deviation: seq<real> -> real, k: nat, n: nat)
    requires k <= n <= |closes|
    ensures PositionAt(closes, deviation, k) == PositionAt(closes[..n], deviation, k)
  {
    if k > 0 {
      var prefix := closes[..n];
      PositionCausal(closes, deviation, k - 1, n);
      BandsCausal(closes, deviation, k - 1, n);
      var p := PositionAt(closes, deviation, k - 1);
      assert PositionAt(prefix, deviation, k - 1) == p;
      assert prefix[k - 1] == closes[k - 1];
      assert PositionAt(prefix, deviation, k)
          == Apply(p, Decide(p, prefix[k - 1], BandsAt(prefix, deviation, k - 1)));
    }
  }
}
