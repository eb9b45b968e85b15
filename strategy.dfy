/** What a strategy's `next` sees and emits once per bar: its position (the
    `self.position` of backtesting.py's Strategy) and the order it places
    (`self.buy()`, `self.sell()`, `self.position.close()` or nothing). */
module Strategy {

  datatype Position = Flat | Long | Short

  datatype Action = NoAction | Buy | Sell | Close

  /** The position the next bar sees after `a`, assuming every order is filled.  A
      buy or sell is applied only from Flat: what it does to an open position is up to
      the backtesting engine, and neither strategy modelled here places one then. */
  function Apply(p: Position, a: Action): (q: Position)
    requires a == Buy || a == Sell ==> p == Flat
    ensures a == NoAction ==> q == p
    ensures a == Close ==> q == Flat
    ensures a == Buy ==> q == Long
    ensures a == Sell ==> q == Short
  {
    match a
    case NoAction => p
    case Buy => Long
    case Sell => Short
    case Close => Flat
  }
}
