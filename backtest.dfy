/**
 * The threshold backtester: a single-position state machine over the closing
 * prices. On each bar from the second on it first buys one unit when flat and
 * the close fell by at least buyDrop percent from the previous close, then sells
 * the unit held when the close is at least sellGain percent above the last buy
 * price. An open position is valued at the last close but not logged.
 */
module BacktestModel {
  import opened Wrappers
  import opened Sequences

  /** Starting cash, in currency units. */
  const InitialBalance: real := 10000.0

  /** The strategy's thresholds, in percent. */
  datatype Params = Params(buyDrop: real, sellGain: real)

  datatype Action = Buy | Sell

  /** One trade-log entry; its date is the position of its bar in the series. */
  datatype Trade = Trade(bar: nat, action: Action, price: real)

  /** The final balance and the trade log. */
  datatype Outcome = Outcome(finalBalance: real, trades: seq<Trade>)

  /** The simulator's variables between two bars. */
  datatype State = State(balance: real, holdings: nat, lastBuyPrice: Option<real>, trades: seq<Trade>)

  /** Percentage change of the close of bar i from the previous close. */
  function DailyChange(closes: seq<real>, i: nat): real
    requires AllPositive(closes) && 1 <= i < |closes|
  {
    (closes[i] - closes[i - 1]) / closes[i - 1] * 100.0
  }

  /** Percentage gain of a price over the buy price. */
  function Gain(price: real, buyPrice: real): real
    requires buyPrice > 0.0
  {
    (price / buyPrice - 1.0) * 100.0
  }

  /** What a position's state must satisfy for the sell rule to be evaluable. */
  predicate BuyPriceKnown(s: State)
  {
    s.holdings > 0 ==> s.lastBuyPrice.Some? && s.lastBuyPrice.value > 0.0
  }

  /** The buy rule on bar i: buy one unit when flat and the close dropped by at least buyDrop percent. */
  function BuyRule(closes: seq<real>, p: Params, s: State, i: nat): State
    requires AllPositive(closes) && 1 <= i < |closes|
  {
    if DailyChange(closes, i) <= -p.buyDrop && s.holdings == 0 then
      State(s.balance - closes[i], 1, Some(closes[i]), s.trades + [Trade(i, Buy, closes[i])])
    else s
  }

  /** The sell rule on bar i: sell the unit held when the close gained at least sellGain percent on the buy price. */
  function SellRule(closes: seq<real>, p: Params, s: State, i: nat): State
    requires AllPositive(closes) && 1 <= i < |closes| && BuyPriceKnown(s)
  {
    if s.holdings > 0 && Gain(closes[i], s.lastBuyPrice.value) >= p.sellGain then
      State(s.balance + closes[i], 0, s.lastBuyPrice, s.trades + [Trade(i, Sell, closes[i])])
    else s
  }

  /**
   * The state after bars 1 .. k - 1, the buy rule checked before the sell rule
   * on each; at most one unit is ever held.
   */
  function Run(closes: seq<real>, p: Params, k: nat): (s: State)
    requires AllPositive(closes) && (k <= 1 || k <= |closes|)
    ensures s.holdings <= 1 && BuyPriceKnown(s)
    ensures s.holdings > 0 ==> k > 1
  {
    if k <= 1 then State(InitialBalance, 0, None, [])
    else
      var before := Run(closes, p, k - 1);
      SellRule(closes, p, BuyRule(closes, p, before, k - 1), k - 1)
  }

  /** The outcome of the backtest: cash plus an open unit valued at the last close, and the trade log. */
  function Simulate(closes: seq<real>, p: Params): Outcome
    requires AllPositive(closes)
  {
    var s := Run(closes, p, |closes|);
    Outcome(s.balance + (if s.holdings > 0 then s.holdings as real * closes[|closes| - 1] else 0.0), s.trades)
  }
}
