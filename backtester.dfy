/** The backtest loop itself, proved to compute the state machine of module BacktestModel. */
module Backtester {
  import opened Wrappers
  import opened Sequences
  import opened BacktestModel

  /**
   * Runs the strategy over the closing prices: from the second bar on, buy one
   * unit when flat and the close fell by at least buyDrop percent, then sell it
   * when the close is at least sellGain percent above the last buy price. The
   * result is the cash plus an open unit valued at the last close, and the log.
   */
  method Backtest(closes: seq<real>, buyDrop: real, sellGain: real) returns (finalBalance: real, trades: seq<Trade>)
    requires AllPositive(closes)
    ensures Outcome(finalBalance, trades) == Simulate(closes, Params(buyDrop, sellGain))
  {
    ghost var p := Params(buyDrop, sellGain);
    var balance: real := InitialBalance;
    var holdings: nat := 0;
    var lastBuyPrice: Option<real> := None;
    trades := [];
    var i := 1;
    while i < |closes|
      invariant 1 <= i && (i == 1 || i <= |closes|)
      invariant State(balance, holdings, lastBuyPrice, trades) == Run(closes, p, i)
    {
      ghost var before := State(balance, holdings, lastBuyPrice, trades);
      var dailyChange := (closes[i] - closes[i - 1]) / closes[i - 1] * 100.0;
      assert dailyChange == DailyChange(closes, i);
      if dailyChange <= -buyDrop && holdings == 0 {
        lastBuyPrice := Some(closes[i]);
        holdings := 1;
        balance := balance - closes[i];
        trades := trades + [Trade(i, Buy, closes[i])];
      }
      ghost var bought := State(balance, holdings, lastBuyPrice, trades);
      assert bought == BuyRule(closes, p, before, i);
      if holdings > 0 && (closes[i] / lastBuyPrice.value - 1.0) * 100.0 >= sellGain {
        var sellPrice := closes[i];
        balance := balance + sellPrice;
        holdings := 0;
        trades := trades + [Trade(i, Sell, sellPrice)];
      }
      assert State(balance, holdings, lastBuyPrice, trades) == SellRule(closes, p, bought, i);
      i := i + 1;
    }
    finalBalance := balance + (if holdings > 0 then holdings as real * closes[|closes| - 1] else 0.0);
  }
}
