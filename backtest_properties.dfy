/** What the backtester promises, proved about its state machine. */
module BacktestProperties {
  import opened Wrappers
  import opened Sequences
  import opened BacktestModel

  // ---------------------------------------------------------------- the trade log

  /** The action of the n-th trade (from 0): BUY, SELL, BUY, ... */
  function NthAction(n: nat): Action
  {
    if n % 2 == 0 then Buy else Sell
  }

  /** Net cash from the trades: each SELL adds its price, each BUY subtracts it. */
  function CashFlow(trades: seq<Trade>): real
  {
    if trades == [] then 0.0
    else CashFlow(AllButLast(trades)) + (if Last(trades).action == Sell then Last(trades).price else -Last(trades).price)
  }

  lemma CashFlowAppend(trades: seq<Trade>, t: Trade)
    ensures CashFlow(trades + [t]) == CashFlow(trades) + (if t.action == Sell then t.price else -t.price)
  {
    assert AllButLast(trades + [t]) == trades;
  }

  /** Selling at the buy price gains nothing. */
  lemma GainAtCost(price: real)
    requires price > 0.0
    ensures Gain(price, price) == 0.0
  {
    assert price / price == 1.0;
  }

  predicate PricesPositive(trades: seq<Trade>)
  {
    forall j :: 0 <= j < |trades| ==> trades[j].price > 0.0
  }

  /**
   * The first bar on which the trade after `done` may happen: bar 1 at the
   * start, the bar of the last BUY (its sell rule is checked on that same bar),
   * or the bar after the last SELL (the buy rule of that bar was already checked).
   */
  function Start(done: seq<Trade>): nat
  {
    if done == [] then 1 else if |done| % 2 == 1 then Last(done).bar else Last(done).bar + 1
  }

  /** Bar i meets the condition of the trade that follows `done`. */
  predicate Fires(closes: seq<real>, p: Params, done: seq<Trade>, i: nat)
    requires AllPositive(closes) && 1 <= i < |closes| && PricesPositive(done)
  {
    if |done| % 2 == 0 then DailyChange(closes, i) <= -p.buyDrop
    else Gain(closes[i], Last(done).price) >= p.sellGain
  }

  /** No bar in from .. to - 1 meets the condition of the trade that follows `done`. */
  predicate Quiet(closes: seq<real>, p: Params, done: seq<Trade>, from: nat, to: nat)
    requires AllPositive(closes) && PricesPositive(done)
  {
    forall i :: from <= i < to && 1 <= i < |closes| ==> !Fires(closes, p, done, i)
  }

  /**
   * Trade j is logged at the close of the first bar, from Start on, that meets
   * its condition, and has the action its position calls for.
   */
  predicate FiredAt(closes: seq<real>, p: Params, trades: seq<Trade>, j: nat)
    requires AllPositive(closes) && PricesPositive(trades) && j < |trades|
  {
    var done := trades[..j];
    var t := trades[j];
    assert PricesPositive(done);
    1 <= t.bar < |closes| && Start(done) <= t.bar
    && t.action == NthAction(j) && t.price == closes[t.bar]
    && Fires(closes, p, done, t.bar) && Quiet(closes, p, done, Start(done), t.bar)
  }

  /** Every trade fired as FiredAt says, on a bar before `bound`. */
  predicate AllFired(closes: seq<real>, p: Params, trades: seq<Trade>, bound: nat)
    requires AllPositive(closes)
  {
    PricesPositive(trades)
    && forall j :: 0 <= j < |trades| ==> trades[j].bar < bound && FiredAt(closes, p, trades, j)
  }

  /**
   * The log is exactly the greedy one over bars 1 .. k - 1: every trade fired at
   * the first opportunity, and no bar after the last trade meets the next condition.
   */
  predicate GreedyLog(closes: seq<real>, p: Params, trades: seq<Trade>, k: nat)
    requires AllPositive(closes)
  {
    AllFired(closes, p, trades, k) && Quiet(closes, p, trades, Start(trades), k)
  }

  /** Position, last buy price and cash agree with the log. */
  predicate Accounts(s: State)
  {
    s.holdings == |s.trades| % 2
    && (s.holdings > 0 ==> s.lastBuyPrice == Some(Last(s.trades).price))
    && s.balance == InitialBalance + CashFlow(s.trades)
  }

  // ---------------------------------------------------------------- the step

  /** Appending the trade that fires on bar k keeps every trade as FiredAt says. */
  lemma AppendFired(closes: seq<real>, p: Params, trades: seq<Trade>, k: nat)
    requires AllPositive(closes) && 1 <= k < |closes|
    requires AllFired(closes, p, trades, k + 1)
    requires Start(trades) <= k && Quiet(closes, p, trades, Start(trades), k)
    requires Fires(closes, p, trades, k)
    ensures AllFired(closes, p, trades + [Trade(k, NthAction(|trades|), closes[k])], k + 1)
  {
    var t := Trade(k, NthAction(|trades|), closes[k]);
    var trades' := trades + [t];
    assert PricesPositive(trades');
    forall j | 0 <= j < |trades'| ensures trades'[j].bar < k + 1 && FiredAt(closes, p, trades', j) {
      assert trades'[..j] == if j < |trades| then trades[..j] else trades;
      if j < |trades| {
        assert trades'[j] == trades[j];
        assert FiredAt(closes, p, trades, j);
      }
    }
  }

  /**
   * The log after bar i: the next trade when its condition holds on bar i, and
   * after a BUY also the SELL when its condition holds on that same bar.
   */
  function LogStep(closes: seq<real>, p: Params, trades: seq<Trade>, i: nat): seq<Trade>
    requires AllPositive(closes) && 1 <= i < |closes| && PricesPositive(trades)
  {
    if !Fires(closes, p, trades, i) then trades
    else
      var t1 := trades + [Trade(i, NthAction(|trades|), closes[i])];
      assert PricesPositive(t1);
      if |trades| % 2 == 0 && Fires(closes, p, t1, i) then t1 + [Trade(i, Sell, closes[i])] else t1
  }

  /** Logging the trade that fires on bar i: every trade still fired, and the next may start at i or i + 1. */
  lemma FireOnce(closes: seq<real>, p: Params, trades: seq<Trade>, i: nat)
    requires AllPositive(closes) && 1 <= i < |closes|
    requires AllFired(closes, p, trades, i + 1) && Start(trades) <= i && Quiet(closes, p, trades, Start(trades), i)
    requires Fires(closes, p, trades, i)
    ensures var t1 := trades + [Trade(i, NthAction(|trades|), closes[i])];
            AllFired(closes, p, t1, i + 1) && Start(t1) == if |trades| % 2 == 0 then i else i + 1
  {
    var t1 := trades + [Trade(i, NthAction(|trades|), closes[i])];
    assert AllFired(closes, p, t1, i + 1) by {
      AppendFired(closes, p, trades, i);
    }
    StartAfter(trades, Trade(i, NthAction(|trades|), closes[i]));
  }

  /** Where the trade after `done + [t]` may start. */
  lemma StartAfter(done: seq<Trade>, t: Trade)
    ensures Start(done + [t]) == if |done| % 2 == 0 then t.bar else t.bar + 1
  {
    assert Last(done + [t]) == t;
  }

  /** Bar i keeps the greedy log greedy. */
  lemma LogStepGreedy(closes: seq<real>, p: Params, trades: seq<Trade>, i: nat)
    requires AllPositive(closes) && 1 <= i < |closes| && GreedyLog(closes, p, trades, i)
    ensures GreedyLog(closes, p, LogStep(closes, p, trades, i), i + 1)
  {
    assert AllFired(closes, p, trades, i + 1);
    if Fires(closes, p, trades, i) {
      assert Start(trades) <= i by {
        if trades != [] {
          assert Last(trades) == trades[|trades| - 1];
        }
      }
      FireOnce(closes, p, trades, i);
      var t1 := trades + [Trade(i, NthAction(|trades|), closes[i])];
      if |trades| % 2 == 0 {
        assert |t1| % 2 == 1;
        SameBarGreedy(closes, p, t1, i);
      }
    }
  }

  /** After a BUY on bar i, the sell rule on that bar keeps the log greedy. */
  lemma SameBarGreedy(closes: seq<real>, p: Params, t1: seq<Trade>, i: nat)
    requires AllPositive(closes) && 1 <= i < |closes|
    requires AllFired(closes, p, t1, i + 1) && Start(t1) == i && |t1| % 2 == 1
    ensures Fires(closes, p, t1, i) ==> GreedyLog(closes, p, t1 + [Trade(i, Sell, closes[i])], i + 1)
    ensures !Fires(closes, p, t1, i) ==> GreedyLog(closes, p, t1, i + 1)
  {
    if Fires(closes, p, t1, i) {
      FireOnce(closes, p, t1, i);
    }
  }

  /** On a flat bar the two rules log what LogStep says, and keep the accounts. */
  lemma FlatRules(closes: seq<real>, p: Params, s: State, i: nat)
    requires AllPositive(closes) && 1 <= i < |closes| && PricesPositive(s.trades)
    requires s.holdings == 0 && Accounts(s)
    ensures var s' := SellRule(closes, p, BuyRule(closes, p, s, i), i);
            s'.trades == LogStep(closes, p, s.trades, i) && Accounts(s')
  {
    var trades := s.trades;
    assert |trades| % 2 == 0 && NthAction(|trades|) == Buy;
    if DailyChange(closes, i) <= -p.buyDrop {
      var buy := Trade(i, Buy, closes[i]);
      var s1 := BuyRule(closes, p, s, i);
      assert s1 == State(s.balance - closes[i], 1, Some(closes[i]), trades + [buy]);
      assert Fires(closes, p, trades, i);
      assert Accounts(s1) by {
        CashFlowAppend(trades, buy);
        assert Last(s1.trades) == buy;
      }
      BoughtRules(closes, p, s1, i);
    } else {
      assert !Fires(closes, p, trades, i);
    }
  }

  /** On the bar of a BUY the sell rule logs what LogStep says, and keeps the accounts. */
  lemma BoughtRules(closes: seq<real>, p: Params, s1: State, i: nat)
    requires AllPositive(closes) && 1 <= i < |closes| && PricesPositive(s1.trades)
    requires s1.holdings == 1 && Accounts(s1) && s1.lastBuyPrice == Some(closes[i])
    ensures var s' := SellRule(closes, p, s1, i);
            (s'.trades == if Fires(closes, p, s1.trades, i) then s1.trades + [Trade(i, Sell, closes[i])] else s1.trades)
            && Accounts(s')
  {
    GainAtCost(closes[i]);
    assert Last(s1.trades).price == closes[i];
    if 0.0 >= p.sellGain {
      assert Fires(closes, p, s1.trades, i);
      SoldAccounts(closes, s1, i);
    } else {
      assert !Fires(closes, p, s1.trades, i);
    }
  }

  /** A SELL at the close of bar i keeps the accounts. */
  lemma SoldAccounts(closes: seq<real>, s: State, i: nat)
    requires 1 <= i < |closes|
    requires s.holdings == 1 && Accounts(s)
    ensures Accounts(State(s.balance + closes[i], 0, s.lastBuyPrice, s.trades + [Trade(i, Sell, closes[i])]))
  {
    CashFlowAppend(s.trades, Trade(i, Sell, closes[i]));
  }

  /** On a held bar the sell rule logs what LogStep says, and keeps the accounts. */
  lemma HeldRules(closes: seq<real>, p: Params, s: State, i: nat)
    requires AllPositive(closes) && 1 <= i < |closes| && PricesPositive(s.trades)
    requires s.holdings == 1 && BuyPriceKnown(s) && Accounts(s)
    ensures var s' := SellRule(closes, p, BuyRule(closes, p, s, i), i);
            s'.trades == LogStep(closes, p, s.trades, i) && Accounts(s')
  {
    assert Last(s.trades).price == s.lastBuyPrice.value;
    assert |s.trades| % 2 == 1 && NthAction(|s.trades|) == Sell;
    assert BuyRule(closes, p, s, i) == s;
    if Gain(closes[i], s.lastBuyPrice.value) >= p.sellGain {
      assert Fires(closes, p, s.trades, i);
      SoldAccounts(closes, s, i);
    } else {
      assert !Fires(closes, p, s.trades, i);
    }
  }

  /** One bar of the simulator keeps the accounts and the greedy log. */
  lemma StepInvariant(closes: seq<real>, p: Params, s: State, i: nat)
    requires AllPositive(closes) && 1 <= i < |closes|
    requires s.holdings <= 1 && BuyPriceKnown(s)
    requires Accounts(s) && GreedyLog(closes, p, s.trades, i)
    ensures var s' := SellRule(closes, p, BuyRule(closes, p, s, i), i);
            Accounts(s') && GreedyLog(closes, p, s'.trades, i + 1)
  {
    if s.holdings == 0 {
      FlatRules(closes, p, s, i);
    } else {
      HeldRules(closes, p, s, i);
    }
    LogStepGreedy(closes, p, s.trades, i);
  }

  /** After bars 1 .. k - 1 the accounts agree with the log and the log is the greedy one. */
  lemma {:induction false} RunInvariant(closes: seq<real>, p: Params, k: nat)
    requires AllPositive(closes) && (k <= 1 || k <= |closes|)
    ensures Accounts(Run(closes, p, k)) && GreedyLog(closes, p, Run(closes, p, k).trades, k)
  {
    if k > 1 {
      RunInvariant(closes, p, k - 1);
      StepInvariant(closes, p, Run(closes, p, k - 1), k - 1);
    }
  }

  // ---------------------------------------------------------------- the outcome

  /** The whole run keeps the accounts and the greedy log. */
  lemma SimulateInvariant(closes: seq<real>, p: Params)
    requires AllPositive(closes)
    ensures Accounts(Run(closes, p, |closes|))
    ensures GreedyLog(closes, p, Simulate(closes, p).trades, |closes|)
  {
    RunInvariant(closes, p, |closes|);
  }

  /** Trades alternate BUY, SELL, BUY, ..., starting with a BUY. */
  lemma Alternation(closes: seq<real>, p: Params)
    requires AllPositive(closes)
    ensures var trades := Simulate(closes, p).trades;
            forall j :: 0 <= j < |trades| ==> trades[j].action == NthAction(j)
  {
    SimulateInvariant(closes, p);
    var trades := Simulate(closes, p).trades;
    forall j | 0 <= j < |trades| ensures trades[j].action == NthAction(j) {
      assert FiredAt(closes, p, trades, j);
    }
  }

  /**
   * The final balance is the starting cash plus the sales minus the purchases,
   * plus the last close when the log ends with a BUY (the unit still held).
   */
  lemma BalanceAccounting(closes: seq<real>, p: Params)
    requires AllPositive(closes)
    ensures var o := Simulate(closes, p);
            o.finalBalance == InitialBalance + CashFlow(o.trades) + (if |o.trades| % 2 == 1 then closes[|closes| - 1] else 0.0)
  {
    SimulateInvariant(closes, p);
  }

  /** With fewer than two bars no bar is checked: the log is empty and the balance stays the starting cash. */
  lemma ShortSeriesNoTrades(closes: seq<real>, p: Params)
    requires AllPositive(closes) && |closes| < 2
    ensures Simulate(closes, p).trades == [] && Simulate(closes, p).finalBalance == InitialBalance
  {
  }

  /**
   * Each logged trade is at the close of its bar; a BUY follows a drop of at
   * least buyDrop percent; a SELL closes the BUY before it with a gain of at
   * least sellGain percent, on the same bar or a later one.
   */
  lemma TradeConditions(closes: seq<real>, p: Params, j: nat)
    requires AllPositive(closes) && j < |Simulate(closes, p).trades|
    ensures var trades := Simulate(closes, p).trades;
            var t := trades[j];
            1 <= t.bar < |closes| && t.price == closes[t.bar]
            && (t.action == Buy ==> DailyChange(closes, t.bar) <= -p.buyDrop)
            && (t.action == Sell ==>
                  j > 0 && trades[j - 1].action == Buy && trades[j - 1].bar <= t.bar
                  && trades[j - 1].price > 0.0 && Gain(t.price, trades[j - 1].price) >= p.sellGain)
  {
    var trades := Simulate(closes, p).trades;
    assert AllFired(closes, p, trades, |closes|) by {
      SimulateInvariant(closes, p);
    }
    LoggedTrade(closes, p, trades, |closes|, j);
  }

  lemma LoggedTrade(closes: seq<real>, p: Params, trades: seq<Trade>, k: nat, j: nat)
    requires AllPositive(closes) && AllFired(closes, p, trades, k) && j < |trades|
    ensures var t := trades[j];
            1 <= t.bar < |closes| && t.price == closes[t.bar]
            && (t.action == Buy ==> DailyChange(closes, t.bar) <= -p.buyDrop)
            && (t.action == Sell ==>
                  j > 0 && trades[j - 1].action == Buy && trades[j - 1].bar <= t.bar
                  && trades[j - 1].price > 0.0 && Gain(t.price, trades[j - 1].price) >= p.sellGain)
  {
    if j == 0 {
      assert FiredAt(closes, p, trades, 0);
    } else {
      PreviousTrade(closes, p, trades, k, j);
    }
  }

  /** What the log records about trade j and the trade before it. */
  lemma PreviousTrade(closes: seq<real>, p: Params, trades: seq<Trade>, k: nat, j: nat)
    requires AllPositive(closes) && AllFired(closes, p, trades, k) && 0 < j < |trades|
    ensures PricesPositive(trades[..j]) && Last(trades[..j]) == trades[j - 1]
    ensures Start(trades[..j]) == if j % 2 == 1 then trades[j - 1].bar else trades[j - 1].bar + 1
    ensures 1 <= Start(trades[..j]) <= trades[j].bar < |closes|
    ensures trades[j].price == closes[trades[j].bar] && trades[j - 1].price == closes[trades[j - 1].bar]
    ensures trades[j].action == NthAction(j) && trades[j - 1].action == NthAction(j - 1)
    ensures Fires(closes, p, trades[..j], trades[j].bar)
    ensures Quiet(closes, p, trades[..j], Start(trades[..j]), trades[j].bar)
  {
    assert FiredAt(closes, p, trades, j);
    assert FiredAt(closes, p, trades, j - 1);
  }

  /** With a positive sellGain no two trades share a bar: the bars strictly increase. */
  lemma BarsIncrease(closes: seq<real>, p: Params, j: nat)
    requires AllPositive(closes) && p.sellGain > 0.0
    requires j + 1 < |Simulate(closes, p).trades|
    ensures var trades := Simulate(closes, p).trades;
            trades[j].bar < trades[j + 1].bar
  {
    var trades := Simulate(closes, p).trades;
    assert AllFired(closes, p, trades, |closes|) by {
      SimulateInvariant(closes, p);
    }
    NextBarLater(closes, p, trades, |closes|, j);
  }

  lemma NextBarLater(closes: seq<real>, p: Params, trades: seq<Trade>, k: nat, j: nat)
    requires AllPositive(closes) && p.sellGain > 0.0
    requires AllFired(closes, p, trades, k) && j + 1 < |trades|
    ensures trades[j].bar < trades[j + 1].bar
  {
    PreviousTrade(closes, p, trades, k, j + 1);
    if j % 2 == 0 {
      var b, c := trades[j], trades[j + 1];
      assert Gain(closes[c.bar], b.price) >= p.sellGain by {
        assert Fires(closes, p, trades[..j + 1], c.bar);
      }
      GainAtCost(b.price);
      assert closes[c.bar] != closes[b.bar];
    }
  }

  /** SELLs at the price of the BUY before them: every pair nets nothing. */
  predicate SoldAtCost(trades: seq<Trade>)
  {
    |trades| % 2 == 0
    && forall j :: 0 <= j < |trades| && j % 2 == 1 ==> trades[j].price == trades[j - 1].price && trades[j].action == Sell && trades[j - 1].action == Buy
  }

  lemma {:induction false} SoldAtCostNetsNothing(trades: seq<Trade>)
    requires SoldAtCost(trades)
    ensures CashFlow(trades) == 0.0
  {
    if trades != [] {
      var n := |trades|;
      var rest := trades[..n - 2];
      assert trades == rest + [trades[n - 2]] + [trades[n - 1]];
      assert SoldAtCost(rest) by {
        forall j | 0 <= j < |rest| && j % 2 == 1
          ensures rest[j].price == rest[j - 1].price && rest[j].action == Sell && rest[j - 1].action == Buy
        {
          assert rest[j] == trades[j] && rest[j - 1] == trades[j - 1];
        }
      }
      SoldAtCostNetsNothing(rest);
      CashFlowAppend(rest, trades[n - 2]);
      CashFlowAppend(rest + [trades[n - 2]], trades[n - 1]);
      assert (n - 1) % 2 == 1;
    }
  }

  /** Under a non-positive sellGain the SELL after a BUY is on the BUY's own bar. */
  lemma SoldOnItsBar(closes: seq<real>, p: Params, trades: seq<Trade>, k: nat, j: nat)
    requires AllPositive(closes) && p.sellGain <= 0.0
    requires AllFired(closes, p, trades, k)
    requires 0 < j < |trades| && j % 2 == 1
    ensures trades[j].bar == trades[j - 1].bar && trades[j].price == trades[j - 1].price
    ensures trades[j].action == Sell && trades[j - 1].action == Buy
  {
    PreviousTrade(closes, p, trades, k, j);
    var b := trades[j - 1];
    GainAtCost(b.price);
    assert Fires(closes, p, trades[..j], b.bar);
  }

  /** Under a non-positive sellGain a log ending in a BUY leaves its own bar's sell unused. */
  lemma OpenBuyWouldSell(closes: seq<real>, p: Params, trades: seq<Trade>, k: nat)
    requires AllPositive(closes) && p.sellGain <= 0.0 && AllFired(closes, p, trades, k)
    requires |trades| % 2 == 1
    ensures 1 <= Start(trades) < k && Start(trades) < |closes|
    ensures Fires(closes, p, trades, Start(trades))
  {
    var b := trades[|trades| - 1];
    assert Last(trades) == b;
    assert 1 <= b.bar < |closes| && b.bar < k && b.price == closes[b.bar] by {
      assert FiredAt(closes, p, trades, |trades| - 1);
    }
    assert Start(trades) == b.bar;
    GainAtCost(b.price);
  }

  /**
   * With sellGain at most zero every BUY is sold on its own bar at its own
   * price, so the log ends flat and the final balance is the starting cash.
   */
  lemma NonPositiveSellGain(closes: seq<real>, p: Params)
    requires AllPositive(closes) && p.sellGain <= 0.0
    ensures var o := Simulate(closes, p);
            |o.trades| % 2 == 0 && o.finalBalance == InitialBalance
            && forall j :: 0 <= j < |o.trades| && j % 2 == 1 ==> o.trades[j].bar == o.trades[j - 1].bar
  {
    SimulateInvariant(closes, p);
    var trades := Simulate(closes, p).trades;
    forall j | 0 <= j < |trades| && j % 2 == 1
      ensures trades[j].bar == trades[j - 1].bar && trades[j].price == trades[j - 1].price
      ensures trades[j].action == Sell && trades[j - 1].action == Buy
    {
      SoldOnItsBar(closes, p, trades, |closes|, j);
    }
    if |trades| % 2 == 1 {
      OpenBuyWouldSell(closes, p, trades, |closes|);
      assert false;
    }
    SoldAtCostNetsNothing(trades);
    BalanceAccounting(closes, p);
  }

  // ---------------------------------------------------------------- uniqueness

  /** Two greedy logs over the same bars agree on every trade they both have. */
  lemma {:induction false} GreedyPrefix(closes: seq<real>, p: Params, a: seq<Trade>, b: seq<Trade>, k: nat, n: nat)
    requires AllPositive(closes) && AllFired(closes, p, a, k) && AllFired(closes, p, b, k)
    requires n <= |a| && n <= |b|
    ensures a[..n] == b[..n]
  {
    if n > 0 {
      GreedyPrefix(closes, p, a, b, k, n - 1);
      SameNextTrade(closes, p, a, b, k, n - 1);
      SliceExtend(a, n);
      SliceExtend(b, n);
    }
  }

  lemma SliceExtend<T>(s: seq<T>, n: nat)
    requires 0 < n <= |s|
    ensures s[..n] == s[..n - 1] + [s[n - 1]]
  {
  }

  /** Trade j of two logs that agree before it is the first firing bar after the same start. */
  lemma SameNextTrade(closes: seq<real>, p: Params, a: seq<Trade>, b: seq<Trade>, k: nat, j: nat)
    requires AllPositive(closes) && AllFired(closes, p, a, k) && AllFired(closes, p, b, k)
    requires j < |a| && j < |b| && a[..j] == b[..j]
    ensures a[j] == b[j]
  {
    var done := a[..j];
    assert FiredAt(closes, p, a, j);
    assert FiredAt(closes, p, b, j);
    assert PricesPositive(done);
    var x, y := a[j], b[j];
    assert x.bar <= y.bar by {
      assert Quiet(closes, p, done, Start(done), y.bar);
      assert Fires(closes, p, done, x.bar);
    }
    assert y.bar <= x.bar by {
      assert Quiet(closes, p, done, Start(done), x.bar);
      assert Fires(closes, p, done, y.bar);
    }
  }

  /** A greedy log has no trade beyond the end of another greedy log over the same bars. */
  lemma NoExtraTrade(closes: seq<real>, p: Params, a: seq<Trade>, b: seq<Trade>, k: nat)
    requires AllPositive(closes) && GreedyLog(closes, p, a, k) && GreedyLog(closes, p, b, k)
    ensures |a| <= |b|
  {
    if |b| < |a| {
      GreedyPrefix(closes, p, a, b, k, |b|);
      ExtraTradeFires(closes, p, a, b, k);
      assert false;
    }
  }

  /** The trade after a common prefix fires on a bar the shorter log declares quiet. */
  lemma ExtraTradeFires(closes: seq<real>, p: Params, a: seq<Trade>, b: seq<Trade>, k: nat)
    requires AllPositive(closes) && AllFired(closes, p, a, k) && PricesPositive(b)
    requires |b| < |a| && a[..|b|] == b
    ensures Start(b) <= a[|b|].bar < k && 1 <= a[|b|].bar < |closes|
    ensures Fires(closes, p, b, a[|b|].bar)
  {
    assert FiredAt(closes, p, a, |b|);
  }

  /**
   * The greedy log is unique: any log in which each trade fires at the first
   * opportunity, and which leaves no later opportunity unused, is the one the
   * backtest produces.
   */
  lemma GreedyLogIsUnique(closes: seq<real>, p: Params, log: seq<Trade>)
    requires AllPositive(closes) && GreedyLog(closes, p, log, |closes|)
    ensures log == Simulate(closes, p).trades
  {
    var trades := Simulate(closes, p).trades;
    SimulateInvariant(closes, p);
    NoExtraTrade(closes, p, log, trades, |closes|);
    NoExtraTrade(closes, p, trades, log, |closes|);
    GreedyPrefix(closes, p, log, trades, |closes|, |log|);
    assert log == log[..|log|] && trades == trades[..|trades|];
  }
}
