/**
 * The volatility estimator of the support/resistance finder: the true range of
 * every bar, its simple rolling mean (the Average True Range) and the mean of
 * the defined ATR values, which becomes the tolerance basis of the zone detector.
 */
module Volatility {
  import opened Wrappers

  /** One OHLC bar; its timestamp is its position in the series. */
  datatype Bar = Bar(open: real, high: real, low: real, close: real)

  function Abs(x: real): real
  {
    if x < 0.0 then -x else x
  }

  /**
   * True range of bar i: the largest of high - low, |high - previous close| and
   * |low - previous close|. Bar 0 has no previous close; the two columns built
   * from it are NaN there and the row-wise maximum skips them, leaving high - low.
   */
  function TrueRange(bars: seq<Bar>, i: nat): (tr: real)
    requires i < |bars|
    ensures tr >= bars[i].high - bars[i].low
    ensures i > 0 ==> tr >= Abs(bars[i].high - bars[i - 1].close)
    ensures i > 0 ==> tr >= Abs(bars[i].low - bars[i - 1].close)
    ensures tr == bars[i].high - bars[i].low
         || (i > 0 && (tr == Abs(bars[i].high - bars[i - 1].close) || tr == Abs(bars[i].low - bars[i - 1].close)))
    ensures bars[i].high >= bars[i].low ==> tr >= 0.0
  {
    var highLow := bars[i].high - bars[i].low;
    if i == 0 then highLow
    else
      var highPrevClose := Abs(bars[i].high - bars[i - 1].close);
      var lowPrevClose := Abs(bars[i].low - bars[i - 1].close);
      if highLow >= highPrevClose && highLow >= lowPrevClose then highLow
      else if highPrevClose >= lowPrevClose then highPrevClose
      else lowPrevClose
  }

  /** The true-range column, one entry per bar. */
  function TrueRanges(bars: seq<Bar>): (trs: seq<real>)
    ensures |trs| == |bars|
    ensures forall i :: 0 <= i < |bars| ==> trs[i] == TrueRange(bars, i)
  {
    seq(|bars|, i requires 0 <= i < |bars| => TrueRange(bars, i))
  }

  function Sum(s: seq<real>): real
  {
    if s == [] then 0.0 else s[0] + Sum(s[1..])
  }

  /** Arithmetic mean of a non-empty series (pandas `mean`). */
  function Mean(s: seq<real>): real
    requires |s| > 0
  {
    Sum(s) / |s| as real
  }

  predicate AllAtLeast(s: seq<real>, lo: real)
  {
    forall i :: 0 <= i < |s| ==> lo <= s[i]
  }

  predicate AllAtMost(s: seq<real>, hi: real)
  {
    forall i :: 0 <= i < |s| ==> s[i] <= hi
  }

  lemma {:induction false} SumAtLeast(s: seq<real>, lo: real)
    requires AllAtLeast(s, lo)
    ensures |s| as real * lo <= Sum(s)
  {
    if s != [] {
      assert AllAtLeast(s[1..], lo);
      SumAtLeast(s[1..], lo);
      assert |s| as real * lo == |s[1..]| as real * lo + lo;
    }
  }

  lemma {:induction false} SumAtMost(s: seq<real>, hi: real)
    requires AllAtMost(s, hi)
    ensures Sum(s) <= |s| as real * hi
  {
    if s != [] {
      assert AllAtMost(s[1..], hi);
      SumAtMost(s[1..], hi);
      assert |s| as real * hi == |s[1..]| as real * hi + hi;
    }
  }

  lemma {:induction false} SumPositive(s: seq<real>)
    requires |s| > 0 && forall i :: 0 <= i < |s| ==> s[i] > 0.0
    ensures Sum(s) > 0.0
  {
    if |s| > 1 {
      SumPositive(s[1..]);
    } else {
      assert s[1..] == [];
    }
  }

  lemma QuotientAtLeast(total: real, n: real, lo: real)
    requires n > 0.0 && n * lo <= total
    ensures lo <= total / n
  {
    assert total / n * n == total;
    assert (total / n - lo) * n == total - n * lo;
  }

  lemma QuotientAtMost(total: real, n: real, hi: real)
    requires n > 0.0 && total <= n * hi
    ensures total / n <= hi
  {
    assert total / n * n == total;
    assert (hi - total / n) * n == n * hi - total;
  }

  /** A mean lies between any lower and upper bound of its terms. */
  lemma MeanBounds(s: seq<real>, lo: real, hi: real)
    requires |s| > 0
    ensures AllAtLeast(s, lo) ==> lo <= Mean(s)
    ensures AllAtMost(s, hi) ==> Mean(s) <= hi
  {
    if AllAtLeast(s, lo) {
      SumAtLeast(s, lo);
      QuotientAtLeast(Sum(s), |s| as real, lo);
    }
    if AllAtMost(s, hi) {
      SumAtMost(s, hi);
      QuotientAtMost(Sum(s), |s| as real, hi);
    }
  }

  /** The true ranges of the `period` bars ending at bar i. */
  function Window(bars: seq<Bar>, period: nat, i: nat): (w: seq<real>)
    requires 1 <= period <= i + 1 && i < |bars|
    ensures |w| == period
    ensures forall k :: 0 <= k < period ==> w[k] == TrueRange(bars, i - period + 1 + k)
  {
    TrueRanges(bars)[i - period + 1 .. i + 1]
  }

  /**
   * Average True Range: a series as long as the bars whose first period - 1
   * entries are undefined (a rolling window needs `period` samples) and whose
   * entry i is the mean true range of bars i - period + 1 .. i.
   */
  function Atr(bars: seq<Bar>, period: nat): (atr: seq<Option<real>>)
    requires period >= 1
    ensures |atr| == |bars|
    ensures forall i :: 0 <= i < |bars| ==> (atr[i].Some? <==> i >= period - 1)
    ensures forall i :: period - 1 <= i < |bars| ==> atr[i] == Some(Mean(Window(bars, period, i)))
  {
    seq(|bars|, i requires 0 <= i < |bars| =>
      if i < period - 1 then None else Some(Mean(Window(bars, period, i))))
  }

  /** Every defined ATR entry lies between the least and the greatest true range of its window. */
  lemma AtrWithinWindow(bars: seq<Bar>, period: nat, i: nat, lo: real, hi: real)
    requires 1 <= period <= i + 1 && i < |bars|
    requires forall k :: i - period + 1 <= k <= i ==> lo <= TrueRange(bars, k) <= hi
    ensures Atr(bars, period)[i].Some?
    ensures lo <= Atr(bars, period)[i].value <= hi
  {
    var w := Window(bars, period, i);
    assert AllAtLeast(w, lo) && AllAtMost(w, hi) by {
      forall k | 0 <= k < period ensures lo <= w[k] <= hi {
        assert w[k] == TrueRange(bars, i - period + 1 + k);
      }
    }
    MeanBounds(w, lo, hi);
  }

  /** With high >= low on every bar, every defined ATR entry is non-negative. */
  lemma AtrNonNegative(bars: seq<Bar>, period: nat, i: nat)
    requires period >= 1 && i < |bars|
    requires forall k :: 0 <= k < |bars| ==> bars[k].low <= bars[k].high
    ensures Atr(bars, period)[i].Some? ==> Atr(bars, period)[i].value >= 0.0
  {
    if i >= period - 1 {
      var w := Window(bars, period, i);
      assert AllAtLeast(w, 0.0) by {
        forall k | 0 <= k < period ensures 0.0 <= w[k] {
          assert w[k] == TrueRange(bars, i - period + 1 + k);
        }
      }
      MeanBounds(w, 0.0, 0.0);
    }
  }

  /** The defined entries of a series, in order (pandas skips NaN in `mean`). */
  function Defined(s: seq<Option<real>>): (d: seq<real>)
    ensures |d| <= |s|
    ensures forall x :: x in d <==> Some(x) in s
  {
    if s == [] then []
    else (if s[0].Some? then [s[0].value] else []) + Defined(s[1..])
  }

  /**
   * A series whose first `undefined` entries are undefined and the rest defined:
   * the values averaged are the defined entries, each once and in order.
   */
  lemma {:induction false} DefinedCount(s: seq<Option<real>>, undefined: nat)
    requires undefined <= |s|
    requires forall i :: 0 <= i < |s| ==> (s[i].Some? <==> i >= undefined)
    ensures |Defined(s)| == |s| - undefined
    ensures Defined(s) == seq(|s| - undefined, j requires 0 <= j < |s| - undefined => s[undefined + j].value)
  {
    if s != [] {
      if undefined == 0 {
        DefinedCount(s[1..], 0);
        assert Defined(s) == [s[0].value] + Defined(s[1..]);
      } else {
        DefinedCount(s[1..], undefined - 1);
        assert Defined(s) == Defined(s[1..]);
      }
    }
  }

  /**
   * The mean of the defined ATR entries; undefined (NaN in the source) when the
   * series is shorter than the period, as then no entry is defined.
   */
  function AverageAtr(bars: seq<Bar>, period: nat): (avg: Option<real>)
    requires period >= 1
    ensures avg.Some? <==> |bars| >= period
    ensures avg.Some? ==>
      avg.value == Mean(seq(|bars| - period + 1, j requires 0 <= j < |bars| - period + 1 =>
                                                      Mean(Window(bars, period, period - 1 + j))))
  {
    var atr := Atr(bars, period);
    var defined := Defined(atr);
    DefinedCount(atr, if |bars| >= period then period - 1 else |bars|);
    DefinedAtr(bars, period);
    if |defined| == 0 then None else Some(Mean(defined))
  }

  /** The defined ATR entries are the window means of bars period - 1 .. |bars| - 1, in order. */
  lemma DefinedAtr(bars: seq<Bar>, period: nat)
    requires period >= 1
    ensures |bars| >= period ==>
              Defined(Atr(bars, period))
              == seq(|bars| - period + 1, j requires 0 <= j < |bars| - period + 1 => Mean(Window(bars, period, period - 1 + j)))
  {
    if |bars| >= period {
      DefinedCount(Atr(bars, period), period - 1);
    }
  }

  /** The average ATR lies between any bounds of all the true ranges; in particular it is non-negative. */
  lemma AverageAtrBounds(bars: seq<Bar>, period: nat, lo: real, hi: real)
    requires period >= 1
    requires forall k :: 0 <= k < |bars| ==> lo <= TrueRange(bars, k) <= hi
    ensures AverageAtr(bars, period).Some? ==> lo <= AverageAtr(bars, period).value <= hi
  {
    var atr := Atr(bars, period);
    var defined := Defined(atr);
    if |defined| > 0 {
      assert AllAtLeast(defined, lo) && AllAtMost(defined, hi) by {
        forall k | 0 <= k < |defined| ensures lo <= defined[k] <= hi {
          assert defined[k] in defined;
          var i :| 0 <= i < |atr| && atr[i] == Some(defined[k]);
          AtrWithinWindow(bars, period, i, lo, hi);
        }
      }
      MeanBounds(defined, lo, hi);
    }
  }
}
