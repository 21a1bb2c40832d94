/**
 * ibkr.py: the liquidity filter applied to fetched price history, the stop-loss
 * percentage table and the side and price of the protective stop order.
 * Prices are reals; the rounding to 4 decimals of the stop price is not modelled.
 */
module Ibkr {
  import opened Wrappers
  import opened Builtins

  /** One bar of history as `get_historical_data` delivers it. */
  datatype Bar = Bar(date: string, open: real, high: real, low: real, close: real, volume: real)

  /** Sum of close * volume over the bars, accumulated front to back as in the loop of `getData`. */
  function DollarVolume(bars: seq<Bar>): real
  {
    if bars == [] then 0.0
    else DollarVolume(bars[..|bars| - 1]) + bars[|bars| - 1].close * bars[|bars| - 1].volume
  }

  /** The keep condition of `getData`: data present and average dollar volume strictly above the limit. */
  predicate Liquid(bars: seq<Bar>, limit: real)
  {
    bars != [] && DollarVolume(bars) / |bars| as real > limit
  }

  /** The average test is the total test scaled by the number of bars. */
  lemma LiquidIffTotal(bars: seq<Bar>, limit: real)
    requires bars != []
    ensures Liquid(bars, limit) <==> DollarVolume(bars) > limit * |bars| as real
  {
    var n := |bars| as real;
    var avg := DollarVolume(bars) / n;
    assert DollarVolume(bars) == avg * n;
    if avg > limit {
      assert avg * n - limit * n == (avg - limit) * n;
      assert (avg - limit) * n > 0.0;
    } else {
      assert limit * n - avg * n == (limit - avg) * n;
      assert (limit - avg) * n >= 0.0;
    }
  }

  /**
   * `getData` after the fetch (the fetch itself, `app.get_historical_data`, is
   * the parameter `fetched`; `None` stands for a fetch that returned nothing):
   * the fetched bars come back unchanged when they pass the liquidity test and
   * an empty list otherwise.
   */
  method GetData(fetched: Option<seq<Bar>>, dollarSizeLimit: real) returns (r: seq<Bar>)
    ensures fetched.Some? && Liquid(fetched.value, dollarSizeLimit) ==> r == fetched.value
    ensures !(fetched.Some? && Liquid(fetched.value, dollarSizeLimit)) ==> r == []
  {
    if fetched.None? || fetched.value == [] {
      return [];
    }
    var data := fetched.value;
    var totalDollarVolume := 0.0;
    for i := 0 to |data|
      invariant totalDollarVolume == DollarVolume(data[..i])
    {
      assert data[..i + 1][..i] == data[..i];
      totalDollarVolume := totalDollarVolume + data[i].close * data[i].volume;
    }
    assert data[..|data|] == data;
    var averageDollarVolume := totalDollarVolume / |data| as real;
    if averageDollarVolume > dollarSizeLimit {
      return data;
    }
    return [];
  }

  /** `stop_pct_from_price`: the stop distance, as a fraction of the price, by price band. */
  function StopPct(price: real): (pct: real)
    ensures 0.025 <= pct <= 0.12
  {
    if price < 0.2 then 0.12
    else if price < 0.5 then 0.08
    else if price < 1.0 then 0.06
    else if price < 5.0 then 0.05
    else if price < 10.0 then 0.04
    else if price < 20.0 then 0.03
    else 0.025
  }

  /** Dearer stocks never get a wider stop. */
  lemma StopPctNonIncreasing(p: real, q: real)
    requires p <= q
    ensures StopPct(q) <= StopPct(p)
  {
  }

  /** Each band boundary belongs to the band above it. */
  lemma StopPctBoundaries()
    ensures StopPct(0.2) == 0.08 && StopPct(0.5) == 0.06 && StopPct(1.0) == 0.05
    ensures StopPct(5.0) == 0.04 && StopPct(10.0) == 0.03 && StopPct(20.0) == 0.025
  {
  }

  datatype Side = Buy | Sell

  /** The stop order of `place_stop_loss`, before its price is rounded. */
  datatype Stop = Stop(action: Side, price: real)

  /**
   * `place_stop_loss`: an entry whose action upper-cases to "BUY" is protected
   * by a SELL stop below it; any other action by a BUY stop above it. The stop
   * lies within StopPct of the entry, so within 12%.
   */
  function StopLoss(entryPrice: real, action: string): (s: Stop)
    ensures s.action == Sell <==> Upper(action) == "BUY"
    ensures entryPrice > 0.0 && s.action == Sell ==> entryPrice * 0.88 <= s.price < entryPrice
    ensures entryPrice > 0.0 && s.action == Buy ==> entryPrice < s.price <= entryPrice * 1.12
  {
    var pct := StopPct(entryPrice);
    if Upper(action) == "BUY" then
      assert entryPrice * (1.0 - pct) == entryPrice - entryPrice * pct;
      Stop(Sell, entryPrice * (1.0 - pct))
    else
      assert entryPrice * (1.0 + pct) == entryPrice + entryPrice * pct;
      Stop(Buy, entryPrice * (1.0 + pct))
  }

  /** The stop's distance from the entry is exactly StopPct of the entry. */
  lemma StopDistance(entryPrice: real, action: string)
    ensures StopLoss(entryPrice, action).action == Sell ==>
              entryPrice - StopLoss(entryPrice, action).price == entryPrice * StopPct(entryPrice)
    ensures StopLoss(entryPrice, action).action == Buy ==>
              StopLoss(entryPrice, action).price - entryPrice == entryPrice * StopPct(entryPrice)
  {
    var pct := StopPct(entryPrice);
    assert entryPrice * (1.0 - pct) == entryPrice - entryPrice * pct;
    assert entryPrice * (1.0 + pct) == entryPrice + entryPrice * pct;
  }

  /** Case does not matter to the side: "buy" and "Buy" are treated as "BUY". */
  lemma BuyIsCaseInsensitive()
    ensures StopLoss(10.0, "buy").action == Sell
    ensures StopLoss(10.0, "Buy").action == Sell
    ensures StopLoss(10.0, "SELL").action == Buy
  {
    assert Upper("buy") == "BUY";
    assert Upper("Buy") == "BUY";
    assert Upper("SELL")[0] == 'S';
  }
}
