/** Candles: the streaming open-high-low-close-volume record, and what it says of its ticks. */
module Candle {
  import opened Extrema
  import opened Market
  import opened Modular

  const MS_PER_MINUTE := 60000

  /** A copy of a candle's fields, as a signal carries it. */
  datatype Bar = Bar(ticker: string, open: real, high: real, low: real, close: real, volume: real,
                     openTime: int, closeTime: int, tickCount: int, windowMinutes: int)

  /** Integer division as the source's language does it: toward zero. */
  function TruncDiv(x: int, d: int): int
    requires d > 0
  {
    if x >= 0 then x / d else -((-x) / d)
  }

  /** The window start of a timestamp. */
  function Align(timestamp: int, minutes: int): int
    requires minutes > 0
  {
    TruncDiv(timestamp, minutes * MS_PER_MINUTE) * (minutes * MS_PER_MINUTE)
  }

  /** The window end of the candle whose first tick has this timestamp. */
  function End(timestamp: int, minutes: int): int
    requires minutes > 0
  {
    Align(timestamp, minutes) + minutes * MS_PER_MINUTE
  }

  function Highest(ticks: seq<Tick>): real
    requires ticks != []
  {
    if |ticks| == 1 then ticks[0].price
    else Max(ticks[|ticks| - 1].price, Highest(ticks[..|ticks| - 1]))
  }

  function Lowest(ticks: seq<Tick>): real
    requires ticks != []
  {
    if |ticks| == 1 then ticks[0].price
    else Min(ticks[|ticks| - 1].price, Lowest(ticks[..|ticks| - 1]))
  }

  function TotalVolume(ticks: seq<Tick>): real {
    if ticks == [] then 0.0 else TotalVolume(ticks[..|ticks| - 1]) + ticks[|ticks| - 1].volume
  }

  /** The candle of a run of ticks, whatever order they were taken in. */
  function BarOf(ticks: seq<Tick>, minutes: int): Bar
    requires ticks != [] && minutes > 0
  {
    Bar(ticks[0].ticker, ticks[0].price, Highest(ticks), Lowest(ticks), ticks[|ticks| - 1].price,
        TotalVolume(ticks), Align(ticks[0].timestamp, minutes), End(ticks[0].timestamp, minutes),
        |ticks|, minutes)
  }

  /** High and low are attained and bound every price, so they bound open and close. */
  lemma {:induction false} HighLow(ticks: seq<Tick>)
    requires ticks != []
    ensures forall i :: 0 <= i < |ticks| ==> Lowest(ticks) <= ticks[i].price <= Highest(ticks)
    ensures exists i :: 0 <= i < |ticks| && ticks[i].price == Highest(ticks)
    ensures exists i :: 0 <= i < |ticks| && ticks[i].price == Lowest(ticks)
    decreases |ticks|
  {
    var n := |ticks| - 1;
    if n == 0 {
      assert ticks[0].price == Highest(ticks) == Lowest(ticks);
    } else {
      var rest := ticks[..n];
      HighLow(rest);
      var i :| 0 <= i < n && rest[i].price == Highest(rest);
      var j :| 0 <= j < n && rest[j].price == Lowest(rest);
      var i' := if ticks[n].price > Highest(rest) then n else i;
      var j' := if ticks[n].price < Lowest(rest) then n else j;
      assert ticks[i'].price == Highest(ticks);
      assert ticks[j'].price == Lowest(ticks);
      forall k | 0 <= k < |ticks| ensures Lowest(ticks) <= ticks[k].price <= Highest(ticks) {
        if k < n {
          assert Lowest(rest) <= rest[k].price <= Highest(rest);
        }
      }
    }
  }

  /* ---- window alignment ---- */

  /** A window start is a multiple of the window; the window ends after the timestamp it was made
      for; and it begins no later than that exactly when truncation did not round up. */
  lemma AlignFacts(timestamp: int, minutes: int)
    requires minutes > 0
    ensures Align(timestamp, minutes) % (minutes * 60000) == 0
    ensures timestamp < End(timestamp, minutes) == Align(timestamp, minutes) + minutes * 60000
    ensures Align(timestamp, minutes) <= timestamp
            <==> timestamp >= 0 || timestamp % (minutes * 60000) == 0
  {
    var w := minutes * MS_PER_MINUTE;
    var q := TruncDiv(timestamp, w);
    ModuloUnique(q * w, w, q, 0);
    if timestamp < 0 {
      var r := (-timestamp) % w;
      assert -timestamp == w * ((-timestamp) / w) + r;
      assert timestamp == w * q - r;
      if r == 0 {
        ModuloUnique(timestamp, w, q, 0);
      } else {
        assert timestamp == w * (q - 1) + (w - r);
        ModuloUnique(timestamp, w, q - 1, w - r);
      }
    }
  }

  /** A timestamp at or after a multiple of the window starts its own window there or later. */
  lemma AlignPast(timestamp: int, minutes: int, k: int)
    requires minutes > 0 && timestamp >= k * (minutes * MS_PER_MINUTE)
    ensures Align(timestamp, minutes) >= k * (minutes * MS_PER_MINUTE)
  {
    var w := minutes * MS_PER_MINUTE;
    var q := TruncDiv(timestamp, w);
    AlignFacts(timestamp, minutes);
    MultiplesApart(w, q, k);
  }

  /* ---- the record ---- */

  class Candle {
    var ticker: string
    var open: real
    var high: real
    var low: real
    var close: real
    var volume: real
    var openTime: int
    var closeTime: int
    var tickCount: int
    var windowMinutes: int
    ghost var ticks: seq<Tick>  // what the candle has taken in since its last reset

    function Snapshot(): Bar
      reads this
    {
      Bar(ticker, open, high, low, close, volume, openTime, closeTime, tickCount, windowMinutes)
    }

    ghost predicate Valid()
      reads this
    {
      windowMinutes > 0 && ticks != [] && Snapshot() == BarOf(ticks, windowMinutes)
    }

    /** A candle before its first reset. */
    constructor ()
    {
    }

    method Reset(first: Tick, windowMin: int)
      requires windowMin > 0
      modifies this
      ensures Valid() && ticks == [first] && windowMinutes == windowMin
    {
      ticker := first.ticker;
      open, high, low, close := first.price, first.price, first.price, first.price;
      volume := first.volume;
      tickCount := 1;
      windowMinutes := windowMin;
      var windowMs := windowMin * MS_PER_MINUTE;
      openTime := TruncDiv(first.timestamp, windowMs) * windowMs;
      closeTime := openTime + windowMs;
      ticks := [first];
      assert openTime == Align(first.timestamp, windowMin);
      assert closeTime == End(first.timestamp, windowMin);
      assert TotalVolume(ticks) == TotalVolume(ticks[..0]) + first.volume;
      assert ticks[..0] == [];
    }

    method Update(tick: Tick)
      requires Valid()
      modifies this
      ensures Valid() && ticks == old(ticks) + [tick] && windowMinutes == old(windowMinutes)
    {
      if tick.price > high { high := tick.price; }
      if tick.price < low { low := tick.price; }
      close := tick.price;
      volume := volume + tick.volume;
      tickCount := tickCount + 1;
      ticks := ticks + [tick];
      assert ticks[..|ticks| - 1] == old(ticks);
    }

    function IsExpired(timestamp: int): (expired: bool)
      requires Valid()
      reads this
      ensures expired <==> timestamp >= End(ticks[0].timestamp, windowMinutes)
    {
      timestamp >= closeTime
    }
  }
}
