/** The swing path: one ticker's 15-minute and one-hour candles over one stream of ticks, updated
    together under the ticker's lock. */
module SwingAggregation {
  import opened Extrema
  import opened Wrappers
  import opened Market
  import opened Modular
  import opened Candle

  const QUARTER := 15
  const HOUR := 60

  /* ---- one window size: how the stream is cut ---- */

  /** The runs of ticks of the candles already closed, and the run of the open one. */
  datatype Cuts = Cuts(closed: seq<seq<Tick>>, open: seq<Tick>)

  /** A tick closes the open run when it is at or past the end of that run's window. */
  predicate Expires(open: seq<Tick>, tick: Tick, minutes: int)
    requires minutes > 0
  {
    open != [] && tick.timestamp >= End(open[0].timestamp, minutes)
  }

  function Add(cuts: Cuts, tick: Tick, minutes: int): Cuts
    requires minutes > 0
  {
    if Expires(cuts.open, tick, minutes) then Cuts(cuts.closed + [cuts.open], [tick])
    else cuts.(open := cuts.open + [tick])
  }

  function CutsOf(ticks: seq<Tick>, minutes: int): Cuts
    requires minutes > 0
  {
    if ticks == [] then Cuts([], [])
    else Add(CutsOf(ticks[..|ticks| - 1], minutes), ticks[|ticks| - 1], minutes)
  }

  function Flatten(runs: seq<seq<Tick>>): seq<Tick> {
    if runs == [] then [] else Flatten(runs[..|runs| - 1]) + runs[|runs| - 1]
  }

  lemma FlattenSnoc(runs: seq<seq<Tick>>, run: seq<Tick>)
    ensures Flatten(runs + [run]) == Flatten(runs) + run
  {
    assert (runs + [run])[..|runs|] == runs;
  }

  /** The runs, closed and open, are `ticks` in order, and none is empty. */
  ghost predicate Partition(cuts: Cuts, ticks: seq<Tick>) {
    && Flatten(cuts.closed) + cuts.open == ticks
    && (forall i :: 0 <= i < |cuts.closed| ==> cuts.closed[i] != [])
    && (ticks != [] ==> cuts.open != [])
  }

  lemma AddPartition(cuts: Cuts, ticks: seq<Tick>, tick: Tick, minutes: int)
    requires minutes > 0 && Partition(cuts, ticks)
    ensures Partition(Add(cuts, tick, minutes), ticks + [tick])
  {
    FlattenSnoc(cuts.closed, cuts.open);
    assert Flatten(cuts.closed) + (cuts.open + [tick]) == ticks + [tick];
  }

  lemma CutsSnoc(ticks: seq<Tick>, tick: Tick, minutes: int)
    requires minutes > 0
    ensures CutsOf(ticks + [tick], minutes) == Add(CutsOf(ticks, minutes), tick, minutes)
  {
    assert (ticks + [tick])[..|ticks|] == ticks;
  }

  /** Each tick is in exactly one candle, and each candle is of a contiguous run of arrivals. */
  lemma {:induction false} CutsPartition(ticks: seq<Tick>, minutes: int)
    requires minutes > 0
    ensures Partition(CutsOf(ticks, minutes), ticks)
    decreases |ticks|
  {
    if ticks != [] {
      var before, tick := ticks[..|ticks| - 1], ticks[|ticks| - 1];
      CutsPartition(before, minutes);
      AddPartition(CutsOf(before, minutes), before, tick, minutes);
      assert ticks == before + [tick];
      CutsSnoc(before, tick, minutes);
    }
  }

  /** Successive windows: each run's window starts where the one before has ended, or later, and
      every tick lies before the end of its run's window. */
  ghost predicate Disjoint(runs: seq<seq<Tick>>, minutes: int)
    requires minutes > 0
  {
    && (forall i :: 0 <= i < |runs| ==> runs[i] != [])
    && (forall i, j :: 0 <= i < j < |runs| ==>
          End(runs[i][0].timestamp, minutes) <= Align(runs[j][0].timestamp, minutes))
    && (forall i, k :: 0 <= i < |runs| && 0 <= k < |runs[i]| ==>
          runs[i][k].timestamp < End(runs[i][0].timestamp, minutes))
  }

  /** A tick past the end of a window is in a later window. */
  lemma NextWindow(first: Tick, tick: Tick, minutes: int)
    requires minutes > 0 && tick.timestamp >= End(first.timestamp, minutes)
    ensures End(first.timestamp, minutes) <= Align(tick.timestamp, minutes)
  {
    var w := minutes * MS_PER_MINUTE;
    var q := TruncDiv(first.timestamp, w);
    MultiplesApart(w, q, q);
    assert End(first.timestamp, minutes) == (q + 1) * w;
    AlignPast(tick.timestamp, minutes, q + 1);
  }

  /** A new run after the last one. */
  lemma DisjointSnoc(runs: seq<seq<Tick>>, last: seq<Tick>, tick: Tick, minutes: int)
    requires minutes > 0 && Disjoint(runs + [last], minutes)
    requires last != [] && tick.timestamp >= End(last[0].timestamp, minutes)
    ensures Disjoint((runs + [last]) + [[tick]], minutes)
  {
    var before: seq<seq<Tick>> := runs + [last];
    var after: seq<seq<Tick>> := before + [[tick]];
    NextWindow(last[0], tick, minutes);
    AlignFacts(tick.timestamp, minutes);
    assert before[|runs|] == last;
    forall i, j | 0 <= i < j < |after|
      ensures End(after[i][0].timestamp, minutes) <= Align(after[j][0].timestamp, minutes)
    {
      if j == |before| {
        assert after[i] == before[i];
        assert i < |runs| ==> End(before[i][0].timestamp, minutes) <= Align(before[|runs|][0].timestamp, minutes);
      } else {
        assert after[i] == before[i] && after[j] == before[j];
      }
    }
  }

  /** One more tick in the last run. */
  lemma DisjointGrow(runs: seq<seq<Tick>>, last: seq<Tick>, tick: Tick, minutes: int)
    requires minutes > 0 && Disjoint(runs + [last], minutes)
    requires last != [] && tick.timestamp < End(last[0].timestamp, minutes)
    ensures Disjoint(runs + [last + [tick]], minutes)
  {
    var before: seq<seq<Tick>> := runs + [last];
    var after: seq<seq<Tick>> := runs + [last + [tick]];
    assert before[|runs|] == last && after[|runs|] == last + [tick];
    forall i | 0 <= i < |after| ensures after[i] != [] && after[i][0] == before[i][0] {
      if i < |runs| {
        assert after[i] == before[i];
      }
    }
    forall i, k | 0 <= i < |after| && 0 <= k < |after[i]|
      ensures after[i][k].timestamp < End(after[i][0].timestamp, minutes)
    {
      if i < |runs| || k < |last| {
        assert after[i][k] == before[i][k];
      }
    }
  }

  /** The same of the closed runs followed by the open one. */
  ghost predicate DisjointCuts(cuts: Cuts, minutes: int)
    requires minutes > 0
  {
    Disjoint(cuts.closed + [cuts.open], minutes)
  }

  lemma AddDisjoint(cuts: Cuts, tick: Tick, minutes: int)
    requires minutes > 0 && cuts.open != [] && DisjointCuts(cuts, minutes)
    ensures DisjointCuts(Add(cuts, tick, minutes), minutes)
  {
    if Expires(cuts.open, tick, minutes) {
      DisjointSnoc(cuts.closed, cuts.open, tick, minutes);
    } else {
      DisjointGrow(cuts.closed, cuts.open, tick, minutes);
    }
  }

  lemma FirstDisjoint(tick: Tick, minutes: int)
    requires minutes > 0
    ensures DisjointCuts(CutsOf([tick], minutes), minutes)
  {
    assert [tick][..0] == [] && [] + [tick] == [tick];
    assert CutsOf([tick], minutes) == Cuts([], [tick]);
    AlignFacts(tick.timestamp, minutes);
  }

  /** For any timestamps in any order, the windows of the candles, closed and open, are disjoint and
      strictly increasing, and every tick lies before the end of its window. */
  lemma {:induction false} CutsDisjoint(ticks: seq<Tick>, minutes: int)
    requires minutes > 0 && ticks != []
    ensures DisjointCuts(CutsOf(ticks, minutes), minutes)
    decreases |ticks|
  {
    var before, tick := ticks[..|ticks| - 1], ticks[|ticks| - 1];
    assert ticks == before + [tick];
    if before == [] {
      assert ticks == [tick];
      FirstDisjoint(tick, minutes);
    } else {
      CutsDisjoint(before, minutes);
      CutsPartition(before, minutes);
      AddDisjoint(CutsOf(before, minutes), tick, minutes);
      CutsSnoc(before, tick, minutes);
    }
  }

  /* ---- sorted arrivals ---- */

  predicate Sorted(ticks: seq<Tick>) {
    forall i, j :: 0 <= i < j < |ticks| ==> ticks[i].timestamp <= ticks[j].timestamp
  }

  /** Every tick of every run lies inside its run's window. */
  ghost predicate Inside(runs: seq<seq<Tick>>, minutes: int)
    requires minutes > 0
  {
    forall i, k :: 0 <= i < |runs| && 0 <= k < |runs[i]| ==>
      Align(runs[i][0].timestamp, minutes) <= runs[i][k].timestamp < End(runs[i][0].timestamp, minutes)
  }

  lemma AddInside(cuts: Cuts, tick: Tick, minutes: int)
    requires minutes > 0 && tick.timestamp >= 0
    requires Inside(cuts.closed + [cuts.open], minutes)
    requires cuts.open != [] ==> cuts.open[0].timestamp <= tick.timestamp && cuts.open[0].timestamp >= 0
    ensures var cuts' := Add(cuts, tick, minutes); Inside(cuts'.closed + [cuts'.open], minutes)
  {
    var cuts' := Add(cuts, tick, minutes);
    var before: seq<seq<Tick>> := cuts.closed + [cuts.open];
    var after: seq<seq<Tick>> := cuts'.closed + [cuts'.open];
    AlignFacts(tick.timestamp, minutes);
    if cuts.open != [] {
      AlignFacts(cuts.open[0].timestamp, minutes);
    }
    forall i, k | 0 <= i < |after| && 0 <= k < |after[i]|
      ensures Align(after[i][0].timestamp, minutes) <= after[i][k].timestamp < End(after[i][0].timestamp, minutes)
    {
      if i < |cuts'.closed| {
        assert after[i] == before[i];
      } else if k < |after[i]| - 1 {
        assert before[i] == cuts.open && after[i][k] == before[i][k];
      }
    }
  }

  lemma OpenIsEarlier(before: seq<Tick>, tick: Tick, minutes: int)
    requires minutes > 0
    requires forall i :: 0 <= i < |before| ==> 0 <= before[i].timestamp <= tick.timestamp
    ensures var open := CutsOf(before, minutes).open;
            open != [] ==> 0 <= open[0].timestamp <= tick.timestamp
  {
    CutsPartition(before, minutes);
    var cuts := CutsOf(before, minutes);
    if cuts.open != [] {
      assert before[|Flatten(cuts.closed)|] == cuts.open[0];
    }
  }

  /** With timestamps that never go back and are not negative, every tick lies in the window of its
      candle. */
  lemma {:induction false} SortedInside(ticks: seq<Tick>, minutes: int)
    requires minutes > 0 && Sorted(ticks) && forall i :: 0 <= i < |ticks| ==> ticks[i].timestamp >= 0
    ensures var cuts := CutsOf(ticks, minutes); Inside(cuts.closed + [cuts.open], minutes)
    decreases |ticks|
  {
    if ticks != [] {
      var before, tick := ticks[..|ticks| - 1], ticks[|ticks| - 1];
      assert ticks == before + [tick];
      SortedInside(before, minutes);
      CutsSnoc(before, tick, minutes);
      OpenIsEarlier(before, tick, minutes);
      AddInside(CutsOf(before, minutes), tick, minutes);
    }
  }

  /* ---- conservation ---- */

  function Bars(runs: seq<seq<Tick>>, minutes: int): seq<Bar>
    requires minutes > 0 && forall i :: 0 <= i < |runs| ==> runs[i] != []
  {
    if runs == [] then [] else Bars(runs[..|runs| - 1], minutes) + [BarOf(runs[|runs| - 1], minutes)]
  }

  function VolumeOf(bars: seq<Bar>): real {
    if bars == [] then 0.0 else VolumeOf(bars[..|bars| - 1]) + bars[|bars| - 1].volume
  }

  function CountOf(bars: seq<Bar>): int {
    if bars == [] then 0 else CountOf(bars[..|bars| - 1]) + bars[|bars| - 1].tickCount
  }

  lemma {:induction false} TotalVolumeConcat(a: seq<Tick>, b: seq<Tick>)
    ensures TotalVolume(a + b) == TotalVolume(a) + TotalVolume(b)
    decreases |b|
  {
    if b == [] {
      assert a + b == a;
    } else {
      assert (a + b)[..|a + b| - 1] == a + b[..|b| - 1];
      TotalVolumeConcat(a, b[..|b| - 1]);
    }
  }

  lemma VolumeAround(a: seq<Tick>, x: Tick, b: seq<Tick>)
    ensures TotalVolume(a + [x] + b) == TotalVolume(a + b) + x.volume
  {
    TotalVolumeConcat(a + [x], b);
    TotalVolumeConcat(a, [x]);
    TotalVolumeConcat(a, b);
    assert [x][..0] == [];
  }

  lemma TakeOut<T>(rest: seq<T>, x: T, front: seq<T>, back: seq<T>)
    requires multiset(rest + [x]) == multiset(front + [x] + back)
    ensures multiset(rest) == multiset(front + back)
  {
    assert multiset(front + [x] + back) == multiset(front + back) + multiset{x};
    forall y ensures multiset(rest)[y] == multiset(front + back)[y] {
      assert multiset(rest + [x])[y] == multiset(front + [x] + back)[y];
    }
  }

  /** The total does not depend on the order. */
  lemma {:induction false} VolumeOfPermutation(a: seq<Tick>, b: seq<Tick>)
    requires multiset(a) == multiset(b)
    ensures |a| == |b| && TotalVolume(a) == TotalVolume(b)
    decreases |a|
  {
    assert |a| == |multiset(a)| && |b| == |multiset(b)|;
    if a != [] {
      var rest, x := a[..|a| - 1], a[|a| - 1];
      assert a == rest + [x];
      assert x in multiset(b);
      var k :| 0 <= k < |b| && b[k] == x;
      var front, back := b[..k], b[k + 1..];
      assert b == front + [x] + back;
      TakeOut(rest, x, front, back);
      VolumeOfPermutation(rest, front + back);
      VolumeAround(front, x, back);
    }
  }

  lemma {:induction false} BarsTotals(runs: seq<seq<Tick>>, minutes: int)
    requires minutes > 0 && forall i :: 0 <= i < |runs| ==> runs[i] != []
    ensures VolumeOf(Bars(runs, minutes)) == TotalVolume(Flatten(runs))
    ensures CountOf(Bars(runs, minutes)) == |Flatten(runs)|
    decreases |runs|
  {
    if runs != [] {
      var rest, last := runs[..|runs| - 1], runs[|runs| - 1];
      BarsTotals(rest, minutes);
      TotalVolumeConcat(Flatten(rest), last);
      var bars := Bars(runs, minutes);
      assert bars[..|bars| - 1] == Bars(rest, minutes);
    }
  }

  /** The candles closed so far and the open one together hold every tick's volume, and count every
      tick once. */
  lemma Conservation(ticks: seq<Tick>, minutes: int)
    requires minutes > 0 && ticks != []
    ensures var cuts := CutsOf(ticks, minutes);
            && (forall i :: 0 <= i < |cuts.closed| ==> cuts.closed[i] != []) && cuts.open != []
            && VolumeOf(Bars(cuts.closed, minutes)) + BarOf(cuts.open, minutes).volume == TotalVolume(ticks)
            && CountOf(Bars(cuts.closed, minutes)) + BarOf(cuts.open, minutes).tickCount == |ticks|
  {
    CutsPartition(ticks, minutes);
    var cuts := CutsOf(ticks, minutes);
    BarsTotals(cuts.closed, minutes);
    TotalVolumeConcat(Flatten(cuts.closed), cuts.open);
  }

  /* ---- the two windows together ---- */

  /** Both aggregators of one ticker, with the 15-minute runs closed since the last hour was. */
  datatype State = State(quarters: Cuts, hours: Cuts, pending: seq<seq<Tick>>)

  function StateOf(ticks: seq<Tick>): State {
    if ticks == [] then State(Cuts([], []), Cuts([], []), [])
    else Step(StateOf(ticks[..|ticks| - 1]), ticks[|ticks| - 1])
  }

  function Step(s: State, tick: Tick): State {
    State(Add(s.quarters, tick, QUARTER), Add(s.hours, tick, HOUR),
          if Expires(s.hours.open, tick, HOUR) then []
          else if Expires(s.quarters.open, tick, QUARTER) then s.pending + [s.quarters.open]
          else s.pending)
  }

  /** The candle a tick closes, if it closes one. */
  function Closing(cuts: Cuts, tick: Tick, minutes: int): seq<Bar>
    requires minutes > 0
  {
    if Expires(cuts.open, tick, minutes) then [BarOf(cuts.open, minutes)] else []
  }

  /** What one tick makes the ticker emit: the 15-minute candle first, then the hour. */
  function Emitted(s: State, tick: Tick): seq<Bar> {
    Closing(s.quarters, tick, QUARTER) + Closing(s.hours, tick, HOUR)
  }

  /** Everything emitted, in order. */
  function Log(ticks: seq<Tick>): seq<Bar> {
    if ticks == [] then []
    else Log(ticks[..|ticks| - 1]) + Emitted(StateOf(ticks[..|ticks| - 1]), ticks[|ticks| - 1])
  }

  lemma OneMore(ticks: seq<Tick>, tick: Tick)
    ensures StateOf(ticks + [tick]) == Step(StateOf(ticks), tick)
    ensures Log(ticks + [tick]) == Log(ticks) + Emitted(StateOf(ticks), tick)
  {
    assert (ticks + [tick])[..|ticks|] == ticks;
  }

  /** Merging consecutive candles: first open, highest high, lowest low, last close, summed volume
      and count. */
  datatype Merged = Merged(open: real, high: real, low: real, close: real, volume: real, tickCount: int)

  function Merge(bars: seq<Bar>): Merged
    requires bars != []
  {
    var last := bars[|bars| - 1];
    if |bars| == 1 then Merged(last.open, last.high, last.low, last.close, last.volume, last.tickCount)
    else Extend(Merge(bars[..|bars| - 1]), last)
  }

  function Extend(m: Merged, last: Bar): Merged {
    Merged(m.open, Max(last.high, m.high), Min(last.low, m.low), last.close,
           m.volume + last.volume, m.tickCount + last.tickCount)
  }

  /** The hour is the merge of these 15-minute candles; when `inside` is asked for, their windows lie
      inside its own. */
  predicate IsHourOf(hour: Bar, quarters: seq<Bar>, inside: bool) {
    && quarters != []
    && Merge(quarters) == Merged(hour.open, hour.high, hour.low, hour.close, hour.volume, hour.tickCount)
    && (inside ==> forall i :: 0 <= i < |quarters| ==>
          hour.openTime <= quarters[i].openTime && quarters[i].closeTime <= hour.closeTime)
  }

  /** Reads a log from the start: the 15-minute candles since the last hour, or nothing if some hour
      is not the hour of the 15-minute candles between it and the hour before. */
  function Read(log: seq<Bar>, inside: bool): Option<seq<Bar>> {
    if log == [] then Some([])
    else
      var bar := log[|log| - 1];
      match Read(log[..|log| - 1], inside)
      case None => None
      case Some(quarters) =>
        if bar.windowMinutes == QUARTER then Some(quarters + [bar])
        else if IsHourOf(bar, quarters, inside) then Some([])
        else None
  }

  /* ---- merging ---- */

  lemma {:induction false} HighestConcat(a: seq<Tick>, b: seq<Tick>)
    requires a != [] && b != []
    ensures Highest(a + b) == Max(Highest(b), Highest(a))
    decreases |b|
  {
    var n := |b| - 1;
    assert (a + b)[..|a + b| - 1] == a + b[..n];
    if n == 0 {
      assert a + b[..n] == a;
    } else {
      HighestConcat(a, b[..n]);
    }
  }

  lemma {:induction false} LowestConcat(a: seq<Tick>, b: seq<Tick>)
    requires a != [] && b != []
    ensures Lowest(a + b) == Min(Lowest(b), Lowest(a))
    decreases |b|
  {
    var n := |b| - 1;
    assert (a + b)[..|a + b| - 1] == a + b[..n];
    if n == 0 {
      assert a + b[..n] == a;
    } else {
      LowestConcat(a, b[..n]);
    }
  }

  function MergedOf(ticks: seq<Tick>): Merged
    requires ticks != []
  {
    Merged(ticks[0].price, Highest(ticks), Lowest(ticks), ticks[|ticks| - 1].price, TotalVolume(ticks), |ticks|)
  }

  lemma MergedConcat(a: seq<Tick>, b: seq<Tick>, minutes: int)
    requires minutes > 0 && a != [] && b != []
    ensures MergedOf(a + b) == Extend(MergedOf(a), BarOf(b, minutes))
  {
    HighestConcat(a, b);
    LowestConcat(a, b);
    TotalVolumeConcat(a, b);
  }

  lemma MergeSnoc(bars: seq<Bar>, bar: Bar)
    requires bars != []
    ensures Merge(bars + [bar]) == Extend(Merge(bars), bar)
  {
    assert (bars + [bar])[..|bars|] == bars;
  }

  /** The merge of the candles of consecutive runs is the candle of all their ticks. */
  lemma {:induction false} MergeBars(runs: seq<seq<Tick>>, minutes: int)
    requires minutes > 0 && runs != [] && forall i :: 0 <= i < |runs| ==> runs[i] != []
    ensures Flatten(runs) != [] && Merge(Bars(runs, minutes)) == MergedOf(Flatten(runs))
    decreases |runs|
  {
    var rest, last := runs[..|runs| - 1], runs[|runs| - 1];
    BarsLength(rest, minutes);
    if rest == [] {
      assert Flatten(runs) == last;
    } else {
      MergeBars(rest, minutes);
      MergedConcat(Flatten(rest), last, minutes);
      MergeSnoc(Bars(rest, minutes), BarOf(last, minutes));
    }
  }

  lemma {:induction false} BarsLength(runs: seq<seq<Tick>>, minutes: int)
    requires minutes > 0 && forall i :: 0 <= i < |runs| ==> runs[i] != []
    ensures |Bars(runs, minutes)| == |runs|
    ensures forall i :: 0 <= i < |runs| ==> Bars(runs, minutes)[i] == BarOf(runs[i], minutes)
    decreases |runs|
  {
    if runs != [] {
      BarsLength(runs[..|runs| - 1], minutes);
    }
  }

  /* ---- nesting ---- */

  /** A run that starts at `first` has its 15-minute window inside the hour that starts at `hour`. */
  predicate InHour(first: Tick, hour: Tick) {
    && Align(hour.timestamp, HOUR) <= Align(first.timestamp, QUARTER)
    && End(first.timestamp, QUARTER) <= End(hour.timestamp, HOUR)
  }

  /** Above these, truncation rounds up no further than to the window that starts at 0. */
  const HOUR_FLOOR := -HOUR * MS_PER_MINUTE
  const QUARTER_FLOOR := -QUARTER * MS_PER_MINUTE

  /** The open hour is exactly the 15-minute runs since the last hour, and ends no earlier than the
      open one of them. */
  ghost predicate Together(s: State) {
    && s.hours.open == Flatten(s.pending) + s.quarters.open
    && (s.hours.open != [] ==>
          && s.quarters.open != [] && s.hours.open[0].timestamp > HOUR_FLOOR
          && End(s.quarters.open[0].timestamp, QUARTER) <= End(s.hours.open[0].timestamp, HOUR))
    && (s.hours.open == [] ==> s.pending == [])
    && (forall i :: 0 <= i < |s.pending| ==> s.pending[i] != [])
  }

  /** And the windows of all these runs are inside the hour's. */
  ghost predicate Nested(s: State) {
    && Together(s)
    && (s.hours.open != [] ==>
          InHour(s.quarters.open[0], s.hours.open[0]) && s.hours.open[0].timestamp > QUARTER_FLOOR)
    && (forall i :: 0 <= i < |s.pending| ==> InHour(s.pending[i][0], s.hours.open[0]))
  }

  /** The quarter of a time is one of the four of its hour. */
  lemma QuarterOfHour(timestamp: int, q: int, h: int)
    requires timestamp >= 0 && q == timestamp / 900000 && h == timestamp / 3600000
    ensures 4 * h <= q < 4 * h + 4
  {
    var rest := timestamp - 3600000 * h;
    var r := rest / 900000;
    assert 0 <= r < 4;
    ModuloUnique(timestamp, 900000, 4 * h + r, rest - 900000 * r);
  }

  lemma StartsHour(tick: Tick)
    requires tick.timestamp > QUARTER_FLOOR
    ensures InHour(tick, tick)
  {
    if tick.timestamp >= 0 {
      var q, h := tick.timestamp / 900000, tick.timestamp / 3600000;
      QuarterOfHour(tick.timestamp, q, h);
      assert Align(tick.timestamp, QUARTER) == q * 900000 && Align(tick.timestamp, HOUR) == h * 3600000;
    } else {
      assert Align(tick.timestamp, QUARTER) == 0 && Align(tick.timestamp, HOUR) == 0;
    }
  }

  lemma StartsAtZero(tick: Tick, minutes: int)
    requires minutes > 0 && tick.timestamp > -minutes * MS_PER_MINUTE
    ensures Align(tick.timestamp, minutes) >= 0
  {
    if tick.timestamp >= 0 {
      AlignPast(tick.timestamp, minutes, 0);
    }
  }

  /** A window that starts before a later boundary also ends by then. */
  lemma EndsByBoundary(timestamp: int, w: nat, q: int, k: int)
    requires w * q <= timestamp < w * k
    ensures w * q + w <= w * k
  {
    MultiplesApart(w, q, k);
    if k <= q {
      MonotoneScale(w, k, q);
    }
  }

  lemma NegativeQuarter(timestamp: int)
    requires timestamp < 0
    ensures End(timestamp, QUARTER) <= 900000
  {
  }

  /** Above minus an hour, the 15-minute candle of a tick that an hour takes in ends by that hour's end. */
  lemma EndsInHour(timestamp: int, hour: Tick)
    requires hour.timestamp > HOUR_FLOOR && timestamp < End(hour.timestamp, HOUR)
    ensures End(timestamp, QUARTER) <= End(hour.timestamp, HOUR)
  {
    StartsAtZero(hour, HOUR);
    if timestamp < 0 {
      NegativeQuarter(timestamp);
    } else {
      var q, k := timestamp / 900000, 4 * TruncDiv(hour.timestamp, 3600000) + 4;
      assert Align(timestamp, QUARTER) == 900000 * q && End(hour.timestamp, HOUR) == 900000 * k;
      EndsByBoundary(timestamp, 900000, q, k);
    }
  }

  lemma StaysInHour(tick: Tick, before: Tick, hour: Tick)
    requires hour.timestamp > HOUR_FLOOR && InHour(before, hour)
    requires End(before.timestamp, QUARTER) <= tick.timestamp < End(hour.timestamp, HOUR)
    ensures InHour(tick, hour)
  {
    NextWindow(before, tick, QUARTER);
    EndsInHour(tick.timestamp, hour);
  }

  lemma StepTogether(s: State, tick: Tick)
    requires Together(s) && tick.timestamp > HOUR_FLOOR
    ensures Together(Step(s, tick))
  {
    var s' := Step(s, tick);
    if s.hours.open == [] || Expires(s.hours.open, tick, HOUR) {
      AlignFacts(tick.timestamp, HOUR);
      EndsInHour(tick.timestamp, tick);
      assert s'.hours.open == [tick] && s'.quarters.open == [tick] && s'.pending == [];
    } else if Expires(s.quarters.open, tick, QUARTER) {
      EndsInHour(tick.timestamp, s.hours.open[0]);
      FlattenSnoc(s.pending, s.quarters.open);
      assert s'.hours.open == Flatten(s'.pending) + [tick];
    } else {
      assert s'.hours.open == Flatten(s.pending) + (s.quarters.open + [tick]);
    }
  }

  lemma StepNested(s: State, tick: Tick)
    requires Nested(s) && tick.timestamp > QUARTER_FLOOR
    ensures Nested(Step(s, tick))
  {
    StepTogether(s, tick);
    if s.hours.open == [] || Expires(s.hours.open, tick, HOUR) {
      StartsHour(tick);
    } else if Expires(s.quarters.open, tick, QUARTER) {
      StaysInHour(tick, s.quarters.open[0], s.hours.open[0]);
    }
  }

  predicate AllAfter(ticks: seq<Tick>, bound: int) {
    forall i :: 0 <= i < |ticks| ==> ticks[i].timestamp > bound
  }

  lemma {:induction false} AlwaysTogether(ticks: seq<Tick>)
    requires AllAfter(ticks, HOUR_FLOOR)
    ensures Together(StateOf(ticks))
    decreases |ticks|
  {
    if ticks != [] {
      AlwaysTogether(ticks[..|ticks| - 1]);
      StepTogether(StateOf(ticks[..|ticks| - 1]), ticks[|ticks| - 1]);
    }
  }

  lemma {:induction false} AlwaysNested(ticks: seq<Tick>)
    requires AllAfter(ticks, QUARTER_FLOOR)
    ensures Nested(StateOf(ticks))
    decreases |ticks|
  {
    if ticks != [] {
      AlwaysNested(ticks[..|ticks| - 1]);
      StepNested(StateOf(ticks[..|ticks| - 1]), ticks[|ticks| - 1]);
    }
  }

  /** After any timestamps above minus an hour, and whatever tick comes next: every hour cut is also a
      15-minute cut. */
  lemma HourCutIsQuarterCut(ticks: seq<Tick>, tick: Tick)
    requires AllAfter(ticks, HOUR_FLOOR)
    ensures Expires(StateOf(ticks).hours.open, tick, HOUR) ==> Expires(StateOf(ticks).quarters.open, tick, QUARTER)
  {
    AlwaysTogether(ticks);
  }

  /* ---- every hour is the merge of its 15-minute candles ---- */

  lemma ReadSnoc(log: seq<Bar>, bar: Bar, inside: bool)
    ensures Read(log + [bar], inside) ==
            match Read(log, inside)
            case None => None
            case Some(quarters) =>
              if bar.windowMinutes == QUARTER then Some(quarters + [bar])
              else if IsHourOf(bar, quarters, inside) then Some([])
              else None
  {
    assert (log + [bar])[..|log|] == log;
  }

  lemma BarsSnoc(runs: seq<seq<Tick>>, run: seq<Tick>, minutes: int)
    requires minutes > 0 && run != [] && forall i :: 0 <= i < |runs| ==> runs[i] != []
    ensures Bars(runs + [run], minutes) == Bars(runs, minutes) + [BarOf(run, minutes)]
  {
    assert (runs + [run])[..|runs|] == runs;
  }

  lemma QuarterInside(quarter: seq<Tick>, hour: seq<Tick>)
    requires quarter != [] && hour != [] && InHour(quarter[0], hour[0])
    ensures var q, h := BarOf(quarter, QUARTER), BarOf(hour, HOUR);
            h.openTime <= q.openTime && q.closeTime <= h.closeTime
  {
  }

  lemma HourOfRuns(runs: seq<seq<Tick>>, hour: seq<Tick>, inside: bool)
    requires runs != [] && hour != [] && Flatten(runs) == hour
    requires forall i :: 0 <= i < |runs| ==> runs[i] != [] && (inside ==> InHour(runs[i][0], hour[0]))
    ensures IsHourOf(BarOf(hour, HOUR), Bars(runs, QUARTER), inside)
  {
    MergeBars(runs, QUARTER);
    BarsLength(runs, QUARTER);
    forall i | inside && 0 <= i < |runs|
      ensures var q, h := Bars(runs, QUARTER)[i], BarOf(hour, HOUR);
              h.openTime <= q.openTime && q.closeTime <= h.closeTime
    {
      QuarterInside(runs[i], hour);
    }
  }

  /** The hour that closes is the hour of the 15-minute candles since the last, including the one
      that closes with it. */
  lemma ClosingHour(s: State, tick: Tick, inside: bool)
    requires Together(s) && (inside ==> Nested(s)) && Expires(s.hours.open, tick, HOUR)
    ensures IsHourOf(BarOf(s.hours.open, HOUR), Bars(s.pending + [s.quarters.open], QUARTER), inside)
  {
    var runs := s.pending + [s.quarters.open];
    FlattenSnoc(s.pending, s.quarters.open);
    forall i | 0 <= i < |runs| ensures runs[i] != [] && (inside ==> InHour(runs[i][0], s.hours.open[0])) {
      assert i < |s.pending| ==> runs[i] == s.pending[i];
    }
    HourOfRuns(runs, s.hours.open, inside);
  }

  lemma ReadStep(s: State, tick: Tick, log: seq<Bar>, inside: bool)
    requires Together(s) && (inside ==> Nested(s)) && Read(log, inside) == Some(Bars(s.pending, QUARTER))
    ensures forall i :: 0 <= i < |Step(s, tick).pending| ==> Step(s, tick).pending[i] != []
    ensures Read(log + Emitted(s, tick), inside) == Some(Bars(Step(s, tick).pending, QUARTER))
  {
    if Expires(s.quarters.open, tick, QUARTER) {
      var quarter := BarOf(s.quarters.open, QUARTER);
      ReadSnoc(log, quarter, inside);
      BarsSnoc(s.pending, s.quarters.open, QUARTER);
      if Expires(s.hours.open, tick, HOUR) {
        var hour := BarOf(s.hours.open, HOUR);
        ReadSnoc(log + [quarter], hour, inside);
        ClosingHour(s, tick, inside);
        assert log + Emitted(s, tick) == (log + [quarter]) + [hour];
      }
    } else {
      assert log + Emitted(s, tick) == log;
    }
  }

  /** Above minus an hour, in any order: every hour emitted is the merge of the 15-minute candles
      emitted since the hour before; above minus fifteen minutes their windows are inside its own. */
  lemma {:induction false} HoursMergeQuarters(ticks: seq<Tick>, inside: bool)
    requires AllAfter(ticks, if inside then QUARTER_FLOOR else HOUR_FLOOR)
    ensures Together(StateOf(ticks)) && (inside ==> Nested(StateOf(ticks)))
    ensures Read(Log(ticks), inside) == Some(Bars(StateOf(ticks).pending, QUARTER))
    decreases |ticks|
  {
    if inside {
      AlwaysNested(ticks);
    } else {
      AlwaysTogether(ticks);
    }
    if ticks != [] {
      var before, tick := ticks[..|ticks| - 1], ticks[|ticks| - 1];
      HoursMergeQuarters(before, inside);
      ReadStep(StateOf(before), tick, Log(before), inside);
    }
  }

  /* ---- exactly when ---- */

  function TickAt(timestamp: int): Tick { Tick("", 1.0, 1.0, timestamp) }

  /** In every stream of timestamps above `bound`, every hour cut is also a 15-minute cut. */
  ghost predicate AlwaysCutsTogether(bound: int) {
    forall ticks: seq<Tick>, tick: Tick ::
      AllAfter(ticks, bound) && tick.timestamp > bound && Expires(StateOf(ticks).hours.open, tick, HOUR)
      ==> Expires(StateOf(ticks).quarters.open, tick, QUARTER)
  }

  /** Every stream of timestamps above `bound` emits hours that are the merge of the 15-minute candles
      since the hour before, with their windows inside the hour's when `inside` is asked for. */
  ghost predicate AlwaysMerges(bound: int, inside: bool) {
    forall ticks :: AllAfter(ticks, bound) ==> Read(Log(ticks), inside).Some?
  }

  lemma FirstTick(first: Tick)
    ensures StateOf([first]) == State(Cuts([], [first]), Cuts([], [first]), []) && Log([first]) == []
  {
    OneMore([], first);
    assert [] + [first] == [first];
  }

  lemma SecondTick(first: Tick, second: Tick)
    ensures StateOf([first, second]) == Step(StateOf([first]), second)
    ensures Log([first, second]) == Emitted(StateOf([first]), second)
  {
    FirstTick(first);
    OneMore([first], second);
    assert [first] + [second] == [first, second];
  }

  lemma ThirdTick(first: Tick, second: Tick, third: Tick)
    ensures Log([first, second, third]) == Log([first, second]) + Emitted(StateOf([first, second]), third)
  {
    OneMore([first, second], third);
    assert [first, second] + [third] == [first, second, third];
  }

  lemma ReadTwo(quarter: Bar, hour: Bar, inside: bool)
    requires quarter.windowMinutes == QUARTER && hour.windowMinutes == HOUR
    ensures Read([quarter, hour], inside).Some? <==> IsHourOf(hour, [quarter], inside)
  {
    ReadSnoc([], quarter, inside);
    ReadSnoc([quarter], hour, inside);
    assert [] + [quarter] == [quarter] && [quarter] + [hour] == [quarter, hour];
  }

  lemma FloorStates(first: Tick, second: Tick)
    requires first == TickAt(HOUR_FLOOR) && second == TickAt(-1)
    ensures StateOf([first, second]) == State(Cuts([[first]], [second]), Cuts([], [first, second]), [[first]])
    ensures Log([first, second]) == [BarOf([first], QUARTER)]
  {
    FirstTick(first);
    SecondTick(first, second);
    assert End(first.timestamp, QUARTER) == -2700000 && End(first.timestamp, HOUR) == 0;
  }

  lemma OneIsNotTwo(first: Tick, second: Tick)
    ensures !IsHourOf(BarOf([first, second], HOUR), [BarOf([first], QUARTER)], false)
  {
    var quarters := [BarOf([first], QUARTER)];
    assert Merge(quarters).tickCount == 1;
  }

  lemma FloorCuts(first: Tick, second: Tick, late: Tick)
    requires first == TickAt(HOUR_FLOOR) && second == TickAt(-1) && late == TickAt(0)
    ensures Expires([first, second], late, HOUR) && !Expires([second], late, QUARTER)
  {
    assert End(first.timestamp, HOUR) == 0 && End(second.timestamp, QUARTER) == 900000;
  }

  /** With negative timestamps truncation rounds the other way, and an hour can close between two
      15-minute cuts: here the third tick closes the hour, of two ticks, and not the 15-minute candle;
      the one emitted before it holds the first tick only. */
  lemma HourFloorBreaksMerging(first: Tick, second: Tick, late: Tick)
    requires first == TickAt(HOUR_FLOOR) && second == TickAt(-1) && late == TickAt(0)
    ensures var s := StateOf([first, second]);
            Expires(s.hours.open, late, HOUR) && !Expires(s.quarters.open, late, QUARTER)
    ensures Read(Log([first, second, late]), false) == None
  {
    FloorStates(first, second);
    FloorCuts(first, second, late);
    ThirdTick(first, second, late);
    var quarter, hour := BarOf([first], QUARTER), BarOf([first, second], HOUR);
    assert Log([first, second, late]) == [quarter, hour];
    ReadTwo(quarter, hour, false);
    OneIsNotTwo(first, second);
  }

  lemma FloorLog(first: Tick, second: Tick)
    requires first == TickAt(QUARTER_FLOOR) && second == TickAt(-HOUR_FLOOR)
    ensures Log([first, second]) == [BarOf([first], QUARTER), BarOf([first], HOUR)]
  {
    FirstTick(first);
    SecondTick(first, second);
    assert End(first.timestamp, QUARTER) == 0 && End(first.timestamp, HOUR) == 3600000;
  }

  /** A tick at minus fifteen minutes opens an hour that starts at 0 and a 15-minute candle that starts
      before. The hour is still the merge. */
  lemma QuarterFloorBreaksContainment(first: Tick, second: Tick)
    requires first == TickAt(QUARTER_FLOOR) && second == TickAt(-HOUR_FLOOR)
    ensures Read(Log([first, second]), true) == None && Read(Log([first, second]), false).Some?
  {
    FloorLog(first, second);
    var quarter, hour := BarOf([first], QUARTER), BarOf([first], HOUR);
    ReadTwo(quarter, hour, true);
    ReadTwo(quarter, hour, false);
    assert quarter.openTime == -900000 && hour.openTime == 0;
  }

  /** Hours are cut only where 15-minute candles are, in every stream above a bound, exactly when that
      bound is no lower than minus an hour. */
  lemma AlwaysCutsTogetherIff(bound: int)
    ensures AlwaysCutsTogether(bound) <==> bound >= -3600000
  {
    if bound >= HOUR_FLOOR {
      forall ticks, tick | AllAfter(ticks, bound) && Expires(StateOf(ticks).hours.open, tick, HOUR)
        ensures Expires(StateOf(ticks).quarters.open, tick, QUARTER)
      {
        HourCutIsQuarterCut(ticks, tick);
      }
    } else {
      var first, second, late := TickAt(HOUR_FLOOR), TickAt(-1), TickAt(0);
      HourFloorBreaksMerging(first, second, late);
      assert AllAfter([first, second], bound);
    }
  }

  lemma MergesAbove(bound: int, inside: bool)
    requires bound >= if inside then QUARTER_FLOOR else HOUR_FLOOR
    ensures AlwaysMerges(bound, inside)
  {
    forall ticks | AllAfter(ticks, bound) ensures Read(Log(ticks), inside).Some? {
      HoursMergeQuarters(ticks, inside);
    }
  }

  lemma BrokenBy(ticks: seq<Tick>, bound: int, inside: bool)
    requires AllAfter(ticks, bound) && Read(Log(ticks), inside) == None
    ensures !AlwaysMerges(bound, inside)
  {
  }

  lemma BreaksBelow(bound: int, inside: bool)
    requires bound < if inside then QUARTER_FLOOR else HOUR_FLOOR
    ensures !AlwaysMerges(bound, inside)
  {
    if inside {
      var first, second := TickAt(QUARTER_FLOOR), TickAt(-HOUR_FLOOR);
      QuarterFloorBreaksContainment(first, second);
      BrokenBy([first, second], bound, true);
    } else {
      var first, second, late := TickAt(HOUR_FLOOR), TickAt(-1), TickAt(0);
      HourFloorBreaksMerging(first, second, late);
      BrokenBy([first, second, late], bound, false);
    }
  }

  /** Hours are the merge of their 15-minute candles in every stream above a bound exactly when that
      bound is no lower than minus an hour; and contain their windows too exactly when it is no lower
      than minus fifteen minutes. */
  lemma AlwaysMergesIff(bound: int, inside: bool)
    ensures AlwaysMerges(bound, inside) <==> bound >= if inside then -900000 else -3600000
  {
    if bound >= if inside then QUARTER_FLOOR else HOUR_FLOOR {
      MergesAbove(bound, inside);
    } else {
      BreaksBelow(bound, inside);
    }
  }

  /* ---- each window on its own ---- */

  lemma {:induction false} StateIsCuts(ticks: seq<Tick>)
    ensures StateOf(ticks).quarters == CutsOf(ticks, QUARTER) && StateOf(ticks).hours == CutsOf(ticks, HOUR)
    decreases |ticks|
  {
    if ticks != [] {
      StateIsCuts(ticks[..|ticks| - 1]);
    }
  }

  /** The candles of one window size among those emitted. */
  function OfWindow(log: seq<Bar>, minutes: int): seq<Bar> {
    if log == [] then []
    else
      var n := |log| - 1;
      OfWindow(log[..n], minutes) + (if log[n].windowMinutes == minutes then [log[n]] else [])
  }

  lemma {:induction false} OfWindowConcat(a: seq<Bar>, b: seq<Bar>, minutes: int)
    ensures OfWindow(a + b, minutes) == OfWindow(a, minutes) + OfWindow(b, minutes)
    decreases |b|
  {
    if b == [] {
      assert a + b == a;
    } else {
      assert (a + b)[..|a + b| - 1] == a + b[..|b| - 1];
      OfWindowConcat(a, b[..|b| - 1], minutes);
    }
  }

  lemma EmittedOfWindow(s: State, tick: Tick, minutes: int)
    requires minutes == QUARTER || minutes == HOUR
    ensures OfWindow(Emitted(s, tick), minutes)
            == if minutes == QUARTER then Closing(s.quarters, tick, QUARTER) else Closing(s.hours, tick, HOUR)
  {
    var quarter, hour := Closing(s.quarters, tick, QUARTER), Closing(s.hours, tick, HOUR);
    OfWindowConcat(quarter, hour, minutes);
    assert quarter != [] ==> quarter[..0] == [];
    assert hour != [] ==> hour[..0] == [];
  }

  /** The candles a window size emits are those of its closed runs, one each, in order: the other
      window size does not disturb it. */
  lemma {:induction false} LogOfWindow(ticks: seq<Tick>, minutes: int)
    requires minutes == QUARTER || minutes == HOUR
    ensures Partition(CutsOf(ticks, minutes), ticks)
    ensures OfWindow(Log(ticks), minutes) == Bars(CutsOf(ticks, minutes).closed, minutes)
    decreases |ticks|
  {
    CutsPartition(ticks, minutes);
    if ticks != [] {
      var before, tick := ticks[..|ticks| - 1], ticks[|ticks| - 1];
      LogOfWindow(before, minutes);
      StateIsCuts(before);
      var s, cuts := StateOf(before), CutsOf(before, minutes);
      OfWindowConcat(Log(before), Emitted(s, tick), minutes);
      EmittedOfWindow(s, tick, minutes);
      if Expires(cuts.open, tick, minutes) {
        BarsSnoc(cuts.closed, cuts.open, minutes);
      }
    }
  }

  /* ---- the locked state ---- */

  class SwingTickerState {
    const candle15m: Candle
    const candle1h: Candle
    var active15m: bool
    var active1h: bool
    ghost var ticks: seq<Tick>  // every tick of the ticker

    /** A candle tracks an open run: inactive while the run is empty. */
    ghost predicate Tracks(candle: Candle, active: bool, open: seq<Tick>, minutes: int)
      reads candle
    {
      && (active <==> open != [])
      && (active ==> candle.Valid() && candle.ticks == open && candle.windowMinutes == minutes)
    }

    ghost predicate Valid()
      reads this, candle15m, candle1h
    {
      && candle15m != candle1h
      && Tracks(candle15m, active15m, StateOf(ticks).quarters.open, QUARTER)
      && Tracks(candle1h, active1h, StateOf(ticks).hours.open, HOUR)
    }

    constructor ()
      ensures Valid() && ticks == [] && fresh(candle15m) && fresh(candle1h)
    {
      candle15m := new Candle();
      candle1h := new Candle();
      active15m, active1h := false, false;
      ticks := [];
    }

    /** One window size's part of the update. */
    method Advance(candle: Candle, active: bool, ghost cuts: Cuts, tick: Tick, minutes: int)
      returns (emitted: seq<Bar>)
      requires minutes > 0 && Tracks(candle, active, cuts.open, minutes)
      modifies candle
      ensures Tracks(candle, true, Add(cuts, tick, minutes).open, minutes)
      ensures emitted == Closing(cuts, tick, minutes)
    {
      emitted := [];
      if !active {
        candle.Reset(tick, minutes);
        assert cuts.open + [tick] == [tick];
      } else if candle.IsExpired(tick.timestamp) {
        emitted := [candle.Snapshot()];
        candle.Reset(tick, minutes);
      } else {
        candle.Update(tick);
      }
    }

    /** `update_swing_state`, under the lock. */
    method Update(tick: Tick) returns (emitted: seq<Bar>)
      requires Valid()
      modifies this, candle15m, candle1h
      ensures Valid() && ticks == old(ticks) + [tick]
      ensures emitted == Emitted(StateOf(old(ticks)), tick)
      ensures Log(ticks) == Log(old(ticks)) + emitted
    {
      ghost var s := StateOf(ticks);
      OneMore(ticks, tick);
      var quarter := Advance(candle15m, active15m, s.quarters, tick, QUARTER);
      active15m := true;
      var hour := Advance(candle1h, active1h, s.hours, tick, HOUR);
      active1h := true;
      emitted := quarter + hour;
      ticks := ticks + [tick];
    }
  }
}
