/** Market ticks, and the sub-stream of one ticker. */
module Market {

  datatype Tick = Tick(ticker: string, price: real, volume: real, timestamp: int)

  /** The ticks of one ticker, in order. */
  function Project(ticks: seq<Tick>, ticker: string): seq<Tick> {
    if ticks == [] then []
    else
      var n := |ticks| - 1;
      Project(ticks[..n], ticker) + (if ticks[n].ticker == ticker then [ticks[n]] else [])
  }

  function Volumes(ticks: seq<Tick>): (vs: seq<real>)
    ensures |vs| == |ticks|
  {
    seq(|ticks|, i requires 0 <= i < |ticks| => ticks[i].volume)
  }

  function Prices(ticks: seq<Tick>): (ps: seq<real>)
    ensures |ps| == |ticks|
  {
    seq(|ticks|, i requires 0 <= i < |ticks| => ticks[i].price)
  }

  lemma ProjectSnoc(ticks: seq<Tick>, tick: Tick, ticker: string)
    ensures Project(ticks + [tick], ticker)
            == Project(ticks, ticker) + (if tick.ticker == ticker then [tick] else [])
  {
    assert (ticks + [tick])[..|ticks|] == ticks;
  }

  lemma {:induction false} ProjectsOwn(ticks: seq<Tick>, ticker: string)
    ensures forall x :: x in Project(ticks, ticker) <==> x in ticks && x.ticker == ticker
    decreases |ticks|
  {
    if ticks != [] {
      var n := |ticks| - 1;
      ProjectsOwn(ticks[..n], ticker);
      assert ticks == ticks[..n] + [ticks[n]];
    }
  }

  lemma {:induction false} ProjectCounts(ticks: seq<Tick>, ticker: string, x: Tick)
    ensures multiset(Project(ticks, ticker))[x] == if x.ticker == ticker then multiset(ticks)[x] else 0
    decreases |ticks|
  {
    if ticks != [] {
      var n := |ticks| - 1;
      ProjectCounts(ticks[..n], ticker, x);
      assert ticks == ticks[..n] + [ticks[n]];
    }
  }

  /** Of a whole in two parts, one without a ticker, the ticker's ticks are in the other. */
  lemma ProjectsOther(whole: seq<Tick>, part: seq<Tick>, other: seq<Tick>, ticker: string)
    requires multiset(whole) == multiset(part) + multiset(other)
    requires forall x :: x in other ==> x.ticker != ticker
    ensures multiset(Project(whole, ticker)) == multiset(Project(part, ticker))
  {
    forall x: Tick ensures multiset(Project(whole, ticker))[x] == multiset(Project(part, ticker))[x] {
      ProjectCounts(whole, ticker, x);
      ProjectCounts(part, ticker, x);
      assert x in other <==> x in multiset(other);
      assert multiset(whole)[x] == multiset(part)[x] + multiset(other)[x];
    }
  }
}
