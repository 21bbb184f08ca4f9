/**
  What trimming the stream costs after a crash: exactly how many candles must be
  left for the service to write the row it would have written, and a run that
  loses one.
*/
module StreamTrimming {
  import opened Features
  import opened StreamTables
  import opened RingBuffer
  import opened StoredRows
  import opened Consumer

  // ---------------------------------------------------------------- how much must be left

  /** The log from here on holds the minimum history of the symbol, or the whole log does not either. */
  predicate EnoughRows(log: seq<Candle>, from: nat, symbol: string, m: nat)
    requires from <= |log|
  {
    |History(log[from..], symbol)| >= m || |History(log, symbol)| < m
  }

  lemma NewestOfIncreasing(h: seq<Candle>, size: nat)
    requires Increasing(h)
    ensures Increasing(Newest(h, size))
  {
  }

  lemma TailOfNewest(h: seq<Candle>, size: nat, m: nat)
    requires m <= |h| && m <= size
    ensures Tail(Newest(h, size), m) == Tail(h, m)
  {
  }

  lemma TailOfSuffix(h: seq<Candle>, t: seq<Candle>, m: nat)
    requires m <= |t|
    ensures Tail(h + t, m) == Tail(t, m)
  {
  }

  lemma IncreasingSuffix(h: seq<Candle>, t: seq<Candle>)
    requires Increasing(h + t)
    ensures Increasing(t)
  {
    assert forall i :: 0 <= i < |t| ==> (h + t)[|h| + i] == t[i];
  }

  /** Two buffers from the end of the same increasing history, both long enough, give the same row. */
  lemma SameRowFromEnd(h: seq<Candle>, t: seq<Candle>, size: nat, num: Numerics, windows: seq<nat>)
    requires num.Ok() && Increasing(h + t) && MaxWindow(windows) + 2 <= |t| && MaxWindow(windows) + 2 <= size
    ensures var cfg := ServiceConfig(size, num, windows);
      cfg.featuresOf(Newest(t, size)) == cfg.featuresOf(Newest(h + t, size))
  {
    hide *;
    IncreasingSuffix(h, t);
    NewestOfIncreasing(h + t, size);
    NewestOfIncreasing(t, size);
    SortOfIncreasing(Newest(h + t, size));
    SortOfIncreasing(Newest(t, size));
    TailOfSuffix(h, t, MaxWindow(windows) + 2);
    TailOfNewest(h + t, size, MaxWindow(windows) + 2);
    TailOfNewest(t, size, MaxWindow(windows) + 2);
    ConfiguredRow(Newest(t, size), size, num, windows);
    ConfiguredRow(Newest(h + t, size), size, num, windows);
    SameTailSameRow(Newest(t, size), Newest(h + t, size), num, windows);
  }

  lemma InsertExactlyWhen<F>(t: map<Key, F>, b: Buffers, b': Buffers, c: Candle, cfg: Config<F>)
    requires KeyOf(c) !in t && |BufferOf(b, c.symbol)| <= |BufferOf(b', c.symbol)|
    requires |BufferOf(b, c.symbol)| >= cfg.minBuffer ==>
      cfg.featuresOf(BufferOf(b, c.symbol)) == cfg.featuresOf(BufferOf(b', c.symbol))
    ensures InsertFeatures(t, b, c, cfg) == InsertFeatures(t, b', c, cfg) <==>
      |BufferOf(b, c.symbol)| >= cfg.minBuffer || |BufferOf(b', c.symbol)| < cfg.minBuffer
  {
    if |BufferOf(b, c.symbol)| < cfg.minBuffer <= |BufferOf(b', c.symbol)| {
      assert KeyOf(c) in InsertFeatures(t, b', c, cfg);
    }
  }

  /**
    For the service itself, on candles whose times increase: a candle not yet in
    the table inserts the row of the uninterrupted pass if and only if the part
    of the log that is left holds the minimum history - the largest window plus
    two, far less than the buffer - or the whole log does not either.
  */
  lemma ServiceInsertsTheSameExactlyWhen(log: seq<Candle>, from: nat, size: nat, num: Numerics, windows: seq<nat>,
                                         t: map<Key, FeatureRow>)
    requires |log| > 0 && from <= |log| && num.Ok() && size >= MaxWindow(windows) + 2
    requires Increasing(History(log, Last(log).symbol)) && KeyOf(Last(log)) !in t
    ensures var cfg := ServiceConfig(size, num, windows);
      InsertFeatures(t, BuffersAfter(log[from..], size), Last(log), cfg)
        == InsertFeatures(t, BuffersAfter(log, size), Last(log), cfg)
      <==> EnoughRows(log, from, Last(log).symbol, MaxWindow(windows) + 2)
  {
    hide *;
    var s := Last(log).symbol;
    SplitBuffers(log, from, s, size);
    BuffersInsertTheSame(t, BuffersAfter(log[from..], size), BuffersAfter(log, size), Last(log), size, num, windows,
                         History(log[..from], s), History(log[from..], s));
    RowsAre(log, from, s, MaxWindow(windows) + 2);
  }

  lemma SplitBuffers(log: seq<Candle>, from: nat, symbol: string, size: nat)
    requires from <= |log|
    ensures var h, p := History(log[..from], symbol), History(log[from..], symbol);
      && History(log, symbol) == h + p
      && BufferOf(BuffersAfter(log[from..], size), symbol) == Newest(p, size)
      && BufferOf(BuffersAfter(log, size), symbol) == Newest(h + p, size)
  {
    hide BuffersAfter, BufferOf, Newest;
    BufferIsNewestHistory(log, size, symbol);
    BufferIsNewestHistory(log[from..], size, symbol);
    assert log[..from] + log[from..] == log;
    HistoryAppend(log[..from], log[from..], symbol);
  }

  lemma RowsAre(log: seq<Candle>, from: nat, symbol: string, m: nat)
    requires from <= |log|
    ensures EnoughRows(log, from, symbol, m) <==> |History(log[from..], symbol)| >= m || |History(log, symbol)| < m
  {
  }

  lemma BuffersInsertTheSame(t: map<Key, FeatureRow>, b: Buffers, b': Buffers, c: Candle, size: nat, num: Numerics,
                             windows: seq<nat>, h: seq<Candle>, p: seq<Candle>)
    requires num.Ok() && size >= MaxWindow(windows) + 2 && Increasing(h + p) && KeyOf(c) !in t
    requires BufferOf(b, c.symbol) == Newest(p, size) && BufferOf(b', c.symbol) == Newest(h + p, size)
    ensures var cfg := ServiceConfig(size, num, windows);
      InsertFeatures(t, b, c, cfg) == InsertFeatures(t, b', c, cfg)
      <==> |p| >= MaxWindow(windows) + 2 || |h + p| < MaxWindow(windows) + 2
  {
    hide *;
    if |p| >= MaxWindow(windows) + 2 {
      SameRowFromEnd(h, p, size, num, windows);
    }
    InsertExactlyWhen(t, b, b', c, ServiceConfig(size, num, windows));
  }

  // ---------------------------------------------------------------- a run that loses a row

  const BTC := "BTCUSDT"

  /** One candle a minute, with any prices. */
  function Minutes(n: nat, price: int -> real): (s: seq<Candle>)
    ensures |s| == n
  {
    seq(n, i requires 0 <= i < n => Candle(BTC, i, price(i), price(i), price(i), price(i), 1.0))
  }

  lemma MinutesFacts(price: int -> real)
    ensures var m := Minutes(62, price);
      && m == Minutes(61, price) + [m[61]] && KeyOf(m[61]) == Key(BTC, 61)
      && forall i :: 0 <= i < |m| ==> m[i].symbol == BTC
  {
  }

  function Arrives(log: seq<Candle>): (events: seq<Event>)
    ensures |events| == |log|
  {
    seq(|log|, i requires 0 <= i < |log| => Arrive(log[i]))
  }

  lemma {:induction false} RunAppend<F>(sys: System<F>, cfg: Config<F>, a: seq<Event>, b: seq<Event>)
    ensures Run(sys, cfg, a + b) == Run(Run(sys, cfg, a), cfg, b)
    decreases |a|
  {
    if |a| == 0 {
      assert a + b == b;
    } else {
      assert (a + b)[0] == a[0] && (a + b)[1..] == a[1..] + b;
      RunAppend(Step(sys, cfg, a[0]), cfg, a[1..], b);
    }
  }

  lemma {:induction false} ArrivesRun<F>(sys: System<F>, cfg: Config<F>, log: seq<Candle>)
    ensures Run(sys, cfg, Arrives(log)) == sys.(log := sys.log + log)
    decreases |log|
  {
    if |log| == 0 {
      assert sys.log + log == sys.log;
    } else {
      assert Arrives(log)[1..] == Arrives(log[1..]);
      assert sys.log + [log[0]] + log[1..] == sys.log + log;
      ArrivesRun(sys.(log := sys.log + [log[0]]), cfg, log[1..]);
    }
  }

  /** A first pass over a log too short for a feature row. */
  lemma ShortPass<F>(log: seq<Candle>, cfg: Config<F>)
    requires |log| < cfg.minBuffer
    ensures Pass(Fresh<F>(), log, cfg) == State(|log|, Idle, BuffersAfter(log, cfg.size), PricesAfter(log), map[])
  {
    StartIsConsistent(cfg);
    assert log[0..0] == [] && log[..0] == [] && log[0..] == log;
    assert Recovering(Fresh<F>(), log, cfg, 0, 0, 0);
    assert EnoughFrom(log, 0, 0, cfg.size) by {
      forall k | 0 <= k < |log| ensures Enough(log[..k + 1], 0, log[k].symbol, cfg.size) {
        assert log[..k + 1][0..] == log[..k + 1];
      }
    }
    hide Enough, EnoughFrom, Recovering, Pass, BuffersAfter, PricesAfter;
    ShortLogYieldsNothing(log, cfg);
    PassRecovers(Fresh<F>(), log, cfg, 0, 0, 0);
  }

  /** 61 candles are read, then dropped from the stream; the process crashes; one more arrives and is read. */
  function TrimmedRun(price: int -> real): seq<Event> {
    Arrives(Minutes(61, price)) + (Works(183) + ([Trim(61), Crash, Arrive(Minutes(62, price)[61])] + Works(3)))
  }

  /** The machine before the last candle is read. */
  function BeforeLast<F>(m: seq<Candle>, before: seq<Candle>, cfg: Config<F>): System<F> {
    System(m, |before|, |before|, |before|, State(|before|, Idle, map[], PricesAfter(before), map[]))
  }

  lemma AfterTrim<F>(before: seq<Candle>, c: Candle, cfg: Config<F>, events: seq<Event>)
    requires 0 < |before| < cfg.minBuffer
    ensures var sys := System(before, 0, 0, |before|, Pass(Fresh<F>(), before, cfg));
      Run(sys, cfg, [Trim(|before|), Crash, Arrive(c)] + events) == Run(BeforeLast(before + [c], before, cfg), cfg, events)
  {
    ShortPass(before, cfg);
    var sys := System(before, 0, 0, |before|, Pass(Fresh<F>(), before, cfg));
    var es := [Trim(|before|), Crash, Arrive(c)] + events;
    assert es[1..] == [Crash, Arrive(c)] + events && es[1..][1..] == [Arrive(c)] + events && es[1..][1..][1..] == events;
    hide Pass, PricesAfter, BuffersAfter;
    var s1 := Step(sys, cfg, Trim(|before|));
    var s2 := Step(s1, cfg, Crash);
    var s3 := Step(s2, cfg, Arrive(c));
    assert s3 == BeforeLast(before + [c], before, cfg);
    assert Run(sys, cfg, es) == Run(s1, cfg, es[1..]) == Run(s2, cfg, es[1..][1..]) == Run(s3, cfg, events);
  }

  lemma LastRead<F>(before: seq<Candle>, c: Candle, cfg: Config<F>)
    requires 1 < cfg.minBuffer <= |before| + 1 <= cfg.size && |before| < cfg.minBuffer
    requires forall i :: 0 <= i < |before| ==> before[i].symbol == c.symbol
    ensures var end := Run(BeforeLast(before + [c], before, cfg), cfg, Works(3));
      CaughtUp(end) && end.log == before + [c] && end.st.features == map[]
    ensures KeyOf(c) in FeaturesAfter(before + [c], cfg)
  {
    var sys := BeforeLast(before + [c], before, cfg);
    hide FeaturesAfter, PricesAfter, BuffersAfter;
    CatchesUp(sys, cfg);
    LastPass(before, c, cfg);
    InsertOfWhole(before, c, cfg);
  }

  /** A single candle in a rebuilt buffer is not enough history. */
  lemma LastPass<F>(before: seq<Candle>, c: Candle, cfg: Config<F>)
    requires 1 < cfg.minBuffer && cfg.size > 0
    ensures var sys := BeforeLast(before + [c], before, cfg); Pass(sys.st, sys.log, cfg).features == map[]
  {
    var sys := BeforeLast(before + [c], before, cfg);
    hide PricesAfter, Insert;
    assert sys.log[sys.st.cursor] == c;
    var next := Processed(sys.st, c, cfg);
    assert next.features == map[];
    assert Pass(next, sys.log, cfg) == next;
  }

  /**
    A handled part of the stream is dropped, and a row is lost for good: with the
    service's buffer of 120 and minimum history of 62, the row of the 62nd candle
    is never written, though the consumer ends at the end of the log.
  */
  lemma TrimmedReplayLosesARow<F>(cfg: Config<F>, price: int -> real)
    requires cfg.size == 120 && cfg.minBuffer == 62
    ensures var end := Run(Start<F>(), cfg, TrimmedRun(price));
      && CaughtUp(end) && end.log == Minutes(62, price)
      && Key(BTC, 61) !in end.st.features && Key(BTC, 61) in FeaturesAfter(end.log, cfg)
  {
    var before, m := Minutes(61, price), Minutes(62, price);
    var c := m[61];
    MinutesFacts(price);
    assert forall i :: 0 <= i < |before| ==> before[i] == m[i];
    assert [] + before == before;
    hide Run, Minutes, Pass, Step, FeaturesAfter, BeforeLast, CaughtUp;
    RunAppend(Start<F>(), cfg, Arrives(before), Works(183) + ([Trim(61), Crash, Arrive(c)] + Works(3)));
    ArrivesRun(Start<F>(), cfg, before);
    var s0 := Start<F>().(log := before);
    RunAppend(s0, cfg, Works(183), [Trim(61), Crash, Arrive(c)] + Works(3));
    CatchesUp(s0, cfg);
    AfterTrim(before, c, cfg, Works(3));
    LastRead(before, c, cfg);
  }
}
