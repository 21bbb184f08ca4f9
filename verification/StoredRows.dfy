/**
  The rows of the feature table: which message stores one, and whose features it
  holds. A candle that arrives late is stored with the features of a later one.
*/
module StoredRows {
  import opened Features
  import opened StreamTables
  import opened RingBuffer

  // ---------------------------------------------------------------- the newest candle of a buffer

  lemma {:induction false} InsertBeforeLatest(x: Candle, s: seq<Candle>, c: Candle)
    requires x.time <= c.time
    ensures InsertByTime(x, s + [c]) == InsertByTime(x, s) + [c]
  {
    if |s| != 0 && x.time > s[0].time {
      InsertBeforeLatest(x, s[1..], c);
      assert (s + [c])[1..] == s[1..] + [c];
    }
  }

  lemma {:induction false} SortLatest(b: seq<Candle>, c: Candle)
    requires forall i :: 0 <= i < |b| ==> b[i].time <= c.time
    ensures SortByTime(b + [c]) == SortByTime(b) + [c]
  {
    if |b| != 0 {
      SortLatest(b[1..], c);
      assert (b + [c])[0] == b[0] && (b + [c])[1..] == b[1..] + [c];
      InsertBeforeLatest(b[0], SortByTime(b[1..]), c);
    }
  }

  /** The newest candle of the sorted buffer is the one just pushed if and only if none in the buffer is later. */
  lemma PushedIsNewestExactlyWhen(log: seq<Candle>, size: nat)
    requires |log| > 0 && size > 0
    ensures var c, buf := Last(log), BufferOf(BuffersAfter(log, size), Last(log).symbol);
      |buf| > 0 && (Last(SortByTime(buf)) == c <==> forall i :: 0 <= i < |buf| ==> buf[i].time <= c.time)
  {
    var c := Last(log);
    var before := BufferOf(BuffersAfter(Init(log), size), c.symbol);
    assert BufferOf(BuffersAfter(log, size), c.symbol) == Newest(before + [c], size);
    hide *;
    NewestEndsWith(before, c, size);
    BufferOrder(Init(Newest(before + [c], size)), c);
  }

  lemma NewestEndsWith(s: seq<Candle>, c: Candle, size: nat)
    requires size > 0
    ensures var buf := Newest(s + [c], size); |buf| > 0 && buf == Init(buf) + [c]
  {
  }

  lemma BufferOrder(b: seq<Candle>, c: Candle)
    ensures Last(SortByTime(b + [c])) == c <==> forall i :: 0 <= i < |b + [c]| ==> (b + [c])[i].time <= c.time
  {
    var buf := b + [c];
    if forall i :: 0 <= i < |buf| ==> buf[i].time <= c.time {
      assert forall i :: 0 <= i < |b| ==> b[i] == buf[i];
      SortLatest(b, c);
    }
    SortSorts(buf, 0);
    hide SortByTime;
    LastIsLatest(SortByTime(buf), buf);
  }

  lemma LastIsLatest(s: seq<Candle>, buf: seq<Candle>)
    requires |s| > 0 && SortedByTime(s) && forall x :: x in s <==> x in buf
    ensures forall i :: 0 <= i < |buf| ==> buf[i].time <= Last(s).time
  {
    forall i | 0 <= i < |buf| ensures buf[i].time <= Last(s).time {
      assert buf[i] in s;
    }
  }

  // ---------------------------------------------------------------- which message stores a row

  /** The first message with the key that finds enough history, or -1. */
  function FirstFull<F>(log: seq<Candle>, cfg: Config<F>, k: Key): (n: int)
    ensures -1 <= n < |log|
    ensures n >= 0 ==> KeyOf(log[n]) == k
  {
    if |log| == 0 then -1 else
      var n := FirstFull(Init(log), cfg, k);
      if n != -1 then n
      else if KeyOf(Last(log)) == k && |BufferOf(BuffersAfter(log, cfg.size), k.symbol)| >= cfg.minBuffer then |log| - 1
      else -1
  }

  /** The buffer that message found, its own candle included. */
  function BufferAt<F>(log: seq<Candle>, cfg: Config<F>, k: Key, n: nat): seq<Candle>
    requires n < |log|
  {
    BufferOf(BuffersAfter(log[..n + 1], cfg.size), k.symbol)
  }

  /** The table has a row under a key exactly when there is such a message, and it is the row of its buffer. */
  lemma {:induction false} RowOfFirstFull<F>(log: seq<Candle>, cfg: Config<F>, k: Key)
    ensures k in FeaturesAfter(log, cfg) <==> FirstFull(log, cfg, k) != -1
    ensures k in FeaturesAfter(log, cfg) ==>
      FeaturesAfter(log, cfg)[k] == cfg.featuresOf(BufferAt(log, cfg, k, FirstFull(log, cfg, k)))
  {
    if |log| != 0 {
      RowOfFirstFull(Init(log), cfg, k);
      var n := FirstFull(Init(log), cfg, k);
      if n != -1 {
        assert Init(log)[..n + 1] == log[..n + 1];
      } else {
        assert log[..|log|] == log;
      }
      hide BuffersAfter;
    }
  }

  /**
    The row stored under a key is the one of the first message with that key and
    enough history: the features of the newest candle of its sorted buffer. That
    is the candle of the message itself if and only if no candle in the buffer is
    later.
  */
  lemma StoredRowIsOwnExactlyWhen(log: seq<Candle>, size: nat, num: Numerics, windows: seq<nat>, k: Key)
    requires num.Ok() && size > 0 && k in FeaturesAfter(log, ServiceConfig(size, num, windows))
    ensures var cfg := ServiceConfig(size, num, windows);
      var n := FirstFull(log, cfg, k);
      && 0 <= n < |log| && KeyOf(log[n]) == k
      && var buf := BufferAt(log, cfg, k, n);
        && |buf| > 0
        && FeaturesAfter(log, cfg)[k] == LatestRow(SortByTime(buf), num, windows)
        && (Last(SortByTime(buf)) == log[n] <==> forall i :: 0 <= i < |buf| ==> buf[i].time <= k.time)
  {
    hide *;
    var cfg := ServiceConfig(size, num, windows);
    RowOfFirstFull(log, cfg, k);
    var n := FirstFull(log, cfg, k);
    OwnBuffer(log, cfg, k, n);
    ConfiguredRow(BufferAt(log, cfg, k, n), size, num, windows);
  }

  lemma OwnBuffer<F>(log: seq<Candle>, cfg: Config<F>, k: Key, n: nat)
    requires n < |log| && KeyOf(log[n]) == k && cfg.size > 0
    ensures var buf := BufferAt(log, cfg, k, n);
      |buf| > 0 && (Last(SortByTime(buf)) == log[n] <==> forall i :: 0 <= i < |buf| ==> buf[i].time <= k.time)
  {
    hide SortByTime, BuffersAfter, BufferOf;
    assert Last(log[..n + 1]) == log[n];
    PushedIsNewestExactlyWhen(log[..n + 1], cfg.size);
  }

  // ---------------------------------------------------------------- a late candle

  lemma {:induction false} HistoryOfOne(log: seq<Candle>, symbol: string)
    requires forall i :: 0 <= i < |log| ==> log[i].symbol == symbol
    ensures History(log, symbol) == log
  {
    if |log| != 0 {
      HistoryOfOne(Init(log), symbol);
      assert log == Init(log) + [Last(log)];
    }
  }

  /** A log too short for the minimum history leaves no feature row. */
  lemma {:induction false} ShortLogYieldsNothing<F>(log: seq<Candle>, cfg: Config<F>)
    requires |log| < cfg.minBuffer
    ensures FeaturesAfter(log, cfg) == map[]
  {
    if |log| != 0 {
      ShortLogYieldsNothing(Init(log), cfg);
      BufferIsNewestHistory(log, cfg.size, Last(log).symbol);
      HistoryIsShort(log, Last(log).symbol);
    }
  }

  lemma {:induction false} HistoryIsShort(log: seq<Candle>, symbol: string)
    ensures |History(log, symbol)| <= |log|
  {
    if |log| != 0 {
      HistoryIsShort(Init(log), symbol);
    }
  }

  lemma {:induction false} SortEarliest(b: seq<Candle>, c: Candle)
    requires Increasing(b) && forall i :: 0 <= i < |b| ==> c.time < b[i].time
    ensures SortByTime(b + [c]) == [c] + b
  {
    if |b| != 0 {
      SortEarliest(b[1..], c);
      assert (b + [c])[0] == b[0] && (b + [c])[1..] == b[1..] + [c];
      assert ([c] + b[1..])[1..] == b[1..];
      assert InsertByTime(b[0], b[1..]) == b;
    } else {
      assert b + [c] == [c] && [c][1..] == [];
    }
  }

  /** The insert of a message whose symbol is alone in the log, with room for all of it. */
  lemma InsertOfWhole<F>(log: seq<Candle>, c: Candle, cfg: Config<F>)
    requires cfg.minBuffer <= |log| + 1 <= cfg.size
    requires forall i :: 0 <= i < |log| ==> log[i].symbol == c.symbol
    ensures FeaturesAfter(log + [c], cfg) == Insert(FeaturesAfter(log, cfg), KeyOf(c), cfg.featuresOf(log + [c]))
  {
    assert Init(log + [c]) == log && Last(log + [c]) == c;
    BufferIsNewestHistory(log + [c], cfg.size, c.symbol);
    HistoryOfOne(log + [c], c.symbol);
    hide BuffersAfter, History;
  }

  /** Both keys have a row, and it is the same. */
  predicate SharesRow<F(==)>(t: map<Key, F>, k: Key, k': Key) {
    k in t && k' in t && t[k] == t[k']
  }

  /**
    Any 62 candles of one symbol in time order, and then one from before them,
    for any prices and any numeric functions: the row stored under the late
    candle is the row of the last candle in time.
  */
  lemma LateRowIsOfLaterCandle(num: Numerics, windows: seq<nat>, size: nat, m: seq<Candle>, last: Candle, late: Candle)
    requires num.Ok() && MaxWindow(windows) == 60 && size >= 63 && |m| == 62 && Increasing(m) && last == m[61]
    requires forall i :: 0 <= i < |m| ==> m[i].symbol == late.symbol && late.time < m[i].time
    ensures SharesRow(FeaturesAfter(m + [late], ServiceConfig(size, num, windows)), KeyOf(late), KeyOf(last))
  {
    hide *;
    LateRow(num, windows, size, m, late);
    LateTable(ServiceConfig(size, num, windows), m, last, late);
  }

  lemma LateTable<F>(cfg: Config<F>, m: seq<Candle>, last: Candle, late: Candle)
    requires cfg.minBuffer == 62 && cfg.size >= 63 && |m| == 62 && last == m[61]
    requires forall i :: 0 <= i < |m| ==> m[i].symbol == late.symbol && late.time < m[i].time
    requires cfg.featuresOf(m + [late]) == cfg.featuresOf(m)
    ensures SharesRow(FeaturesAfter(m + [late], cfg), KeyOf(late), KeyOf(last))
  {
    var before := m[..61];
    assert m == before + [last];
    ShortLogYieldsNothing(before, cfg);
    hide FeaturesAfter;
    InsertOfWhole(before, last, cfg);
    InsertOfWhole(m, late, cfg);
  }

  lemma LateRow(num: Numerics, windows: seq<nat>, size: nat, m: seq<Candle>, late: Candle)
    requires num.Ok() && MaxWindow(windows) == 60 && |m| == 62 && Increasing(m)
    requires forall i :: 0 <= i < |m| ==> late.time < m[i].time
    ensures var cfg := ServiceConfig(size, num, windows); cfg.featuresOf(m + [late]) == cfg.featuresOf(m)
  {
    hide LatestRow, SortByTime, MaxWindow;
    ConfiguredRow(m, size, num, windows);
    ConfiguredRow(m + [late], size, num, windows);
    SortOfIncreasing(m);
    SortEarliest(m, late);
    LatestRowOfSuffix([late] + m, 1, num, windows);
    assert ([late] + m)[1..] == m;
  }
}
