/**
  The bounded per-symbol buffers against the whole history: what they hold, when
  a feature row computed from one is the row of the full history.
*/
module RingBuffer {
  import opened Features
  import opened StreamTables

  /** A buffer smaller than the minimum history never yields a feature row. */
  lemma {:induction false} SmallBufferYieldsNothing<F>(log: seq<Candle>, cfg: Config<F>)
    requires cfg.size < cfg.minBuffer
    ensures FeaturesAfter(log, cfg) == map[]
  {
    if |log| != 0 {
      SmallBufferYieldsNothing(Init(log), cfg);
      BufferIsNewestHistory(log, cfg.size, Last(log).symbol);
    }
  }

  ghost predicate Increasing(s: seq<Candle>) {
    forall i, j :: 0 <= i < j < |s| ==> s[i].time < s[j].time
  }

  function InsertByTime(c: Candle, s: seq<Candle>): (r: seq<Candle>)
    ensures |r| == |s| + 1
  {
    if |s| == 0 then [c] else if c.time <= s[0].time then [c] + s else [s[0]] + InsertByTime(c, s[1..])
  }

  /** sort_index() of the frame built from a buffer; rows of one time stay in order of arrival. */
  function SortByTime(s: seq<Candle>): (r: seq<Candle>)
    ensures |r| == |s|
  {
    if |s| == 0 then [] else InsertByTime(s[0], SortByTime(s[1..]))
  }

  lemma {:induction false} SortOfIncreasing(s: seq<Candle>)
    requires Increasing(s)
    ensures SortByTime(s) == s
  {
    if |s| != 0 {
      SortOfIncreasing(s[1..]);
    }
  }

  /** The configuration of the service: feature rows of the sorted buffer. */
  function ServiceConfig(size: nat, num: Numerics, windows: seq<nat>): (cfg: Config<FeatureRow>)
    requires num.Ok()
    ensures cfg.size == size && cfg.minBuffer == MaxWindow(windows) + 2
  {
    Config(size, MaxWindow(windows) + 2,
           (buf: seq<Candle>) => if |buf| > 0 && num.Ok() then LatestRow(SortByTime(buf), num, windows) else map[])
  }

  /** The feature table of a service that keeps every candle it ever saw. */
  function FeaturesFromHistory(log: seq<Candle>, num: Numerics, windows: seq<nat>): map<Key, FeatureRow>
    requires num.Ok()
  {
    if |log| == 0 then map[] else
      var t, c := FeaturesFromHistory(Init(log), num, windows), Last(log);
      var h := History(log, c.symbol);
      if |h| >= MaxWindow(windows) + 2 then Insert(t, KeyOf(c), LatestRow(SortByTime(h), num, windows)) else t
  }

  // ---------------------------------------------------------------- which candles a bounded buffer may forget

  /** The last m rows. */
  function Tail(s: seq<Candle>, m: nat): (t: seq<Candle>)
    requires m <= |s|
    ensures |t| == m
  {
    s[|s| - m..]
  }

  predicate NoneLater(s: seq<Candle>, t: int) {
    forall i :: 0 <= i < |s| ==> s[i].time <= t
  }

  /** No candle the buffer has dropped is later than the m-th newest by time of those it keeps. */
  predicate Covered(h: seq<Candle>, size: nat, m: nat)
    requires 0 < m <= size
  {
    |h| <= size || NoneLater(h[..|h| - size], SortByTime(Newest(h, size))[size - m].time)
  }

  lemma TailPrepend(x: Candle, s: seq<Candle>, m: nat)
    requires m <= |s|
    ensures Tail([x] + s, m) == Tail(s, m)
  {
  }

  lemma {:induction false} InsertKeepsTail(d: Candle, s: seq<Candle>, m: nat)
    requires 0 < m <= |s| && d.time <= s[|s| - m].time
    ensures Tail(InsertByTime(d, s), m) == Tail(s, m)
  {
    hide Tail;
    if d.time <= s[0].time {
      TailPrepend(d, s, m);
    } else {
      var rest := s[1..];
      assert rest[|rest| - m] == s[|s| - m];
      InsertKeepsTail(d, rest, m);
      TailPrepend(s[0], InsertByTime(d, rest), m);
      TailPrepend(s[0], rest, m);
      assert s == [s[0]] + rest;
    }
  }

  /** Candles no later than the m-th newest of the others do not reach the last m rows of the sorted frame. */
  lemma {:induction false} DroppedKeepTail(dropped: seq<Candle>, kept: seq<Candle>, m: nat, ks: seq<Candle>)
    requires 0 < m <= |kept| && ks == SortByTime(kept) && NoneLater(dropped, ks[|ks| - m].time)
    ensures Tail(SortByTime(dropped + kept), m) == Tail(ks, m)
  {
    if |dropped| == 0 {
      assert dropped + kept == kept;
    } else {
      FirstOfDropped(dropped, kept, ks[|ks| - m].time);
      hide SortByTime, Tail, NoneLater;
      DroppedKeepTail(dropped[1..], kept, m, ks);
      SortStep(dropped[0], dropped[1..] + kept);
      OneMoreKeepsTail(dropped[0], SortByTime(dropped[1..] + kept), ks, m);
    }
  }

  lemma FirstOfDropped(dropped: seq<Candle>, kept: seq<Candle>, t: int)
    requires |dropped| > 0 && NoneLater(dropped, t)
    ensures dropped[0].time <= t && NoneLater(dropped[1..], t)
    ensures dropped + kept == [dropped[0]] + (dropped[1..] + kept)
  {
  }

  lemma SortStep(d: Candle, rest: seq<Candle>)
    ensures SortByTime([d] + rest) == InsertByTime(d, SortByTime(rest))
  {
    assert ([d] + rest)[1..] == rest;
  }

  lemma OneMoreKeepsTail(d: Candle, s: seq<Candle>, ks: seq<Candle>, m: nat)
    requires 0 < m <= |s| && m <= |ks| && Tail(s, m) == Tail(ks, m) && d.time <= ks[|ks| - m].time
    ensures Tail(InsertByTime(d, s), m) == Tail(ks, m)
  {
    assert Tail(s, m)[0] == Tail(ks, m)[0];
    InsertKeepsTail(d, s, m);
  }

  ghost predicate SortedByTime(s: seq<Candle>) {
    forall i, j :: 0 <= i < j < |s| ==> s[i].time <= s[j].time
  }

  /** How many candles are later than t. */
  function CountLater(s: seq<Candle>, t: int): nat {
    if |s| == 0 then 0 else (if s[0].time > t then 1 else 0) + CountLater(s[1..], t)
  }

  lemma {:induction false} CountLaterAppend(a: seq<Candle>, b: seq<Candle>, t: int)
    ensures CountLater(a + b, t) == CountLater(a, t) + CountLater(b, t)
  {
    if |a| == 0 {
      assert a + b == b;
    } else {
      CountLaterAppend(a[1..], b, t);
      assert (a + b)[1..] == a[1..] + b;
    }
  }

  lemma {:induction false} CountLaterNone(s: seq<Candle>, t: int)
    ensures CountLater(s, t) == 0 <==> NoneLater(s, t)
  {
    if |s| != 0 {
      CountLaterNone(s[1..], t);
      assert forall i :: 0 < i < |s| ==> s[i] == s[1..][i - 1];
    }
  }

  lemma {:induction false} InsertSorts(c: Candle, s: seq<Candle>, t: int)
    requires SortedByTime(s)
    ensures SortedByTime(InsertByTime(c, s))
    ensures forall x :: x in InsertByTime(c, s) <==> x == c || x in s
    ensures CountLater(InsertByTime(c, s), t) == CountLater([c] + s, t)
  {
    if |s| != 0 && c.time > s[0].time {
      InsertSorts(c, s[1..], t);
      var r := InsertByTime(c, s[1..]);
      CountLaterAppend([c], s, t);
      CountLaterAppend([c], s[1..], t);
      forall i | 0 <= i < |r| ensures s[0].time <= r[i].time {
        assert r[i] in r;
      }
    }
  }

  /** The sorted frame is in time order and holds the same candles. */
  lemma {:induction false} SortSorts(s: seq<Candle>, t: int)
    ensures SortedByTime(SortByTime(s))
    ensures forall x :: x in SortByTime(s) <==> x in s
    ensures CountLater(SortByTime(s), t) == CountLater(s, t)
  {
    if |s| != 0 {
      SortSorts(s[1..], t);
      InsertSorts(s[0], SortByTime(s[1..]), t);
      CountLaterAppend([s[0]], SortByTime(s[1..]), t);
    }
  }

  /** In a sorted frame nothing before the last m rows is later than the first of them. */
  lemma TailHoldsLater(s: seq<Candle>, m: nat)
    requires SortedByTime(s) && 0 < m <= |s|
    ensures var t := s[|s| - m].time; CountLater(s, t) == CountLater(s[|s| - m..], t)
  {
    var k := |s| - m;
    CountLaterAppend(s[..k], s[k..], s[k].time);
    CountLaterNone(s[..k], s[k].time);
    assert s == s[..k] + s[k..];
  }

  /**
    Exactly when forgetting is harmless: the last m rows of the sorted frame are
    the same with and without the dropped candles if and only if none of those
    is later than the m-th newest kept one.
  */
  lemma TailsAgreeExactlyWhen(h: seq<Candle>, size: nat, m: nat)
    requires 0 < m <= size <= |h|
    ensures Tail(SortByTime(h), m) == Tail(SortByTime(Newest(h, size)), m) <==> Covered(h, size, m)
  {
    hide *;
    NewestIsRest(h, size);
    CoveredIs(h, size, m);
    TailsAgreeIff(h[..|h| - size], Newest(h, size), m, SortByTime(h), SortByTime(Newest(h, size)));
  }

  lemma NewestIsRest(h: seq<Candle>, size: nat)
    requires size <= |h|
    ensures |Newest(h, size)| == size && h[..|h| - size] + Newest(h, size) == h
  {
  }

  lemma CoveredIs(h: seq<Candle>, size: nat, m: nat)
    requires 0 < m <= size <= |h|
    ensures Covered(h, size, m) <==> NoneLater(h[..|h| - size], SortByTime(Newest(h, size))[size - m].time)
  {
    hide SortByTime, Newest;
  }

  lemma TailsAgreeIff(dropped: seq<Candle>, kept: seq<Candle>, m: nat, all: seq<Candle>, ks: seq<Candle>)
    requires 0 < m <= |kept| && all == SortByTime(dropped + kept) && ks == SortByTime(kept)
    ensures Tail(all, m) == Tail(ks, m) <==> NoneLater(dropped, ks[|ks| - m].time)
  {
    hide SortByTime, NoneLater, Tail;
    if NoneLater(dropped, ks[|ks| - m].time) {
      DroppedKeepTail(dropped, kept, m, ks);
    }
    if Tail(all, m) == Tail(ks, m) {
      TailsAgreeOnlyIf(dropped, kept, m, all, ks);
    }
  }

  lemma TailsAgreeOnlyIf(dropped: seq<Candle>, kept: seq<Candle>, m: nat, all: seq<Candle>, ks: seq<Candle>)
    requires 0 < m <= |kept| && all == SortByTime(dropped + kept) && ks == SortByTime(kept)
    requires Tail(all, m) == Tail(ks, m)
    ensures NoneLater(dropped, ks[|ks| - m].time)
  {
    hide SortByTime, CountLater;
    var t := ks[|ks| - m].time;
    assert all[|all| - m..][0] == ks[|ks| - m..][0];
    SortSorts(dropped + kept, t);
    SortSorts(kept, t);
    hide SortedByTime;
    TailHoldsLater(all, m);
    TailHoldsLater(ks, m);
    CountLaterAppend(dropped, kept, t);
    CountLaterNone(dropped, t);
  }

  // ---------------------------------------------------------------- the bounded buffer agrees with full history

  /** The feature row of a bounded buffer that covers its history is the one of the whole history. */
  ghost predicate AgreesWithHistory(cfg: Config<FeatureRow>, num: Numerics, windows: seq<nat>)
    requires num.Ok() && 0 < cfg.minBuffer <= cfg.size
  {
    forall h :: |h| >= cfg.minBuffer && Covered(h, cfg.size, cfg.minBuffer) ==>
      cfg.featuresOf(Newest(h, cfg.size)) == LatestRow(SortByTime(h), num, windows)
  }

  lemma ServiceAgreesWithHistory(size: nat, num: Numerics, windows: seq<nat>)
    requires num.Ok() && size >= MaxWindow(windows) + 2
    ensures AgreesWithHistory(ServiceConfig(size, num, windows), num, windows)
  {
    hide LatestRow, SortByTime, Covered, Newest;
    var cfg := ServiceConfig(size, num, windows);
    forall h | |h| >= cfg.minBuffer && Covered(h, cfg.size, cfg.minBuffer)
      ensures cfg.featuresOf(Newest(h, size)) == LatestRow(SortByTime(h), num, windows)
    {
      ConfiguredRow(Newest(h, size), size, num, windows);
      NewestRow(h, size, num, windows);
    }
  }

  lemma ConfiguredRow(buf: seq<Candle>, size: nat, num: Numerics, windows: seq<nat>)
    requires num.Ok() && |buf| > 0
    ensures ServiceConfig(size, num, windows).featuresOf(buf) == LatestRow(SortByTime(buf), num, windows)
  {
    hide LatestRow, SortByTime;
  }

  lemma NewestRow(h: seq<Candle>, size: nat, num: Numerics, windows: seq<nat>)
    requires num.Ok() && |h| >= MaxWindow(windows) + 2 && size >= MaxWindow(windows) + 2
    requires Covered(h, size, MaxWindow(windows) + 2)
    ensures LatestRow(SortByTime(Newest(h, size)), num, windows) == LatestRow(SortByTime(h), num, windows)
  {
    hide LatestRow, SortByTime, Covered, MaxWindow;
    if |h| > size {
      NewestRowOfMore(h, size, num, windows);
    }
  }

  lemma NewestRowOfMore(h: seq<Candle>, size: nat, num: Numerics, windows: seq<nat>)
    requires num.Ok() && MaxWindow(windows) + 2 <= size < |h| && Covered(h, size, MaxWindow(windows) + 2)
    ensures LatestRow(SortByTime(Newest(h, size)), num, windows) == LatestRow(SortByTime(h), num, windows)
  {
    hide *;
    NewestIsRest(h, size);
    TailsAgreeExactlyWhen(h, size, MaxWindow(windows) + 2);
    SameTailSameRow(SortByTime(h), SortByTime(Newest(h, size)), num, windows);
  }

  /** Frames with the same last rows have the same latest feature row. */
  lemma SameTailSameRow(a: seq<Candle>, b: seq<Candle>, num: Numerics, windows: seq<nat>)
    requires var m := MaxWindow(windows) + 2;
      num.Ok() && m <= |a| && m <= |b| && Tail(a, m) == Tail(b, m)
    ensures LatestRow(a, num, windows) == LatestRow(b, num, windows)
  {
    hide LatestRow, MaxWindow;
    var m := MaxWindow(windows) + 2;
    LatestRowOfSuffix(a, |a| - m, num, windows);
    LatestRowOfSuffix(b, |b| - m, num, windows);
  }

  /** At every message the buffer of its symbol covers the history of that symbol. */
  predicate AlwaysCovered(log: seq<Candle>, size: nat, m: nat)
    requires 0 < m <= size
  {
    |log| > 0 ==> Covered(History(log, Last(log).symbol), size, m) && AlwaysCovered(Init(log), size, m)
  }

  lemma {:induction false} AgreeingTables(log: seq<Candle>, cfg: Config<FeatureRow>, num: Numerics, windows: seq<nat>)
    requires num.Ok() && cfg.size >= cfg.minBuffer == MaxWindow(windows) + 2
    requires AgreesWithHistory(cfg, num, windows) && AlwaysCovered(log, cfg.size, cfg.minBuffer)
    ensures FeaturesAfter(log, cfg) == FeaturesFromHistory(log, num, windows)
  {
    hide LatestRow, BuffersAfter, Covered, SortByTime;
    if |log| != 0 {
      AgreeingTables(Init(log), cfg, num, windows);
      BufferIsNewestHistory(log, cfg.size, Last(log).symbol);
      var h := History(log, Last(log).symbol);
      hide History;
      assert |Newest(h, cfg.size)| >= cfg.minBuffer <==> |h| >= cfg.minBuffer;
    }
  }

  /**
    The bounded buffer agrees with full history: for any log - interleaved,
    repeated, out of order - and any buffer of at least the largest window plus
    two, the feature table equals the one computed from all candles, as long as
    no dropped candle is among the newest of its symbol by time.
  */
  lemma BoundedBufferAgreesWithHistory(log: seq<Candle>, size: nat, num: Numerics, windows: seq<nat>)
    requires num.Ok() && size >= MaxWindow(windows) + 2 && AlwaysCovered(log, size, MaxWindow(windows) + 2)
    ensures FeaturesAfter(log, ServiceConfig(size, num, windows)) == FeaturesFromHistory(log, num, windows)
  {
    hide AgreesWithHistory, FeaturesAfter, FeaturesFromHistory, AlwaysCovered, ServiceConfig, MaxWindow;
    ServiceAgreesWithHistory(size, num, windows);
    AgreeingTables(log, ServiceConfig(size, num, windows), num, windows);
  }

  lemma IncreasingPrefix(log: seq<Candle>, s: string)
    requires |log| > 0 && Increasing(History(log, s))
    ensures Increasing(History(Init(log), s))
  {
    var h, h' := History(Init(log), s), History(log, s);
    assert forall i :: 0 <= i < |h| ==> h'[i] == h[i];
  }

  lemma IncreasingIsCovered(h: seq<Candle>, size: nat, m: nat)
    requires 0 < m <= size && Increasing(h)
    ensures Covered(h, size, m)
  {
    if |h| > size {
      SortOfIncreasing(Newest(h, size));
      hide SortByTime;
    }
  }

  /** In particular this holds when the times of each symbol increase. */
  lemma {:induction false} IncreasingIsAlwaysCovered(log: seq<Candle>, size: nat, m: nat)
    requires 0 < m <= size && forall s :: Increasing(History(log, s))
    ensures AlwaysCovered(log, size, m)
  {
    hide Covered, Increasing, History;
    if |log| != 0 {
      IncreasingIsCovered(History(log, Last(log).symbol), size, m);
      forall s ensures Increasing(History(Init(log), s)) {
        IncreasingPrefix(log, s);
      }
      IncreasingIsAlwaysCovered(Init(log), size, m);
    }
  }
}
