/**
  What the messages of a stream leave behind: first-write-wins tables of prices
  and features, per-symbol ring buffers, and what those hold of the history.
*/
module StreamTables {
  import opened Features

  function KeyOf(c: Candle): Key {
    Key(c.symbol, c.time)
  }

  /** INSERT ... ON CONFLICT DO NOTHING */
  function Insert<V>(t: map<Key, V>, k: Key, v: V): map<Key, V> {
    if k in t then t else t[k := v]
  }

  type Buffers = map<string, seq<Candle>>

  /** The newest n elements: what a deque with maxlen n keeps. */
  function Newest(s: seq<Candle>, n: nat): (r: seq<Candle>)
    ensures |r| == if |s| <= n then |s| else n
  {
    if |s| <= n then s else s[|s| - n..]
  }

  function BufferOf(b: Buffers, symbol: string): seq<Candle> {
    if symbol in b then b[symbol] else []
  }

  function Push(b: Buffers, c: Candle, size: nat): Buffers {
    b[c.symbol := Newest(BufferOf(b, c.symbol) + [c], size)]
  }

  /** featuresOf is any function of the buffer; the replay theorem needs no more. */
  datatype Config<F> = Config(size: nat, minBuffer: nat, featuresOf: seq<Candle> -> F)

  /** The feature insert for the newest candle of b, once there is enough history. */
  function InsertFeatures<F>(t: map<Key, F>, b: Buffers, c: Candle, cfg: Config<F>): map<Key, F> {
    var buf := BufferOf(b, c.symbol);
    if |buf| >= cfg.minBuffer then Insert(t, KeyOf(c), cfg.featuresOf(buf)) else t
  }

  // ---------------------------------------------------------------- one uninterrupted pass

  function Init(log: seq<Candle>): seq<Candle>
    requires |log| > 0
  {
    log[..|log| - 1]
  }

  function Last(log: seq<Candle>): Candle
    requires |log| > 0
  {
    log[|log| - 1]
  }

  function BuffersAfter(log: seq<Candle>, size: nat): Buffers {
    if |log| == 0 then map[] else Push(BuffersAfter(Init(log), size), Last(log), size)
  }

  function PricesAfter(log: seq<Candle>): map<Key, Candle> {
    if |log| == 0 then map[] else Insert(PricesAfter(Init(log)), KeyOf(Last(log)), Last(log))
  }

  function FeaturesAfter<F>(log: seq<Candle>, cfg: Config<F>): map<Key, F> {
    if |log| == 0 then map[]
    else InsertFeatures(FeaturesAfter(Init(log), cfg), BuffersAfter(log, cfg.size), Last(log), cfg)
  }

  // ---------------------------------------------------------------- growing the log

  lemma {:induction false} PriceKeysStay(log: seq<Candle>, k: nat, p: nat)
    requires k < p <= |log|
    ensures KeyOf(log[k]) in PricesAfter(log[..p])
  {
    assert Init(log[..p]) == log[..p - 1];
    if k < p - 1 {
      PriceKeysStay(log, k, p - 1);
    }
  }

  lemma {:induction false} FeatureKeysStay<F>(log: seq<Candle>, cfg: Config<F>, k: nat, f: nat)
    requires k < f <= |log|
    requires |BufferOf(BuffersAfter(log[..k + 1], cfg.size), log[k].symbol)| >= cfg.minBuffer
    ensures KeyOf(log[k]) in FeaturesAfter(log[..f], cfg)
  {
    assert Init(log[..f]) == log[..f - 1];
    if k < f - 1 {
      FeatureKeysStay(log, cfg, k, f - 1);
    }
  }

  lemma PricesStep(log: seq<Candle>, p: nat)
    requires p < |log|
    ensures PricesAfter(log[..p + 1]) == Insert(PricesAfter(log[..p]), KeyOf(log[p]), log[p])
  {
    assert Init(log[..p + 1]) == log[..p];
  }

  lemma BuffersPush(seen: seq<Candle>, c: Candle, size: nat)
    ensures BuffersAfter(seen + [c], size) == Push(BuffersAfter(seen, size), c, size)
  {
    assert Init(seen + [c]) == seen && Last(seen + [c]) == c;
  }

  /** The insert looks at the buffer of its own symbol only. */
  lemma InsertOfSameBuffer<F>(t: map<Key, F>, b: Buffers, b': Buffers, c: Candle, cfg: Config<F>)
    requires BufferOf(b, c.symbol) == BufferOf(b', c.symbol)
    ensures InsertFeatures(t, b, c, cfg) == InsertFeatures(t, b', c, cfg)
  {
  }

  lemma FeaturesStep<F>(log: seq<Candle>, p: nat, cfg: Config<F>)
    requires p < |log|
    ensures FeaturesAfter(log[..p + 1], cfg)
         == InsertFeatures(FeaturesAfter(log[..p], cfg), BuffersAfter(log[..p + 1], cfg.size), log[p], cfg)
  {
    assert Init(log[..p + 1]) == log[..p];
  }

  /** A price already inserted by the longer pass is not inserted again. */
  lemma InsertPriceAgain(log: seq<Candle>, prices: map<Key, Candle>, k: nat, p: nat)
    requires k <= p <= |log| && k < |log| && prices == PricesAfter(log[..p])
    ensures Insert(prices, KeyOf(log[k]), log[k]) == PricesAfter(log[..if k < p then p else p + 1])
  {
    if k < p {
      PriceKeysStay(log, k, p);
    } else {
      PricesStep(log, p);
    }
  }

  /** Message n is the first with this key. */
  ghost predicate IsFirst(log: seq<Candle>, k: Key, n: int) {
    0 <= n < |log| && KeyOf(log[n]) == k && forall i :: 0 <= i < n ==> KeyOf(log[i]) != k
  }

  /** The price table holds the first candle of every key in the log, and nothing else. */
  lemma {:induction false} PriceOfFirst(log: seq<Candle>, k: Key)
    ensures if k in PricesAfter(log) then exists n :: IsFirst(log, k, n) && PricesAfter(log)[k] == log[n]
      else forall i :: 0 <= i < |log| ==> KeyOf(log[i]) != k
  {
    if |log| != 0 {
      var init := Init(log);
      PriceOfFirst(init, k);
      assert forall i :: 0 <= i < |init| ==> init[i] == log[i];
      if k in PricesAfter(init) {
        var n :| IsFirst(init, k, n) && PricesAfter(init)[k] == init[n];
        assert IsFirst(log, k, n);
      } else if KeyOf(Last(log)) == k {
        assert IsFirst(log, k, |log| - 1);
      }
    }
  }

  // ---------------------------------------------------------------- the buffers and the history

  /** All candles of a symbol, oldest first. */
  function History(log: seq<Candle>, symbol: string): seq<Candle> {
    if |log| == 0 then []
    else History(Init(log), symbol) + if Last(log).symbol == symbol then [Last(log)] else []
  }

  lemma PushedBuffer(b: Buffers, c: Candle, size: nat, symbol: string)
    ensures BufferOf(Push(b, c, size), symbol)
         == if c.symbol == symbol then Newest(BufferOf(b, symbol) + [c], size) else BufferOf(b, symbol)
  {
  }

  lemma NewestAppend(h: seq<Candle>, c: Candle, size: nat)
    ensures Newest(Newest(h, size) + [c], size) == Newest(h + [c], size)
  {
  }

  /** Each buffer is exactly the newest candles of its symbol, for any interleaving. */
  lemma {:induction false} BufferIsNewestHistory(log: seq<Candle>, size: nat, symbol: string)
    ensures BufferOf(BuffersAfter(log, size), symbol) == Newest(History(log, symbol), size)
  {
    if |log| != 0 {
      hide Push, BufferOf, Newest;
      BufferIsNewestHistory(Init(log), size, symbol);
      PushedBuffer(BuffersAfter(Init(log), size), Last(log), size, symbol);
      var h := History(Init(log), symbol);
      if Last(log).symbol == symbol {
        NewestAppend(h, Last(log), size);
      } else {
        assert h + [] == h;
      }
    }
  }

  lemma {:induction false} HistoryAppend(a: seq<Candle>, b: seq<Candle>, symbol: string)
    ensures History(a + b, symbol) == History(a, symbol) + History(b, symbol)
  {
    if |b| == 0 {
      assert a + b == a;
    } else {
      assert Init(a + b) == a + Init(b) && Last(a + b) == Last(b);
      HistoryAppend(a, Init(b), symbol);
    }
  }

  // ---------------------------------------------------------------- buffers rebuilt from a part of the log

  /** The messages of the log from one on up to another. */
  function Part(log: seq<Candle>, from: nat, to: nat): seq<Candle>
    requires from <= to <= |log|
  {
    log[from..to]
  }

  lemma PartNext(log: seq<Candle>, from: nat, to: nat)
    requires from < to <= |log|
    ensures Part(log, from, to) == Part(log, from, to - 1) + [log[to - 1]]
  {
  }

  lemma PartOfPrefix(log: seq<Candle>, from: nat, to: nat)
    requires from <= to <= |log|
    ensures log[..to][from..] == Part(log, from, to) && log[..to][..from] == log[..from]
  {
  }

  /** The log from here on holds as many candles of the symbol as the buffer of the whole log does. */
  predicate Enough(log: seq<Candle>, from: nat, symbol: string, size: nat)
    requires from <= |log|
  {
    |History(log[from..], symbol)| >= size || |History(log[from..], symbol)| >= |History(log, symbol)|
  }

  lemma SuffixNewest(h: seq<Candle>, t: seq<Candle>, size: nat)
    ensures Newest(t, size) == Newest(h + t, size) <==> |t| >= size || |t| >= |h + t|
  {
    if |t| < size && |t| < |h + t| {
      assert |Newest(t, size)| != |Newest(h + t, size)|;
    }
  }

  /**
    A buffer rebuilt from the log from some message on equals the one of the
    whole log if and only if enough candles of its symbol are left.
  */
  lemma RebuiltBufferExactlyWhen(log: seq<Candle>, from: nat, symbol: string, size: nat)
    requires from <= |log|
    ensures BufferOf(BuffersAfter(log[from..], size), symbol) == BufferOf(BuffersAfter(log, size), symbol)
       <==> Enough(log, from, symbol, size)
  {
    hide BuffersAfter, Newest, BufferOf;
    BufferIsNewestHistory(log, size, symbol);
    BufferIsNewestHistory(log[from..], size, symbol);
    assert log[..from] + log[from..] == log;
    HistoryAppend(log[..from], log[from..], symbol);
    SuffixNewest(History(log[..from], symbol), History(log[from..], symbol), size);
  }

  /** No symbol has more candles in a than in b. */
  ghost predicate Fewer(a: seq<Candle>, b: seq<Candle>) {
    forall s :: |History(a, s)| <= |History(b, s)|
  }

  /** Older candles in the memory of a process do no harm. */
  lemma BufferWithOlder(older: seq<Candle>, log: seq<Candle>, from: nat, symbol: string, size: nat)
    requires from <= |log| && Fewer(older, log[..from])
    ensures Enough(log, from, symbol, size) ==>
      BufferOf(BuffersAfter(older + log[from..], size), symbol) == BufferOf(BuffersAfter(log, size), symbol)
    ensures |BufferOf(BuffersAfter(older + log[from..], size), symbol)| <= |BufferOf(BuffersAfter(log, size), symbol)|
  {
    hide BuffersAfter, Newest, BufferOf;
    BufferIsNewestHistory(log, size, symbol);
    BufferIsNewestHistory(older + log[from..], size, symbol);
    assert log[..from] + log[from..] == log;
    HistoryAppend(log[..from], log[from..], symbol);
    HistoryAppend(older, log[from..], symbol);
    hide History;
    SuffixNewest(History(log[..from], symbol), History(log[from..], symbol), size);
    SuffixNewest(History(older, symbol), History(log[from..], symbol), size);
  }

  /** Messages skipped after some were read: what was read is fewer than what was before. */
  lemma FewerAfterSkip(older: seq<Candle>, log: seq<Candle>, from: nat, cursor: nat, base: nat)
    requires from <= cursor <= base <= |log| && Fewer(older, log[..from])
    ensures Fewer(older + log[from..cursor], log[..base])
  {
    forall s ensures |History(older + log[from..cursor], s)| <= |History(log[..base], s)| {
      HistoryAppend(older, log[from..cursor], s);
      HistoryAppend(log[..from], log[from..cursor], s);
      HistoryAppend(log[..cursor], log[cursor..base], s);
      assert log[..from] + log[from..cursor] == log[..cursor] && log[..cursor] + log[cursor..base] == log[..base];
    }
  }
}
