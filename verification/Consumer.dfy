/**
  The stream consumer of the feature service: a cursor and ring buffers in memory,
  two tables, and a restart after a crash at any point. The stream keeps only its
  newest messages, so a restart resumes at the oldest one that is left.
*/
module Consumer {
  import opened Features
  import opened StreamTables

  /** Where in the handling of a message the consumer stands. */
  datatype Stage = Idle | Persisted | Buffered

  datatype State<F> = State(cursor: nat, stage: Stage, buffers: Buffers, prices: map<Key, Candle>, features: map<Key, F>)

  function Fresh<F>(): State<F> {
    State(0, Idle, map[], map[], map[])
  }

  // ---------------------------------------------------------------- the service

  /** The state after one whole message, from moving the cursor to the feature insert. */
  function Processed<F>(st: State<F>, c: Candle, cfg: Config<F>): State<F> {
    var buffers := Push(st.buffers, c, cfg.size);
    State(st.cursor + 1, Idle, buffers, Insert(st.prices, KeyOf(c), c), InsertFeatures(st.features, buffers, c, cfg))
  }

  /** A crash loses the memory; the tables survive and the stream is read from the oldest message left. */
  function Crashed<F>(st: State<F>, base: nat): State<F> {
    st.(cursor := base, stage := Idle, buffers := map[])
  }

  /** The messages from the cursor to the end of the log, one after the other. */
  function Pass<F>(st: State<F>, log: seq<Candle>, cfg: Config<F>): State<F>
    decreases |log| - st.cursor
  {
    if st.cursor < |log| then Pass(Processed(st, log[st.cursor], cfg), log, cfg) else st
  }

  class FeatureService<F> {
    const cfg: Config<F>
    var lastId: nat
    var buffers: Buffers
    var prices: map<Key, Candle>
    var features: map<Key, F>

    function Snapshot(): State<F>
      reads this
    {
      State(lastId, Idle, buffers, prices, features)
    }

    constructor (cfg: Config<F>)
      ensures this.cfg == cfg && Snapshot() == Fresh()
    {
      this.cfg := cfg;
      lastId, buffers, prices, features := 0, map[], map[], map[];
    }

    /** One message. */
    method Process(c: Candle)
      modifies this
      ensures Snapshot() == Processed(old(Snapshot()), c, cfg)
    {
      lastId := lastId + 1;
      prices := Insert(prices, KeyOf(c), c);
      buffers := Push(buffers, c, cfg.size);
      var buf := BufferOf(buffers, c.symbol);
      if |buf| >= cfg.minBuffer {
        features := Insert(features, KeyOf(c), cfg.featuresOf(buf));
      }
    }

    /** What is left of the service when its process starts again; base is the oldest message left. */
    method Restart(base: nat)
      modifies this`lastId, this`buffers
      ensures Snapshot() == Crashed(old(Snapshot()), base)
    {
      lastId, buffers := base, map[];
    }

    /** The loop, up to the end of the log. */
    method Consume(log: seq<Candle>)
      modifies this
      ensures Snapshot() == Pass(old(Snapshot()), log, cfg)
    {
      while lastId < |log|
        invariant Pass(Snapshot(), log, cfg) == Pass(old(Snapshot()), log, cfg)
      {
        Process(log[lastId]);
      }
    }

    /**
      A restart on the tables a crash left, wherever in a message it came. The
      prices are those of one uninterrupted pass; the features are too if each
      message not yet handled finds enough candles in what is left of the stream.
    */
    method Recover(log: seq<Candle>, base: nat, ghost crashed: System<F>, ghost p: nat, ghost older: seq<Candle>)
      requires crashed.log == log && crashed.base == base && Consistent(crashed, cfg, p, older)
      requires prices == crashed.st.prices && features == crashed.st.features
      modifies this
      ensures prices == PricesAfter(log) && lastId == |log|
      ensures base <= |log| && buffers == BuffersAfter(log[base..], cfg.size)
      ensures FeaturesConsistent(crashed, cfg) && EnoughFrom(log, base, crashed.done, cfg.size) ==>
        features == FeaturesAfter(log, cfg)
    {
      Restart(base);
      assert Snapshot() == Crashed(crashed.st, base);
      Consume(log);
      RecoveryIsWholePass(crashed, cfg, p, older);
    }
  }

  // ---------------------------------------------------------------- crashes at any point, and a trimmed stream

  /**
    log  - every message ever sent
    base - the oldest message the stream still holds
    from - where the process, or its last skip, began to read without a gap
    done - how many messages have been handled to the end
  */
  datatype System<F> = System(log: seq<Candle>, base: nat, from: nat, done: nat, st: State<F>)

  /**
    The stream grows, or drops messages that have been handled; the consumer
    takes its next small step, or it crashes and restarts; or it reads on at the
    oldest message left, because those before it are gone.
  */
  datatype Event = Arrive(c: Candle) | Trim(n: nat) | Work | Crash | Skip

  function Start<F>(): System<F> {
    System([], 0, 0, 0, Fresh())
  }

  /** One of the three effects of handling a message; with nothing to read it blocks. */
  function WorkStep<F>(log: seq<Candle>, st: State<F>, cfg: Config<F>): State<F> {
    match st.stage
    case Idle =>
      if st.cursor < |log| then
        st.(cursor := st.cursor + 1, stage := Persisted,
            prices := Insert(st.prices, KeyOf(log[st.cursor]), log[st.cursor]))
      else st
    case Persisted =>
      if 0 < st.cursor <= |log| then
        st.(stage := Buffered, buffers := Push(st.buffers, log[st.cursor - 1], cfg.size))
      else st
    case Buffered =>
      if 0 < st.cursor <= |log| then
        st.(stage := Idle, features := InsertFeatures(st.features, st.buffers, log[st.cursor - 1], cfg))
      else st
  }

  /** The step ends the handling of a message. */
  predicate Finishes<F>(sys: System<F>, e: Event) {
    e.Work? && sys.st.stage.Buffered? && 0 < sys.st.cursor <= |sys.log|
  }

  function Step<F>(sys: System<F>, cfg: Config<F>, e: Event): System<F> {
    match e
    case Arrive(c) => sys.(log := sys.log + [c])
    case Trim(n) => if sys.base < n <= sys.done then sys.(base := n) else sys
    case Work =>
      sys.(st := WorkStep(sys.log, sys.st, cfg),
           done := if Finishes(sys, Work) && sys.st.cursor > sys.done then sys.st.cursor else sys.done)
    case Crash => sys.(st := Crashed(sys.st, sys.base), from := sys.base)
    case Skip =>
      if sys.st.stage.Idle? && sys.st.cursor < sys.base
      then sys.(st := sys.st.(cursor := sys.base), from := sys.base) else sys
  }

  function Run<F>(sys: System<F>, cfg: Config<F>, events: seq<Event>): System<F>
    decreases |events|
  {
    if |events| == 0 then sys else Run(Step(sys, cfg, events[0]), cfg, events[1..])
  }

  /** The candles in memory come from what was read before the last skip and from the log since. */
  function Seen(log: seq<Candle>, from: nat, older: seq<Candle>, to: nat): seq<Candle>
    requires from <= to <= |log|
  {
    older + Part(log, from, to)
  }

  /**
    The price table is what an uninterrupted pass leaves after the first p
    messages, and the memory is what reading the messages seen leaves.
  */
  ghost predicate Consistent<F>(sys: System<F>, cfg: Config<F>, p: nat, older: seq<Candle>) {
    var log, st := sys.log, sys.st;
    && sys.base <= sys.done <= p <= |log| && sys.from <= sys.done && st.cursor <= p
    && st.prices == PricesAfter(log[..p])
    && Fewer(older, log[..sys.from])
    && match st.stage
       case Idle => sys.from <= st.cursor <= sys.done
                    && st.buffers == BuffersAfter(Seen(sys.log, sys.from, older, st.cursor), cfg.size)
       case Persisted => sys.from < st.cursor <= sys.done + 1
                         && st.buffers == BuffersAfter(Seen(sys.log, sys.from, older, st.cursor - 1), cfg.size)
       case Buffered => sys.from < st.cursor <= sys.done + 1
                        && st.buffers == BuffersAfter(Seen(sys.log, sys.from, older, st.cursor), cfg.size)
  }

  /** The feature table is what an uninterrupted pass leaves after the messages handled to the end. */
  ghost predicate FeaturesConsistent<F>(sys: System<F>, cfg: Config<F>) {
    sys.done <= |sys.log| && sys.st.features == FeaturesAfter(sys.log[..sys.done], cfg)
  }

  // ---------------------------------------------------------------- every event keeps the prices and the memory

  lemma ArriveKeepsConsistent<F>(sys: System<F>, cfg: Config<F>, c: Candle, p: nat, older: seq<Candle>)
    requires Consistent(sys, cfg, p, older)
    ensures Consistent(Step(sys, cfg, Arrive(c)), cfg, p, older)
  {
    hide PricesAfter, BuffersAfter, Fewer;
    var log := sys.log + [c];
    assert forall n | 0 <= n <= |sys.log| :: log[..n] == sys.log[..n];
    assert forall n | sys.from <= n <= |sys.log| :: log[sys.from..n] == sys.log[sys.from..n];
  }

  lemma PersistKeepsConsistent<F>(sys: System<F>, cfg: Config<F>, p: nat, older: seq<Candle>) returns (p': nat)
    requires Consistent(sys, cfg, p, older) && sys.st.stage.Idle? && sys.st.cursor < |sys.log|
    ensures Consistent(Step(sys, cfg, Work), cfg, p', older)
  {
    hide PricesAfter, BuffersAfter, Insert, Push, InsertFeatures, Fewer;
    p' := if sys.st.cursor < p then p else p + 1;
    InsertPriceAgain(sys.log, sys.st.prices, sys.st.cursor, p);
  }

  lemma BufferKeepsConsistent<F>(sys: System<F>, cfg: Config<F>, p: nat, older: seq<Candle>)
    requires Consistent(sys, cfg, p, older) && sys.st.stage.Persisted?
    ensures Consistent(Step(sys, cfg, Work), cfg, p, older)
  {
    hide PricesAfter, BuffersAfter, Push, Fewer, Seen;
    SeenNext(sys, older, sys.st.cursor);
    BuffersPush(Seen(sys.log, sys.from, older, sys.st.cursor - 1), sys.log[sys.st.cursor - 1], cfg.size);
  }

  lemma SeenNext<F>(sys: System<F>, older: seq<Candle>, to: nat)
    requires sys.from < to <= |sys.log|
    ensures Seen(sys.log, sys.from, older, to) == Seen(sys.log, sys.from, older, to - 1) + [sys.log[to - 1]]
  {
    PartNext(sys.log, sys.from, to);
  }

  lemma FinishKeepsConsistent<F>(sys: System<F>, cfg: Config<F>, p: nat, older: seq<Candle>)
    requires Consistent(sys, cfg, p, older) && sys.st.stage.Buffered?
    ensures Consistent(Step(sys, cfg, Work), cfg, p, older)
  {
    hide PricesAfter, BuffersAfter, InsertFeatures, Fewer;
  }

  lemma SkipKeepsConsistent<F>(sys: System<F>, cfg: Config<F>, p: nat, older: seq<Candle>)
    requires Consistent(sys, cfg, p, older) && sys.st.stage.Idle? && sys.st.cursor < sys.base
    ensures Consistent(Step(sys, cfg, Skip), cfg, p, Seen(sys.log, sys.from, older, sys.st.cursor))
  {
    FewerAfterSkip(older, sys.log, sys.from, sys.st.cursor, sys.base);
    hide PricesAfter, BuffersAfter, Fewer;
    var seen := Seen(sys.log, sys.from, older, sys.st.cursor);
    assert seen + sys.log[sys.base..sys.base] == seen;
  }

  lemma CrashKeepsConsistent<F>(sys: System<F>, cfg: Config<F>, p: nat, older: seq<Candle>)
    requires Consistent(sys, cfg, p, older)
    ensures Consistent(Step(sys, cfg, Crash), cfg, p, [])
  {
    assert [] + sys.log[sys.base..sys.base] == [];
    assert Fewer([], sys.log[..sys.base]);
    hide PricesAfter, Fewer;
  }

  /** Every event keeps the prices on some prefix of the uninterrupted pass, and the memory on what was seen. */
  lemma StepKeepsConsistent<F>(sys: System<F>, cfg: Config<F>, e: Event, p: nat, older: seq<Candle>)
    returns (p': nat, older': seq<Candle>)
    requires Consistent(sys, cfg, p, older)
    ensures Consistent(Step(sys, cfg, e), cfg, p', older')
  {
    p', older' := p, older;
    match e
    case Arrive(c) => ArriveKeepsConsistent(sys, cfg, c, p, older);
    case Trim(n) => TrimKeepsConsistent(sys, cfg, n, p, older);
    case Crash =>
      CrashKeepsConsistent(sys, cfg, p, older);
      older' := [];
    case Skip =>
      if sys.st.stage.Idle? && sys.st.cursor < sys.base {
        SkipKeepsConsistent(sys, cfg, p, older);
        older' := Seen(sys.log, sys.from, older, sys.st.cursor);
      } else {
        hide Consistent;
      }
    case Work => p' := WorkKeepsConsistent(sys, cfg, p, older);
  }

  lemma TrimKeepsConsistent<F>(sys: System<F>, cfg: Config<F>, n: nat, p: nat, older: seq<Candle>)
    requires Consistent(sys, cfg, p, older)
    ensures Consistent(Step(sys, cfg, Trim(n)), cfg, p, older)
  {
    hide PricesAfter, BuffersAfter, Fewer, Seen;
  }

  lemma WorkKeepsConsistent<F>(sys: System<F>, cfg: Config<F>, p: nat, older: seq<Candle>) returns (p': nat)
    requires Consistent(sys, cfg, p, older)
    ensures Consistent(Step(sys, cfg, Work), cfg, p', older)
  {
    hide PricesAfter, BuffersAfter, Fewer, Seen, Insert, Push, InsertFeatures;
    p' := p;
    if sys.st.stage.Persisted? {
      BufferKeepsConsistent(sys, cfg, p, older);
    } else if sys.st.stage.Buffered? {
      FinishKeepsConsistent(sys, cfg, p, older);
    } else if sys.st.cursor < |sys.log| {
      p' := PersistKeepsConsistent(sys, cfg, p, older);
    }
  }

  lemma StartIsConsistent<F>(cfg: Config<F>)
    ensures Consistent(Start<F>(), cfg, 0, []) && FeaturesConsistent(Start<F>(), cfg)
  {
  }

  // ---------------------------------------------------------------- when the features keep up

  /** The first message not yet handled to the end finds the buffer an uninterrupted pass would have. */
  predicate FindsEnough<F>(sys: System<F>, e: Event, size: nat) {
    Finishes(sys, e) && sys.st.cursor == sys.done + 1 && sys.from <= sys.st.cursor ==>
      Enough(sys.log[..sys.st.cursor], sys.from, sys.log[sys.st.cursor - 1].symbol, size)
  }

  /** What the step inserts is what an uninterrupted pass inserts for that message. */
  ghost predicate InsertsTheSame<F>(sys: System<F>, e: Event, cfg: Config<F>) {
    Finishes(sys, e) && sys.st.cursor == sys.done + 1 ==>
      var log, c := sys.log[..sys.st.cursor], sys.log[sys.st.cursor - 1];
      InsertFeatures(sys.st.features, sys.st.buffers, c, cfg)
        == InsertFeatures(sys.st.features, BuffersAfter(log, cfg.size), c, cfg)
  }

  lemma SeenIsSuffix<F>(sys: System<F>, older: seq<Candle>, to: nat)
    requires sys.from <= to <= |sys.log| && Fewer(older, sys.log[..sys.from])
    ensures Seen(sys.log, sys.from, older, to) == older + sys.log[..to][sys.from..]
    ensures Fewer(older, sys.log[..to][..sys.from])
  {
    PartOfPrefix(sys.log, sys.from, to);
  }

  lemma FoundEnoughInsertsTheSame<F>(sys: System<F>, cfg: Config<F>, e: Event, p: nat, older: seq<Candle>)
    requires Consistent(sys, cfg, p, older) && FindsEnough(sys, e, cfg.size)
    ensures InsertsTheSame(sys, e, cfg)
  {
    if Finishes(sys, e) && sys.st.cursor == sys.done + 1 {
      hide Fewer, BuffersAfter, PricesAfter, History, Enough, InsertFeatures;
      SameBufferFound(sys, cfg, p, older);
      InsertOfSameBuffer(sys.st.features, sys.st.buffers, BuffersAfter(sys.log[..sys.st.cursor], cfg.size),
                         sys.log[sys.st.cursor - 1], cfg);
    }
  }

  lemma SameBufferFound<F>(sys: System<F>, cfg: Config<F>, p: nat, older: seq<Candle>)
    requires Consistent(sys, cfg, p, older) && sys.st.stage.Buffered?
    requires Enough(sys.log[..sys.st.cursor], sys.from, sys.log[sys.st.cursor - 1].symbol, cfg.size)
    ensures var s := sys.log[sys.st.cursor - 1].symbol;
      BufferOf(sys.st.buffers, s) == BufferOf(BuffersAfter(sys.log[..sys.st.cursor], cfg.size), s)
  {
    var k := sys.st.cursor;
    hide Fewer, BuffersAfter, PricesAfter, Enough, BufferOf, Seen;
    SeenIsSuffix(sys, older, k);
    BufferWithOlder(older, sys.log[..k], sys.from, sys.log[k - 1].symbol, cfg.size);
  }

  /** A message handled before is not inserted again: the row of the uninterrupted pass is there already. */
  lemma HandledAgain<F>(sys: System<F>, cfg: Config<F>, p: nat, older: seq<Candle>)
    requires Consistent(sys, cfg, p, older) && FeaturesConsistent(sys, cfg)
    requires sys.st.stage.Buffered? && sys.st.cursor <= sys.done
    ensures InsertFeatures(sys.st.features, sys.st.buffers, sys.log[sys.st.cursor - 1], cfg) == sys.st.features
  {
    var k, c := sys.st.cursor, sys.log[sys.st.cursor - 1];
    if |BufferOf(sys.st.buffers, c.symbol)| >= cfg.minBuffer {
      hide Fewer, BuffersAfter, PricesAfter, FeaturesAfter, Seen, BufferOf;
      SmallerBufferFound(sys, cfg, p, older);
      FeatureKeysStay(sys.log, cfg, k - 1, sys.done);
    }
  }

  lemma SmallerBufferFound<F>(sys: System<F>, cfg: Config<F>, p: nat, older: seq<Candle>)
    requires Consistent(sys, cfg, p, older) && sys.st.stage.Buffered?
    ensures var s := sys.log[sys.st.cursor - 1].symbol;
      |BufferOf(sys.st.buffers, s)| <= |BufferOf(BuffersAfter(sys.log[..sys.st.cursor], cfg.size), s)|
  {
    hide Fewer, BuffersAfter, PricesAfter, Enough, BufferOf, Seen;
    SeenIsSuffix(sys, older, sys.st.cursor);
    BufferWithOlder(older, sys.log[..sys.st.cursor], sys.from, sys.log[sys.st.cursor - 1].symbol, cfg.size);
  }

  /**
    One event keeps the features on the uninterrupted pass if and only if a
    message handled for the first time inserts what that pass inserts.
  */
  lemma StepKeepsFeaturesExactlyWhen<F>(sys: System<F>, cfg: Config<F>, e: Event, p: nat, older: seq<Candle>)
    requires Consistent(sys, cfg, p, older) && FeaturesConsistent(sys, cfg)
    ensures FeaturesConsistent(Step(sys, cfg, e), cfg) <==> InsertsTheSame(sys, e, cfg)
  {
    if Finishes(sys, e) {
      FinishKeepsFeatures(sys, cfg, e, p, older);
    } else {
      hide FeaturesConsistent, Consistent, Step;
      OtherKeepsFeatures(sys, cfg, e);
    }
  }

  lemma FinishKeepsFeatures<F>(sys: System<F>, cfg: Config<F>, e: Event, p: nat, older: seq<Candle>)
    requires Consistent(sys, cfg, p, older) && FeaturesConsistent(sys, cfg) && Finishes(sys, e)
    ensures FeaturesConsistent(Step(sys, cfg, e), cfg) <==> InsertsTheSame(sys, e, cfg)
  {
    hide Consistent, FeaturesAfter, BuffersAfter, InsertFeatures;
    if sys.st.cursor <= sys.done {
      HandledAgain(sys, cfg, p, older);
    } else {
      CursorIsNext(sys, cfg, p, older);
      FeaturesStep(sys.log, sys.done, cfg);
    }
  }

  lemma CursorIsNext<F>(sys: System<F>, cfg: Config<F>, p: nat, older: seq<Candle>)
    requires Consistent(sys, cfg, p, older) && !sys.st.stage.Idle?
    ensures sys.st.cursor <= sys.done + 1
  {
    hide PricesAfter, BuffersAfter, Fewer, Seen;
  }

  lemma OtherKeepsFeatures<F>(sys: System<F>, cfg: Config<F>, e: Event)
    requires FeaturesConsistent(sys, cfg) && !Finishes(sys, e)
    ensures FeaturesConsistent(Step(sys, cfg, e), cfg)
  {
    hide FeaturesAfter;
    if e.Arrive? {
      assert (sys.log + [e.c])[..sys.done] == sys.log[..sys.done];
    }
  }

  /** At every first handling of the run the stream, as far as it was read, held enough candles. */
  predicate AlwaysEnough<F>(sys: System<F>, cfg: Config<F>, events: seq<Event>)
    decreases |events|
  {
    |events| > 0 ==>
      FindsEnough(sys, events[0], cfg.size) && AlwaysEnough(Step(sys, cfg, events[0]), cfg, events[1..])
  }

  ghost predicate AlwaysTheSame<F>(sys: System<F>, cfg: Config<F>, events: seq<Event>)
    decreases |events|
  {
    |events| > 0 ==>
      InsertsTheSame(sys, events[0], cfg) && AlwaysTheSame(Step(sys, cfg, events[0]), cfg, events[1..])
  }

  ghost predicate AlwaysConsistent<F>(sys: System<F>, cfg: Config<F>, events: seq<Event>)
    decreases |events|
  {
    FeaturesConsistent(sys, cfg) && (|events| > 0 ==> AlwaysConsistent(Step(sys, cfg, events[0]), cfg, events[1..]))
  }

  lemma {:induction false} RunKeepsConsistent<F>(sys: System<F>, cfg: Config<F>, events: seq<Event>, p: nat,
                                                 older: seq<Candle>)
    returns (p': nat, older': seq<Candle>)
    requires Consistent(sys, cfg, p, older)
    ensures Consistent(Run(sys, cfg, events), cfg, p', older')
    decreases |events|
  {
    hide Consistent, Step;
    p', older' := p, older;
    if |events| != 0 {
      p', older' := StepKeepsConsistent(sys, cfg, events[0], p, older);
      p', older' := RunKeepsConsistent(Step(sys, cfg, events[0]), cfg, events[1..], p', older');
    }
  }

  /** Over any run: the features are those of the uninterrupted pass at every moment if and only if every first insert is. */
  lemma {:induction false} AlwaysConsistentExactlyWhen<F>(sys: System<F>, cfg: Config<F>, events: seq<Event>, p: nat,
                                                          older: seq<Candle>)
    requires Consistent(sys, cfg, p, older) && FeaturesConsistent(sys, cfg)
    ensures AlwaysConsistent(sys, cfg, events) <==> AlwaysTheSame(sys, cfg, events)
    decreases |events|
  {
    hide Consistent, FeaturesConsistent, InsertsTheSame, Step;
    if |events| != 0 {
      var p', older' := StepKeepsConsistent(sys, cfg, events[0], p, older);
      StepKeepsFeaturesExactlyWhen(sys, cfg, events[0], p, older);
      if FeaturesConsistent(Step(sys, cfg, events[0]), cfg) {
        AlwaysConsistentExactlyWhen(Step(sys, cfg, events[0]), cfg, events[1..], p', older');
      }
    }
  }

  lemma {:induction false} EnoughKeepsFeatures<F>(sys: System<F>, cfg: Config<F>, events: seq<Event>, p: nat,
                                                  older: seq<Candle>)
    requires Consistent(sys, cfg, p, older) && FeaturesConsistent(sys, cfg) && AlwaysEnough(sys, cfg, events)
    ensures FeaturesConsistent(Run(sys, cfg, events), cfg)
    decreases |events|
  {
    hide Consistent, FeaturesConsistent, FindsEnough, InsertsTheSame, Step;
    if |events| != 0 {
      var p', older' := StepKeepsConsistent(sys, cfg, events[0], p, older);
      FoundEnoughInsertsTheSame(sys, cfg, events[0], p, older);
      StepKeepsFeaturesExactlyWhen(sys, cfg, events[0], p, older);
      EnoughKeepsFeatures(Step(sys, cfg, events[0]), cfg, events[1..], p', older');
    }
  }

  // ---------------------------------------------------------------- crash-replay equivalence

  ghost predicate CaughtUp<F>(sys: System<F>) {
    sys.st.stage.Idle? && sys.st.cursor == |sys.log|
  }

  /**
    Crash-replay equivalence. Take any log, any sequence of crashes at any point
    inside the handling of a message, and any trimming of handled messages.
    Whenever the consumer is at the end of the log the prices are those of one
    uninterrupted pass. The features are too, if at every first handling of a
    message the part of the log that was read held enough candles of its symbol;
    and so is the buffer of each symbol that has enough left. No assumption on
    the order or uniqueness of candles is needed.
  */
  lemma CrashReplayEquivalence<F>(cfg: Config<F>, events: seq<Event>)
    requires CaughtUp(Run(Start<F>(), cfg, events))
    ensures var sys := Run(Start<F>(), cfg, events);
      && sys.st.prices == PricesAfter(sys.log)
      && (AlwaysEnough(Start<F>(), cfg, events) ==> sys.st.features == FeaturesAfter(sys.log, cfg))
      && sys.from <= |sys.log|
      && forall s :: Enough(sys.log, sys.from, s, cfg.size) ==>
        BufferOf(sys.st.buffers, s) == BufferOf(BuffersAfter(sys.log, cfg.size), s)
  {
    hide Consistent, FeaturesConsistent, Run, AlwaysEnough, BuffersAfter;
    StartIsConsistent(cfg);
    var p, older := RunKeepsConsistent(Start<F>(), cfg, events, 0, []);
    CaughtUpIsWholePass(Run(Start<F>(), cfg, events), cfg, p, older);
    if AlwaysEnough(Start<F>(), cfg, events) {
      EnoughKeepsFeatures(Start<F>(), cfg, events, 0, []);
    }
  }

  lemma CaughtUpIsWholePass<F>(sys: System<F>, cfg: Config<F>, p: nat, older: seq<Candle>)
    requires Consistent(sys, cfg, p, older) && CaughtUp(sys)
    ensures sys.st.prices == PricesAfter(sys.log) && sys.from <= |sys.log|
    ensures FeaturesConsistent(sys, cfg) ==> sys.st.features == FeaturesAfter(sys.log, cfg)
    ensures forall s :: Enough(sys.log, sys.from, s, cfg.size) ==>
      BufferOf(sys.st.buffers, s) == BufferOf(BuffersAfter(sys.log, cfg.size), s)
  {
    MemoryIs(sys, cfg, p, older);
    TablesAreWhole(sys, cfg, p, older);
    hide *;
    forall s | Enough(sys.log, sys.from, s, cfg.size)
      ensures BufferOf(sys.st.buffers, s) == BufferOf(BuffersAfter(sys.log, cfg.size), s)
    {
      WholeBuffer(sys.log, sys.from, older, sys.st.buffers, cfg.size, s);
    }
  }

  lemma TablesAreWhole<F>(sys: System<F>, cfg: Config<F>, p: nat, older: seq<Candle>)
    requires Consistent(sys, cfg, p, older) && CaughtUp(sys)
    ensures sys.st.prices == PricesAfter(sys.log)
    ensures FeaturesConsistent(sys, cfg) ==> sys.st.features == FeaturesAfter(sys.log, cfg)
  {
    MemoryIs(sys, cfg, p, older);
    assert sys.log[..|sys.log|] == sys.log;
    hide Fewer, BuffersAfter, PricesAfter, FeaturesAfter, Seen;
  }

  lemma MemoryIs<F>(sys: System<F>, cfg: Config<F>, p: nat, older: seq<Candle>)
    requires Consistent(sys, cfg, p, older) && CaughtUp(sys)
    ensures sys.from <= |sys.log| && Fewer(older, sys.log[..sys.from]) && p == sys.done == |sys.log|
    ensures sys.st.buffers == BuffersAfter(Seen(sys.log, sys.from, older, |sys.log|), cfg.size)
  {
    hide Fewer, BuffersAfter, PricesAfter, Seen;
  }

  lemma WholeBuffer(log: seq<Candle>, from: nat, older: seq<Candle>, b: Buffers, size: nat, s: string)
    requires from <= |log| && Fewer(older, log[..from]) && b == BuffersAfter(Seen(log, from, older, |log|), size)
    requires Enough(log, from, s, size)
    ensures BufferOf(b, s) == BufferOf(BuffersAfter(log, size), s)
  {
    assert Seen(log, from, older, |log|) == older + log[from..];
    hide *;
    BufferWithOlder(older, log, from, s, size);
  }

  /** No message of the stream is ever dropped. */
  predicate NeverTrims(events: seq<Event>) {
    forall i :: 0 <= i < |events| ==> !events[i].Trim?
  }

  lemma {:induction false} UntrimmedIsEnough<F>(sys: System<F>, cfg: Config<F>, events: seq<Event>)
    requires sys.base == sys.from == 0 && NeverTrims(events)
    ensures AlwaysEnough(sys, cfg, events) && Run(sys, cfg, events).from == 0
    decreases |events|
  {
    if |events| != 0 {
      assert sys.st.cursor <= |sys.log| ==> sys.log[..sys.st.cursor][0..] == sys.log[..sys.st.cursor];
      var next := Step(sys, cfg, events[0]);
      assert !events[0].Trim?;
      assert next.base == next.from == 0;
      hide Step, WorkStep;
      UntrimmedIsEnough(next, cfg, events[1..]);
    }
  }

  /** While no message is dropped, both tables and all buffers are those of one uninterrupted pass. */
  lemma UntrimmedReplay<F>(cfg: Config<F>, events: seq<Event>)
    requires CaughtUp(Run(Start<F>(), cfg, events)) && NeverTrims(events)
    ensures var sys := Run(Start<F>(), cfg, events);
      && sys.st.prices == PricesAfter(sys.log) && sys.st.features == FeaturesAfter(sys.log, cfg)
      && forall s :: BufferOf(sys.st.buffers, s) == BufferOf(BuffersAfter(sys.log, cfg.size), s)
  {
    hide Run, AlwaysEnough, BuffersAfter, PricesAfter, FeaturesAfter, NeverTrims;
    UntrimmedIsEnough(Start<F>(), cfg, events);
    CrashReplayEquivalence(cfg, events);
    var log := Run(Start<F>(), cfg, events).log;
    assert log[0..] == log;
    hide History;
  }

  // ---------------------------------------------------------------- the machine and the methods

  function Works(n: nat): (es: seq<Event>)
    ensures |es| == n && forall i :: 0 <= i < n ==> es[i] == Work
  {
    seq(n, _ => Work)
  }

  /** The three small steps of a message are the method Process. */
  lemma ThreeStepsAreProcess<F>(log: seq<Candle>, st: State<F>, cfg: Config<F>)
    requires st.stage.Idle? && st.cursor < |log|
    ensures WorkStep(log, WorkStep(log, WorkStep(log, st, cfg), cfg), cfg) == Processed(st, log[st.cursor], cfg)
  {
    hide Push, Insert, InsertFeatures;
  }

  /** The machine after the message at the cursor. */
  function Handled<F>(sys: System<F>, cfg: Config<F>): System<F>
    requires sys.st.cursor < |sys.log|
  {
    sys.(st := Processed(sys.st, sys.log[sys.st.cursor], cfg),
         done := if sys.st.cursor + 1 > sys.done then sys.st.cursor + 1 else sys.done)
  }

  lemma ThreeWorks<F>(sys: System<F>, cfg: Config<F>)
    requires sys.st.stage.Idle? && sys.st.cursor < |sys.log|
    ensures Step(Step(Step(sys, cfg, Work), cfg, Work), cfg, Work) == Handled(sys, cfg)
  {
    ThreeStepsAreProcess(sys.log, sys.st, cfg);
    hide Push, Insert, InsertFeatures;
  }

  /** How far handling got, once the message before the cursor is done. */
  function Handling(done: nat, cursor: nat): nat {
    if cursor > done then cursor else done
  }

  /** The machine after an undisturbed pass to the end of the log. */
  function Passed<F>(sys: System<F>, cfg: Config<F>): System<F> {
    sys.(st := Pass(sys.st, sys.log, cfg),
         done := if sys.st.cursor < |sys.log| then Handling(sys.done, |sys.log|) else sys.done)
  }

  /** And undisturbed the machine gets to the end of the log: three steps per unread message are the method Consume. */
  lemma {:induction false} CatchesUp<F>(sys: System<F>, cfg: Config<F>)
    requires sys.st.stage.Idle? && sys.st.cursor <= |sys.log|
    ensures Run(sys, cfg, Works(3 * (|sys.log| - sys.st.cursor))) == Passed(sys, cfg) && CaughtUp(Passed(sys, cfg))
    decreases |sys.log| - sys.st.cursor
  {
    var n := 3 * (|sys.log| - sys.st.cursor);
    if n > 0 {
      ThreeWorks(sys, cfg);
      hide Step;
      RunThree(sys, cfg, n);
      CatchesUp(Handled(sys, cfg), cfg);
      hide InsertFeatures, Insert, Push;
    }
  }

  lemma RunThree<F>(sys: System<F>, cfg: Config<F>, n: nat)
    requires n >= 3
    ensures Run(sys, cfg, Works(n)) == Run(Step(Step(Step(sys, cfg, Work), cfg, Work), cfg, Work), cfg, Works(n - 3))
  {
    hide Step;
    var s1 := Step(sys, cfg, Work);
    var s2 := Step(s1, cfg, Work);
    assert Works(n)[1..] == Works(n - 1) && Works(n - 1)[1..] == Works(n - 2) && Works(n - 2)[1..] == Works(n - 3);
    assert Run(sys, cfg, Works(n)) == Run(s1, cfg, Works(n - 1)) == Run(s2, cfg, Works(n - 2));
  }

  // ---------------------------------------------------------------- recovery

  /** Each message from done on finds enough candles of its symbol in the log from base on. */
  predicate EnoughFrom(log: seq<Candle>, base: nat, done: nat, size: nat) {
    forall k :: base <= k < |log| && done <= k ==> Enough(log[..k + 1], base, log[k].symbol, size)
  }

  /** What a pass from base on has made of the tables when it stands at the cursor. */
  ghost predicate Recovering<F>(st: State<F>, log: seq<Candle>, cfg: Config<F>, base: nat, done: nat, p: nat) {
    && base <= st.cursor <= p <= |log| && done <= p && st.stage.Idle?
    && st.prices == PricesAfter(log[..p])
    && st.buffers == BuffersAfter(Part(log, base, st.cursor), cfg.size)
  }

  lemma ProcessedRecovers<F>(st: State<F>, log: seq<Candle>, cfg: Config<F>, base: nat, done: nat, p: nat)
    requires Recovering(st, log, cfg, base, done, p) && st.cursor < |log|
    ensures Recovering(Processed(st, log[st.cursor], cfg), log, cfg, base, done, if st.cursor < p then p else p + 1)
  {
    hide PricesAfter, BuffersAfter, Push, Insert, InsertFeatures, Part;
    InsertPriceAgain(log, st.prices, st.cursor, p);
    PartNext(log, base, st.cursor + 1);
    BuffersPush(Part(log, base, st.cursor), log[st.cursor], cfg.size);
  }

  lemma ProcessedFeatures<F>(st: State<F>, log: seq<Candle>, cfg: Config<F>, base: nat, done: nat, p: nat)
    requires Recovering(st, log, cfg, base, done, p) && st.cursor < |log| && done <= |log|
    requires EnoughFrom(log, base, done, cfg.size)
    requires st.features == FeaturesAfter(log[..Handling(done, st.cursor)], cfg)
    ensures Processed(st, log[st.cursor], cfg).features == FeaturesAfter(log[..Handling(done, st.cursor + 1)], cfg)
  {
    hide BuffersAfter, FeaturesAfter, PricesAfter, Push, InsertFeatures, Enough, Part, Insert;
    ProcessedRecovers(st, log, cfg, base, done, p);
    var buffers := Processed(st, log[st.cursor], cfg).buffers;
    if st.cursor < done {
      RecoveredAgain(st.features, buffers, log, cfg, base, done, st.cursor);
    } else {
      assert Enough(log[..st.cursor + 1], base, log[st.cursor].symbol, cfg.size);
      RecoveredFirst(st.features, buffers, log, cfg, base, st.cursor);
    }
  }

  /** A message handled before the crash. */
  lemma RecoveredAgain<F>(features: map<Key, F>, b: Buffers, log: seq<Candle>, cfg: Config<F>, base: nat, done: nat, k: nat)
    requires base <= k < done <= |log| && b == BuffersAfter(Part(log, base, k + 1), cfg.size)
    requires features == FeaturesAfter(log[..done], cfg)
    ensures InsertFeatures(features, b, log[k], cfg) == features
  {
    if |BufferOf(b, log[k].symbol)| >= cfg.minBuffer {
      hide BuffersAfter, FeaturesAfter, BufferOf, Part;
      PartOfPrefix(log, base, k + 1);
      SmallerWhenRebuilt(log[..k + 1], base, log[k].symbol, cfg.size);
      FeatureKeysStay(log, cfg, k, done);
    }
  }

  /** A message handled for the first time. */
  lemma RecoveredFirst<F>(features: map<Key, F>, b: Buffers, log: seq<Candle>, cfg: Config<F>, base: nat, k: nat)
    requires base <= k < |log| && b == BuffersAfter(Part(log, base, k + 1), cfg.size)
    requires features == FeaturesAfter(log[..k], cfg) && Enough(log[..k + 1], base, log[k].symbol, cfg.size)
    ensures InsertFeatures(features, b, log[k], cfg) == FeaturesAfter(log[..k + 1], cfg)
  {
    hide BuffersAfter, FeaturesAfter, BufferOf, Part, Enough, InsertFeatures;
    PartOfPrefix(log, base, k + 1);
    RebuiltBufferExactlyWhen(log[..k + 1], base, log[k].symbol, cfg.size);
    InsertOfSameBuffer(features, b, BuffersAfter(log[..k + 1], cfg.size), log[k], cfg);
    FeaturesStep(log, k, cfg);
  }

  lemma SmallerWhenRebuilt(log: seq<Candle>, base: nat, symbol: string, size: nat)
    requires base <= |log|
    ensures |BufferOf(BuffersAfter(log[base..], size), symbol)| <= |BufferOf(BuffersAfter(log, size), symbol)|
  {
    hide BuffersAfter;
    assert [] + log[base..] == log[base..];
    BufferWithOlder([], log, base, symbol, size);
  }

  lemma {:induction false} PassRecovers<F>(st: State<F>, log: seq<Candle>, cfg: Config<F>, base: nat, done: nat, p: nat)
    requires Recovering(st, log, cfg, base, done, p) && done <= |log|
    ensures var end := Pass(st, log, cfg);
      && end.cursor == |log| && end.stage.Idle?
      && end.prices == PricesAfter(log) && end.buffers == BuffersAfter(log[base..], cfg.size)
      && (EnoughFrom(log, base, done, cfg.size) && st.features == FeaturesAfter(log[..Handling(done, st.cursor)], cfg)
          ==> end.features == FeaturesAfter(log, cfg))
    decreases |log| - st.cursor
  {
    if st.cursor < |log| {
      var next := Processed(st, log[st.cursor], cfg);
      assert next.cursor == st.cursor + 1;
      hide Processed, EnoughFrom, FeaturesAfter, PricesAfter, BuffersAfter, Recovering, Handling;
      ProcessedRecovers(st, log, cfg, base, done, p);
      if EnoughFrom(log, base, done, cfg.size) && st.features == FeaturesAfter(log[..Handling(done, st.cursor)], cfg) {
        ProcessedFeatures(st, log, cfg, base, done, p);
      }
      PassRecovers(next, log, cfg, base, done, if st.cursor < p then p else p + 1);
    } else {
      assert log[..|log|] == log && Part(log, base, |log|) == log[base..];
    }
  }

  /**
    From any consistent state, a crash and an undisturbed pass over what is left
    of the stream leave the prices of the uninterrupted pass and the buffers of
    what is left; and its features, if what is left is enough.
  */
  lemma RecoveryIsWholePass<F>(sys: System<F>, cfg: Config<F>, p: nat, older: seq<Candle>)
    requires Consistent(sys, cfg, p, older)
    ensures var end := Pass(Crashed(sys.st, sys.base), sys.log, cfg);
      && sys.base <= |sys.log| && end.cursor == |sys.log| && end.stage.Idle?
      && end.prices == PricesAfter(sys.log) && end.buffers == BuffersAfter(sys.log[sys.base..], cfg.size)
      && (FeaturesConsistent(sys, cfg) && EnoughFrom(sys.log, sys.base, sys.done, cfg.size)
          ==> end.features == FeaturesAfter(sys.log, cfg))
  {
    assert sys.log[sys.base..sys.base] == [];
    assert Recovering(Crashed(sys.st, sys.base), sys.log, cfg, sys.base, sys.done, p) by {
      hide PricesAfter;
    }
    hide PricesAfter, BuffersAfter, FeaturesAfter, EnoughFrom, Pass;
    PassRecovers(Crashed(sys.st, sys.base), sys.log, cfg, sys.base, sys.done, p);
  }
}
