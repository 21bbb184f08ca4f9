/**
  The websocket client registry of the gateway: a map under a read-write lock
  and an atomic counter, run by any number of goroutines in any interleaving.
*/
module ClientRegistry {
  import opened Reals

  type Conn = nat

  type Tid = nat

  /** Where a goroutine stands; held marks the states inside the write lock. */
  datatype Pc =
    | Idle
    | RegWait(c: Conn)                       // registerClient: before Lock
    | RegHeld(c: Conn)                       //   before the map insert
    | RegInserted(c: Conn)                   //   before Unlock
    | RegUnlocked(c: Conn)                   //   before the atomic add of 1
    | Serving(c: Conn)                       // the handler, until its deferred unregister
    | Collecting(dead: seq<Conn>)            // broadcast: inside the read lock
    | Sweeping(rest: seq<Conn>)              //   after it, unregistering the dead
    | UnregWait(c: Conn, rest: seq<Conn>)    // unregisterClient: before Lock
    | UnregHeld(c: Conn, rest: seq<Conn>)    //   before the existence check
    | UnregDeleted(c: Conn, rest: seq<Conn>) //   deleted, before the atomic add of -1
    | UnregDone(c: Conn, rest: seq<Conn>)    //   before Unlock
  {
    predicate HoldsWrite() {
      RegHeld? || RegInserted? || UnregHeld? || UnregDeleted? || UnregDone?
    }

    /** In the map but not yet counted. */
    predicate AddPending() {
      RegInserted? || RegUnlocked?
    }

    /** Out of the map but still counted. */
    predicate SubPending() {
      UnregDeleted?
    }

    /** On the way to inserting its connection. */
    predicate BeforeInsert() {
      RegWait? || RegHeld?
    }
  }

  /**
    writer, readers - the state of the lock
    inserted        - every connection ever put into the map
    decremented     - how often each connection was subtracted from the counter
  */
  datatype State = State(clients: set<Conn>, connections: int, writer: Option<Tid>, readers: set<Tid>,
                         pcs: map<Tid, Pc>, inserted: set<Conn>, decremented: multiset<Conn>)

  function Initial(): State {
    State({}, 0, None, {}, map[], {}, multiset{})
  }

  function PcOf(s: State, t: Tid): Pc {
    if t in s.pcs then s.pcs[t] else Idle
  }

  function Goto(s: State, t: Tid, pc: Pc): State {
    s.(pcs := s.pcs[t := pc])
  }

  /** BeginRegister: an upgraded connection, never seen before. Fail: a write to a client fails. */
  datatype Action = BeginRegister(c: Conn) | BeginBroadcast | Fail(c: Conn) | Advance

  /** No other goroutine is registering this connection, and it never was in the map. */
  ghost predicate NeverSeen(s: State, c: Conn) {
    c !in s.inserted && forall t :: t in s.pcs && s.pcs[t].BeforeInsert() ==> s.pcs[t].c != c
  }

  predicate LockFree(s: State) {
    s.writer.None? && s.readers == {}
  }

  ghost predicate Enabled(s: State, t: Tid, a: Action) {
    var pc := PcOf(s, t);
    match a
    case BeginRegister(c) => pc.Idle? && NeverSeen(s, c)
    case BeginBroadcast => pc.Idle? && s.writer.None?
    case Fail(c) => pc.Collecting? && c in s.clients && c !in pc.dead
    case Advance => !pc.Idle? && (pc.RegWait? || pc.UnregWait? ==> LockFree(s))
  }

  /** After an unregister: go on sweeping, or be done. */
  function Rest(rest: seq<Conn>): Pc {
    if |rest| == 0 then Idle else Sweeping(rest)
  }

  function Step(s: State, t: Tid, a: Action): State {
    var pc := PcOf(s, t);
    match a
    case BeginRegister(c) => Goto(s, t, RegWait(c))
    case BeginBroadcast => Goto(s, t, Collecting([])).(readers := s.readers + {t})
    case Fail(c) => if pc.Collecting? then Goto(s, t, Collecting(pc.dead + [c])) else s
    case Advance =>
      match pc
      case Idle => s
      case RegWait(c) => Goto(s, t, RegHeld(c)).(writer := Some(t))
      case RegHeld(c) => Goto(s, t, RegInserted(c)).(clients := s.clients + {c}, inserted := s.inserted + {c})
      case RegInserted(c) => Goto(s, t, RegUnlocked(c)).(writer := None)
      case RegUnlocked(c) => Goto(s, t, Serving(c)).(connections := s.connections + 1)
      case Serving(c) => Goto(s, t, UnregWait(c, []))
      case Collecting(dead) => Goto(s, t, Rest(dead)).(readers := s.readers - {t})
      case Sweeping(rest) => if |rest| == 0 then Goto(s, t, Idle) else Goto(s, t, UnregWait(rest[0], rest[1..]))
      case UnregWait(c, rest) => Goto(s, t, UnregHeld(c, rest)).(writer := Some(t))
      case UnregHeld(c, rest) =>
        if c in s.clients then Goto(s, t, UnregDeleted(c, rest)).(clients := s.clients - {c})
        else Goto(s, t, UnregDone(c, rest))
      case UnregDeleted(c, rest) =>
        Goto(s, t, UnregDone(c, rest)).(connections := s.connections - 1, decremented := s.decremented + multiset{c})
      case UnregDone(c, rest) => Goto(s, t, Rest(rest)).(writer := None)
  }

  // ---------------------------------------------------------------- the invariant

  function Adding(pcs: map<Tid, Pc>): set<Tid> {
    set t | t in pcs && pcs[t].AddPending()
  }

  function Subtracting(pcs: map<Tid, Pc>): set<Tid> {
    set t | t in pcs && pcs[t].SubPending()
  }

  /** Who holds the lock. */
  ghost predicate LockInvariant(s: State) {
    && (forall t :: t in s.pcs && s.pcs[t].HoldsWrite() ==> s.writer == Some(t))
    && (forall t :: t in s.readers <==> t in s.pcs && s.pcs[t].Collecting?)
    && (s.writer.Some? ==> s.readers == {})
  }

  /** Each connection enters the map once and, once out, stays out. */
  ghost predicate HistoryInvariant(s: State) {
    && s.clients <= s.inserted
    && (forall t :: t in s.pcs && s.pcs[t].BeforeInsert() ==> s.pcs[t].c !in s.inserted)
    && (forall t, u :: t in s.pcs && u in s.pcs && t != u && s.pcs[t].BeforeInsert() && s.pcs[u].BeforeInsert()
          ==> s.pcs[t].c != s.pcs[u].c)
    && (forall t :: t in s.pcs && s.pcs[t].SubPending() ==>
          s.pcs[t].c in s.inserted && s.pcs[t].c !in s.clients && s.decremented[s.pcs[t].c] == 0)
    && (forall c :: c in s.decremented ==> c in s.inserted && c !in s.clients && s.decremented[c] == 1)
  }

  /** The counter counts the map, less pending additions, plus pending subtractions. */
  predicate CountInvariant(s: State) {
    s.connections == |s.clients| - |Adding(s.pcs)| + |Subtracting(s.pcs)|
  }

  ghost predicate Inv(s: State) {
    LockInvariant(s) && HistoryInvariant(s) && CountInvariant(s)
  }

  function One(b: bool): int {
    if b then 1 else 0
  }

  lemma AddingAfterGoto(pcs: map<Tid, Pc>, t: Tid, pc: Pc)
    ensures |Adding(pcs[t := pc])| == |Adding(pcs)| - One(t in pcs && pcs[t].AddPending()) + One(pc.AddPending())
  {
    var others := Adding(pcs) - {t};
    if t in pcs && pcs[t].AddPending() {
      assert Adding(pcs) == others + {t};
    } else {
      assert Adding(pcs) == others;
    }
    if pc.AddPending() {
      assert Adding(pcs[t := pc]) == others + {t};
    } else {
      assert Adding(pcs[t := pc]) == others;
    }
  }

  lemma SubtractingAfterGoto(pcs: map<Tid, Pc>, t: Tid, pc: Pc)
    ensures |Subtracting(pcs[t := pc])| ==
      |Subtracting(pcs)| - One(t in pcs && pcs[t].SubPending()) + One(pc.SubPending())
  {
    var others := Subtracting(pcs) - {t};
    if t in pcs && pcs[t].SubPending() {
      assert Subtracting(pcs) == others + {t};
    } else {
      assert Subtracting(pcs) == others;
    }
    if pc.SubPending() {
      assert Subtracting(pcs[t := pc]) == others + {t};
    } else {
      assert Subtracting(pcs[t := pc]) == others;
    }
  }

  /** Only the acting goroutine moves. */
  lemma StepMovesOne(s: State, t: Tid, a: Action)
    requires Enabled(s, t, a)
    ensures Step(s, t, a).pcs == s.pcs[t := PcOf(Step(s, t, a), t)]
  {
  }

  /** What a step does to the map and the counter, by the state it leaves and the one it enters. */
  lemma StepEffect(s: State, t: Tid, a: Action)
    requires HistoryInvariant(s) && Enabled(s, t, a)
    ensures var s', pc, pc' := Step(s, t, a), PcOf(s, t), PcOf(Step(s, t, a), t);
      |s'.clients| - s'.connections - One(pc'.AddPending()) + One(pc'.SubPending())
        == |s.clients| - s.connections - One(pc.AddPending()) + One(pc.SubPending())
  {
    if a.Advance? {
      AdvanceEffect(s, t);
    }
  }

  lemma AdvanceEffect(s: State, t: Tid)
    requires HistoryInvariant(s) && Enabled(s, t, Advance)
    ensures var s', pc, pc' := Step(s, t, Advance), PcOf(s, t), PcOf(Step(s, t, Advance), t);
      |s'.clients| - s'.connections - One(pc'.AddPending()) + One(pc'.SubPending())
        == |s.clients| - s.connections - One(pc.AddPending()) + One(pc.SubPending())
  {
    var pc := PcOf(s, t);
    if pc.RegHeld? {
      assert pc.c !in s.clients;
      assert |s.clients + {pc.c}| == |s.clients| + 1;
    } else if pc.UnregHeld? {
      assert pc.c in s.clients ==> |s.clients - {pc.c}| == |s.clients| - 1;
    } else {
      hide HistoryInvariant, Enabled;
      assert Step(s, t, Advance).clients == s.clients;
    }
  }

  lemma StepKeepsCount(s: State, t: Tid, a: Action)
    requires HistoryInvariant(s) && CountInvariant(s) && Enabled(s, t, a)
    ensures CountInvariant(Step(s, t, a))
  {
    hide Step, Enabled, HistoryInvariant, Adding, Subtracting;
    var pc' := PcOf(Step(s, t, a), t);
    StepMovesOne(s, t, a);
    StepEffect(s, t, a);
    AddingAfterGoto(s.pcs, t, pc');
    SubtractingAfterGoto(s.pcs, t, pc');
  }

  lemma StepKeepsLock(s: State, t: Tid, a: Action)
    requires LockInvariant(s) && Enabled(s, t, a)
    ensures LockInvariant(Step(s, t, a))
  {
  }

  /** Steps that touch neither the map nor its history. */
  lemma HistoryFrame(s: State, s': State, t: Tid)
    requires HistoryInvariant(s) && t in s'.pcs && s'.pcs == s.pcs[t := s'.pcs[t]]
    requires s'.clients == s.clients && s'.inserted == s.inserted && s'.decremented == s.decremented
    requires !s'.pcs[t].SubPending()
    requires s'.pcs[t].BeforeInsert() ==> PcOf(s, t).BeforeInsert() && s'.pcs[t].c == PcOf(s, t).c
    ensures HistoryInvariant(s')
  {
  }

  lemma BeginKeepsHistory(s: State, t: Tid, c: Conn)
    requires HistoryInvariant(s) && Enabled(s, t, BeginRegister(c))
    ensures HistoryInvariant(Step(s, t, BeginRegister(c)))
  {
  }

  lemma InsertKeepsHistory(s: State, t: Tid)
    requires HistoryInvariant(s) && t in s.pcs && s.pcs[t].RegHeld?
    ensures HistoryInvariant(Step(s, t, Advance))
  {
  }

  lemma DeleteKeepsHistory(s: State, t: Tid)
    requires LockInvariant(s) && HistoryInvariant(s) && t in s.pcs && s.pcs[t].UnregHeld? && s.pcs[t].c in s.clients
    ensures HistoryInvariant(Step(s, t, Advance))
  {
  }

  /** The write lock makes the pending subtraction the only one of its connection. */
  lemma SubtractKeepsHistory(s: State, t: Tid)
    requires LockInvariant(s) && HistoryInvariant(s) && t in s.pcs && s.pcs[t].UnregDeleted?
    ensures HistoryInvariant(Step(s, t, Advance))
  {
    forall u | u in s.pcs && s.pcs[u].SubPending() ensures u == t {
      assert s.pcs[u].HoldsWrite() && s.pcs[t].HoldsWrite();
    }
  }

  lemma StepKeepsHistory(s: State, t: Tid, a: Action)
    requires LockInvariant(s) && HistoryInvariant(s) && Enabled(s, t, a)
    ensures HistoryInvariant(Step(s, t, a))
  {
    var pc := PcOf(s, t);
    if a.BeginRegister? {
      BeginKeepsHistory(s, t, a.c);
    } else if a.Advance? && pc.RegHeld? {
      InsertKeepsHistory(s, t);
    } else if a.Advance? && pc.UnregHeld? && pc.c in s.clients {
      DeleteKeepsHistory(s, t);
    } else if a.Advance? && pc.UnregDeleted? {
      SubtractKeepsHistory(s, t);
    } else {
      hide HistoryInvariant, LockInvariant;
      HistoryFrame(s, Step(s, t, a), t);
    }
  }

  // ---------------------------------------------------------------- every interleaving

  function Run(s: State, steps: seq<(Tid, Action)>): State
    decreases |steps|
  {
    if |steps| == 0 then s else Run(Step(s, steps[0].0, steps[0].1), steps[1..])
  }

  ghost predicate Possible(s: State, steps: seq<(Tid, Action)>)
    decreases |steps|
  {
    |steps| > 0 ==> Enabled(s, steps[0].0, steps[0].1) && Possible(Step(s, steps[0].0, steps[0].1), steps[1..])
  }

  lemma StepKeepsInv(s: State, t: Tid, a: Action)
    requires Inv(s) && Enabled(s, t, a)
    ensures Inv(Step(s, t, a))
  {
    hide Step, Enabled, LockInvariant, HistoryInvariant, CountInvariant;
    StepKeepsLock(s, t, a);
    StepKeepsHistory(s, t, a);
    StepKeepsCount(s, t, a);
  }

  lemma {:induction false} RunKeepsInv(s: State, steps: seq<(Tid, Action)>)
    requires Inv(s) && Possible(s, steps)
    ensures Inv(Run(s, steps))
    decreases |steps|
  {
    hide Step, Enabled, LockInvariant, HistoryInvariant, CountInvariant;
    if |steps| != 0 {
      StepKeepsInv(s, steps[0].0, steps[0].1);
      RunKeepsInv(Step(s, steps[0].0, steps[0].1), steps[1..]);
    }
  }

  lemma InitialInv()
    ensures Inv(Initial())
  {
  }

  /** No goroutine is between touching the map and touching the counter. */
  predicate Quiescent(s: State) {
    Adding(s.pcs) == {} && Subtracting(s.pcs) == {}
  }

  lemma CardinalityAtMostOne(a: set<Tid>, x: Tid)
    requires forall t :: t in a ==> t == x
    ensures |a| <= 1
  {
    if x in a {
      assert a == {x};
    } else {
      assert a == {};
    }
  }

  /**
    In every interleaving the counter is the number of clients less the
    registrations between insert and add, plus at most one unregistration
    between delete and add; so it is exact in every quiescent state.
  */
  lemma CounterTracksClients(steps: seq<(Tid, Action)>)
    requires Possible(Initial(), steps)
    ensures var s := Run(Initial(), steps);
      && s.connections == |s.clients| - |Adding(s.pcs)| + |Subtracting(s.pcs)|
      && |Subtracting(s.pcs)| <= 1
      && (Quiescent(s) ==> s.connections == |s.clients|)
  {
    InitialInv();
    RunKeepsInv(Initial(), steps);
    var s := Run(Initial(), steps);
    if s.writer.Some? {
      CardinalityAtMostOne(Subtracting(s.pcs), s.writer.value);
    } else {
      CardinalityAtMostOne(Subtracting(s.pcs), 0);
    }
  }

  /**
    Each connection is subtracted at most once, although both a broadcast and
    the handler may unregister it, and only once it has left the map for good.
  */
  lemma SubtractedAtMostOnce(steps: seq<(Tid, Action)>, c: Conn)
    requires Possible(Initial(), steps)
    ensures var s := Run(Initial(), steps);
      s.decremented[c] <= 1 && (c in s.decremented ==> c in s.inserted && c !in s.clients)
  {
    InitialInv();
    RunKeepsInv(Initial(), steps);
    var s := Run(Initial(), steps);
    hide Run, LockInvariant, CountInvariant;
    if c in s.decremented {
      assert s.decremented[c] == 1;
    }
  }

  /** The write lock excludes every other holder. */
  lemma MutualExclusion(steps: seq<(Tid, Action)>, t: Tid, u: Tid)
    requires Possible(Initial(), steps) && t != u
    requires PcOf(Run(Initial(), steps), t).HoldsWrite()
    ensures !PcOf(Run(Initial(), steps), u).HoldsWrite() && !PcOf(Run(Initial(), steps), u).Collecting?
  {
    InitialInv();
    RunKeepsInv(Initial(), steps);
    hide Run, HistoryInvariant, CountInvariant;
  }

  // ---------------------------------------------------------------- who is in the map

  /** On its way from inserting c to taking it out again. */
  predicate Owns(pc: Pc, c: Conn) {
    (pc.RegInserted? || pc.RegUnlocked? || pc.Serving? || pc.UnregWait? || pc.UnregHeld?) && pc.c == c
  }

  ghost predicate OwnerInvariant(s: State) {
    forall c :: c in s.clients ==> exists t :: t in s.pcs && Owns(s.pcs[t], c)
  }

  lemma StepKeepsOwners(s: State, t: Tid, a: Action)
    requires OwnerInvariant(s) && Enabled(s, t, a)
    ensures OwnerInvariant(Step(s, t, a))
  {
    var s' := Step(s, t, a);
    forall c | c in s'.clients ensures exists u :: u in s'.pcs && Owns(s'.pcs[u], c) {
      if c in s.clients {
        var u :| u in s.pcs && Owns(s.pcs[u], c);
        assert Owns(s'.pcs[u], c);
      } else {
        assert Owns(s'.pcs[t], c);
      }
    }
  }

  lemma {:induction false} RunKeepsOwners(s: State, steps: seq<(Tid, Action)>)
    requires OwnerInvariant(s) && Possible(s, steps)
    ensures OwnerInvariant(Run(s, steps))
    decreases |steps|
  {
    hide Step, Enabled, OwnerInvariant;
    if |steps| != 0 {
      StepKeepsOwners(s, steps[0].0, steps[0].1);
      RunKeepsOwners(Step(s, steps[0].0, steps[0].1), steps[1..]);
    }
  }

  /**
    In every interleaving each client belongs to a goroutine between inserting
    it and taking it out; so when all goroutines are done the map is empty and
    the counter is 0.
  */
  lemma ClientsHaveOwners(steps: seq<(Tid, Action)>)
    requires Possible(Initial(), steps)
    ensures var s := Run(Initial(), steps);
      && (forall c :: c in s.clients ==> exists t :: t in s.pcs && Owns(s.pcs[t], c))
      && ((forall t :: t in s.pcs ==> s.pcs[t].Idle?) ==> s.clients == {} && s.connections == 0)
  {
    var s := Run(Initial(), steps);
    RunKeepsOwners(Initial(), steps);
    CounterTracksClients(steps);
    hide Run, Possible;
    if forall t :: t in s.pcs ==> s.pcs[t].Idle? {
      assert Quiescent(s);
      assert s.clients == {};
    }
  }

  /** Has c still to take out of the map, or to bring in first. */
  predicate Committed(pc: Pc, c: Conn) {
    match pc
    case Idle => false
    case RegWait(d) => c == d
    case RegHeld(d) => c == d
    case RegInserted(d) => c == d
    case RegUnlocked(d) => c == d
    case Serving(d) => c == d
    case Collecting(dead) => c in dead
    case Sweeping(rest) => c in rest
    case UnregWait(d, rest) => c == d || c in rest
    case UnregHeld(d, rest) => c == d || c in rest
    case UnregDeleted(_, rest) => c in rest
    case UnregDone(_, rest) => c in rest
  }

  /** If c is in the map t has still to take it out; if it never was t is about to bring it in. */
  ghost predicate Responsible(s: State, t: Tid, c: Conn) {
    && (c in s.clients ==> Committed(PcOf(s, t), c))
    && (c !in s.inserted ==> PcOf(s, t).BeforeInsert() && PcOf(s, t).c == c)
  }

  lemma StepKeepsResponsible(s: State, u: Tid, a: Action, t: Tid, c: Conn)
    requires HistoryInvariant(s) && Responsible(s, t, c) && Enabled(s, u, a)
    ensures Responsible(Step(s, u, a), t, c)
  {
    if u == t {
      OwnStep(s, t, a, c);
    }
  }

  lemma OwnStep(s: State, t: Tid, a: Action, c: Conn)
    requires HistoryInvariant(s) && Responsible(s, t, c) && Enabled(s, t, a)
    ensures Responsible(Step(s, t, a), t, c)
  {
    var pc := PcOf(s, t);
    if pc.Sweeping? && c in pc.rest {
      assert c == pc.rest[0] || c in pc.rest[1..];
    }
  }

  lemma {:induction false} RunKeepsResponsible(s: State, steps: seq<(Tid, Action)>, t: Tid, c: Conn)
    requires Inv(s) && Possible(s, steps) && Responsible(s, t, c)
    ensures Responsible(Run(s, steps), t, c)
    decreases |steps|
  {
    if |steps| != 0 {
      var s' := Step(s, steps[0].0, steps[0].1);
      StepKeepsInv(s, steps[0].0, steps[0].1);
      StepKeepsResponsible(s, steps[0].0, steps[0].1, t, c);
      hide Step, Enabled, LockInvariant, HistoryInvariant, CountInvariant, Responsible;
      RunKeepsResponsible(s', steps[1..], t, c);
    }
  }

  lemma {:induction false} RunAppend(s: State, a: seq<(Tid, Action)>, b: seq<(Tid, Action)>)
    ensures Run(s, a + b) == Run(Run(s, a), b)
    ensures Possible(s, a + b) <==> Possible(s, a) && Possible(Run(s, a), b)
    decreases |a|
  {
    hide Step, Enabled;
    if |a| == 0 {
      assert a + b == b;
    } else {
      RunAppend(Step(s, a[0].0, a[0].1), a[1..], b);
      assert (a + b)[1..] == a[1..] + b;
    }
  }

  /** The run up to a step, the step, and the run after it. */
  lemma Through(before: seq<(Tid, Action)>, t: Tid, a: Action, after: seq<(Tid, Action)>) returns (s: State)
    requires Possible(Initial(), before + [(t, a)] + after)
    ensures Inv(s) && Enabled(s, t, a) && Possible(Step(s, t, a), after)
    ensures Run(Initial(), before + [(t, a)] + after) == Run(Step(s, t, a), after)
    ensures Inv(Step(s, t, a))
  {
    RunAppend(Initial(), before + [(t, a)], after);
    RunAppend(Initial(), before, [(t, a)]);
    s := Run(Initial(), before);
    InitialInv();
    RunKeepsInv(Initial(), before);
    OneStep(s, t, a);
    StepKeepsInv(s, t, a);
  }

  lemma OneStep(s: State, t: Tid, a: Action)
    ensures Possible(s, [(t, a)]) <==> Enabled(s, t, a)
    ensures Run(s, [(t, a)]) == Step(s, t, a)
  {
    var one: seq<(Tid, Action)> := [(t, a)];
    assert one[1..] == [];
    hide Step, Enabled;
  }

  /**
    A broadcast that is over has taken out every connection it collected, and
    until then it still has it to take out: in every interleaving, for every
    failed write.
  */
  lemma BroadcastRemovesCollected(before: seq<(Tid, Action)>, t: Tid, c: Conn, after: seq<(Tid, Action)>)
    requires Possible(Initial(), before + [(t, Fail(c))] + after)
    ensures var s := Run(Initial(), before + [(t, Fail(c))] + after);
      && (c in s.clients ==> Committed(PcOf(s, t), c))
      && (PcOf(s, t).Idle? ==> c !in s.clients)
  {
    hide Possible, Run;
    var s := Through(before, t, Fail(c), after);
    assert Responsible(Step(s, t, Fail(c)), t, c);
    hide Inv, Step;
    RunKeepsResponsible(Step(s, t, Fail(c)), after, t, c);
  }

  /** And so does the handler of a connection: when it is over the connection has been in the map and is out of it. */
  lemma HandlerUnregisters(before: seq<(Tid, Action)>, t: Tid, c: Conn, after: seq<(Tid, Action)>)
    requires Possible(Initial(), before + [(t, BeginRegister(c))] + after)
    ensures var s := Run(Initial(), before + [(t, BeginRegister(c))] + after);
      && (c in s.clients ==> Committed(PcOf(s, t), c))
      && (PcOf(s, t).Idle? ==> c in s.inserted && c !in s.clients)
  {
    hide Possible, Run;
    var s := Through(before, t, BeginRegister(c), after);
    assert Responsible(Step(s, t, BeginRegister(c)), t, c);
    hide Inv, Step;
    RunKeepsResponsible(Step(s, t, BeginRegister(c)), after, t, c);
  }

  // ---------------------------------------------------------------- the counter below zero

  /** Connection 7 is in the map, goroutine 0 has released the lock and not yet counted it. */
  function Uncounted(): State {
    State({7}, 0, None, {}, map[0 := RegUnlocked(7)], {7}, multiset{})
  }

  lemma ReachUncounted(rest: seq<(Tid, Action)>) returns (steps: seq<(Tid, Action)>)
    requires Possible(Uncounted(), rest)
    ensures Possible(Initial(), steps) && Run(Initial(), steps) == Run(Uncounted(), rest)
  {
    var s1 := State({}, 0, None, {}, map[0 := RegWait(7)], {}, multiset{});
    var s2 := State({}, 0, Some(0), {}, map[0 := RegHeld(7)], {}, multiset{});
    var s3 := State({7}, 0, Some(0), {}, map[0 := RegInserted(7)], {7}, multiset{});
    steps := Prepend(s3, 0, Advance, Uncounted(), rest);
    steps := Prepend(s2, 0, Advance, s3, steps);
    steps := Prepend(s1, 0, Advance, s2, steps);
    steps := Prepend(Initial(), 0, BeginRegister(7), s1, steps);
  }

  /** What a broadcast by goroutine 1 goes through when its write to connection 7 fails. */
  function Dropping(clients: set<Conn>, connections: int, writer: Option<Tid>, readers: set<Tid>, pc: Pc,
                    decremented: multiset<Conn>): State {
    State(clients, connections, writer, readers, map[0 := RegUnlocked(7), 1 := pc], {7}, decremented)
  }

  lemma BroadcasterMoves(pc: Pc, pc': Pc)
    ensures map[0 := RegUnlocked(7), 1 := pc][1 := pc'] == map[0 := RegUnlocked(7), 1 := pc']
    ensures map[0 := RegUnlocked(7)][1 := pc] == map[0 := RegUnlocked(7), 1 := pc]
  {
  }

  /** The broadcaster unregisters connection 7. */
  lemma DropUncounted() returns (steps: seq<(Tid, Action)>)
    ensures var s8 := Dropping({7}, 0, None, {}, UnregWait(7, []), multiset{});
      Possible(s8, steps) && Run(s8, steps).connections == -1
  {
    var s8 := Dropping({7}, 0, None, {}, UnregWait(7, []), multiset{});
    var s9 := Dropping({7}, 0, Some(1), {}, UnregHeld(7, []), multiset{});
    var s10 := Dropping({}, 0, Some(1), {}, UnregDeleted(7, []), multiset{});
    var s11 := Dropping({}, -1, Some(1), {}, UnregDone(7, []), multiset{7});
    BroadcasterMoves(s10.pcs[1], s11.pcs[1]);
    steps := Prepend(s10, 1, Advance, s11, []);
    BroadcasterMoves(s9.pcs[1], s10.pcs[1]);
    steps := Prepend(s9, 1, Advance, s10, steps);
    BroadcasterMoves(s8.pcs[1], s9.pcs[1]);
    steps := Prepend(s8, 1, Advance, s9, steps);
  }

  /** A broadcast collects connection 7 as dead while it is uncounted. */
  lemma CollectUncounted(rest: seq<(Tid, Action)>) returns (steps: seq<(Tid, Action)>)
    requires Possible(Dropping({7}, 0, None, {}, UnregWait(7, []), multiset{}), rest)
    ensures Possible(Uncounted(), steps)
    ensures Run(Uncounted(), steps) == Run(Dropping({7}, 0, None, {}, UnregWait(7, []), multiset{}), rest)
  {
    var s5 := Dropping({7}, 0, None, {1}, Collecting([]), multiset{});
    var s6 := Dropping({7}, 0, None, {1}, Collecting([7]), multiset{});
    var s7 := Dropping({7}, 0, None, {}, Sweeping([7]), multiset{});
    var s8 := Dropping({7}, 0, None, {}, UnregWait(7, []), multiset{});
    assert [7][1..] == [] && [] + [7] == [7] && {1} - {1} == {} && {} + {1} == {1};
    BroadcasterMoves(s7.pcs[1], s8.pcs[1]);
    steps := Prepend(s7, 1, Advance, s8, rest);
    BroadcasterMoves(s6.pcs[1], s7.pcs[1]);
    steps := Prepend(s6, 1, Advance, s7, steps);
    BroadcasterMoves(s5.pcs[1], s6.pcs[1]);
    steps := Prepend(s5, 1, Fail(7), s6, steps);
    BroadcasterMoves(s5.pcs[1], s5.pcs[1]);
    steps := Prepend(Uncounted(), 1, BeginBroadcast, s5, steps);
  }

  /**
    The counter is not a count at every instant: a broadcast that drops a
    connection before its registration is counted takes it to -1.
  */
  lemma CounterCanBeNegative() returns (steps: seq<(Tid, Action)>)
    ensures Possible(Initial(), steps) && Run(Initial(), steps).connections == -1
  {
    hide Possible, Run;
    steps := DropUncounted();
    steps := CollectUncounted(steps);
    steps := ReachUncounted(steps);
  }

  lemma Prepend(s: State, t: Tid, a: Action, s': State, steps: seq<(Tid, Action)>) returns (all: seq<(Tid, Action)>)
    requires Enabled(s, t, a) && s' == Step(s, t, a) && Possible(s', steps)
    ensures all == [(t, a)] + steps && Possible(s, all) && Run(s, all) == Run(s', steps)
  {
    all := [(t, a)] + steps;
    assert all[1..] == steps;
  }
}
