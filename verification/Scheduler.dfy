/**
  The daily scheduler of the rebalance engine. Instants are microseconds in UTC;
  the clock readings the loop takes are inputs, in the order it takes them.
*/
module Scheduler {

  const SECOND: int := 1_000_000
  const DAY: int := 86_400 * SECOND

  /** The configured time of day, as an offset into the day. */
  function Offset(hour: nat, minute: nat): (o: int)
    requires hour < 24 && minute < 60
    ensures 0 <= o < DAY
  {
    (hour * 3600 + minute * 60) * SECOND
  }

  /** Today's configured instant, or tomorrow's once it has come. */
  function NextRebalanceFrom(now: int, offset: int): int {
    var target := now / DAY * DAY + offset;
    if now >= target then target + DAY else target
  }

  /** A configured daily instant. */
  predicate IsSlot(t: int, offset: int) {
    (t - offset) % DAY == 0
  }

  lemma SlotIsMultiple(t: int, offset: int)
    ensures IsSlot(t, offset) <==> t == (t - offset) / DAY * DAY + offset
  {
  }

  lemma SlotsAreDaysApart(s: int, t: int, offset: int)
    requires IsSlot(s, offset) && IsSlot(t, offset) && s < t
    ensures s + DAY <= t
  {
    SlotIsMultiple(s, offset);
    SlotIsMultiple(t, offset);
  }

  /** The next instant is the least configured daily instant strictly after now. */
  lemma NextIsLeastSlotAfter(now: int, offset: int)
    requires 0 <= offset < DAY
    ensures var next := NextRebalanceFrom(now, offset);
      && IsSlot(next, offset) && now < next <= now + DAY
      && forall s :: IsSlot(s, offset) && s > now ==> next <= s
  {
    var next := NextRebalanceFrom(now, offset);
    var k := if now >= now / DAY * DAY + offset then now / DAY + 1 else now / DAY;
    assert next == k * DAY + offset;
    assert (next - offset) % DAY == 0;
    forall s | IsSlot(s, offset) && s > now ensures next <= s {
      if s < next {
        SlotsAreDaysApart(s, next, offset);
      }
    }
  }

  // ---------------------------------------------------------------- the loop

  /** One turn of the loop: the reading at its top, and the one after a rebalance. */
  datatype Reading = Reading(now: int, after: int)

  /** A rebalance was attempted, successfully or not, for slot; it began at began and was over at ended. */
  datatype Attempt = Attempt(slot: int, began: int, ended: int)

  /** The attempts of the turns, given the instant the scheduler waits for. */
  function Attempts(next: int, readings: seq<Reading>, offset: int): seq<Attempt>
    decreases |readings|
  {
    if |readings| == 0 then []
    else if readings[0].now >= next then
      [Attempt(next, readings[0].now, readings[0].after)]
      + Attempts(NextRebalanceFrom(readings[0].after, offset), readings[1..], offset)
    else Attempts(next, readings[1..], offset)
  }

  function SleepSeconds(now: int, next: int, checkSeconds: int): int {
    var left := (next - now) / SECOND;
    var capped := if checkSeconds <= left then checkSeconds else left;
    if capped >= 1 then capped else 1
  }

  class RebalanceLoop {
    const offset: int
    var nextRebalanceAt: int
    var attempts: seq<Attempt>

    constructor (start: int, offset: int)
      ensures this.offset == offset && nextRebalanceAt == NextRebalanceFrom(start, offset) && attempts == []
    {
      this.offset := offset;
      nextRebalanceAt := NextRebalanceFrom(start, offset);
      attempts := [];
    }

    /** The turns of the loop; failures are caught, so they end like successes. */
    method Run(readings: seq<Reading>)
      modifies this
      ensures attempts == old(attempts) + Attempts(old(nextRebalanceAt), readings, offset)
    {
      for i := 0 to |readings|
        invariant attempts + Attempts(nextRebalanceAt, readings[i..], offset)
               == old(attempts) + Attempts(old(nextRebalanceAt), readings, offset)
      {
        var r := readings[i];
        assert readings[i..][1..] == readings[i + 1..];
        if r.now >= nextRebalanceAt {
          attempts := attempts + [Attempt(nextRebalanceAt, r.now, r.after)];
          nextRebalanceAt := NextRebalanceFrom(r.after, offset);
        }
      }
    }
  }

  // ---------------------------------------------------------------- any clock that never goes back

  ghost predicate Monotone(start: int, readings: seq<Reading>) {
    && (forall i :: 0 <= i < |readings| ==> start <= readings[i].now <= readings[i].after)
    && (forall i, j :: 0 <= i < j < |readings| ==> readings[i].after <= readings[j].now)
  }

  /**
    The attempts of any run: each is for a daily instant not before its time,
    both the instants and the daily periods of the attempts strictly increase -
    so no slot is attempted twice and no daily period sees two attempts - and
    an instant between two attempted ones had elapsed before the first attempt
    was over.
  */
  ghost predicate WellScheduled(attempts: seq<Attempt>, start: int, offset: int) {
    && (forall i :: 0 <= i < |attempts| ==>
          IsSlot(attempts[i].slot, offset) && start < attempts[i].slot <= attempts[i].began <= attempts[i].ended)
    && (forall i, j :: 0 <= i < j < |attempts| ==> attempts[i].ended < attempts[j].slot)
    && (forall i, s | 0 <= i < |attempts| - 1 && attempts[i].slot < s < attempts[i + 1].slot ::
          IsSlot(s, offset) ==> s <= attempts[i].ended)
  }

  lemma {:induction false} AttemptsAfter(next: int, readings: seq<Reading>, start: int, last: int, offset: int)
    requires 0 <= offset < DAY && Monotone(last, readings)
    requires start <= last && start < next && IsSlot(next, offset)
    ensures WellScheduled(Attempts(next, readings, offset), start, offset)
    ensures forall i :: 0 <= i < |Attempts(next, readings, offset)| ==> next <= Attempts(next, readings, offset)[i].slot
    ensures |Attempts(next, readings, offset)| > 0 ==> Attempts(next, readings, offset)[0].slot == next
    decreases |readings|
  {
    if |readings| != 0 {
      var r, rest := readings[0], readings[1..];
      assert Monotone(r.after, rest);
      if r.now >= next {
        var next' := NextRebalanceFrom(r.after, offset);
        NextIsLeastSlotAfter(r.after, offset);
        hide NextRebalanceFrom;
        AttemptsAfter(next', rest, r.after, r.after, offset);
      } else {
        AttemptsAfter(next, rest, start, r.after, offset);
      }
    }
  }

  /** Every run of the scheduler from its first clock reading is well scheduled. */
  lemma EveryRunIsWellScheduled(start: int, readings: seq<Reading>, offset: int)
    requires 0 <= offset < DAY && Monotone(start, readings)
    ensures WellScheduled(Attempts(NextRebalanceFrom(start, offset), readings, offset), start, offset)
  {
    NextIsLeastSlotAfter(start, offset);
    AttemptsAfter(NextRebalanceFrom(start, offset), readings, start, start, offset);
  }

  /** The daily period an instant belongs to: the latest configured instant not after it. */
  function PeriodOf(t: int, offset: int): int {
    NextRebalanceFrom(t, offset) - DAY
  }

  /** So at most one rebalance begins within any daily period. */
  lemma OneAttemptPerPeriod(start: int, readings: seq<Reading>, offset: int, i: nat, j: nat)
    requires 0 <= offset < DAY && Monotone(start, readings)
    requires i < j < |Attempts(NextRebalanceFrom(start, offset), readings, offset)|
    ensures var a := Attempts(NextRebalanceFrom(start, offset), readings, offset);
      PeriodOf(a[i].began, offset) < PeriodOf(a[j].began, offset)
  {
    var a := Attempts(NextRebalanceFrom(start, offset), readings, offset);
    EveryRunIsWellScheduled(start, readings, offset);
    NextIsLeastSlotAfter(a[i].began, offset);
    NextIsLeastSlotAfter(a[j].began, offset);
    assert NextRebalanceFrom(a[i].began, offset) <= a[j].slot;
  }

  /**
    Sleeping as told, the loop wakes less than a second after the instant it
    waits for, plus the time the rebalance of the same turn took: the sleep is
    computed from the reading taken before it.
  */
  lemma WakesInTime(now: int, after: int, next: int, checkSeconds: int)
    requires now <= after < next
    ensures var wake := after + SleepSeconds(now, next, checkSeconds) * SECOND;
      after < wake && wake < next + SECOND + (after - now)
  {
    var left := (next - now) / SECOND;
    assert left * SECOND <= next - now;
  }

  /**
    Unless less than a second is left, the sleep is the longest of whole seconds
    that neither exceeds the check interval nor passes the awaited instant.
  */
  lemma SleepIsLongest(now: int, next: int, checkSeconds: int)
    ensures var sleep := SleepSeconds(now, next, checkSeconds);
      if checkSeconds < 1 || next - now < SECOND then sleep == 1
      else
        && 1 <= sleep <= checkSeconds && now + sleep * SECOND <= next
        && forall x :: x <= checkSeconds && now + x * SECOND <= next ==> x <= sleep
  {
    var left := (next - now) / SECOND;
    assert left * SECOND <= next - now < (left + 1) * SECOND;
  }

  /** t is hour:minute:00 on the day d. */
  predicate IsTimeOfDay(t: int, d: int, hour: nat, minute: nat) {
    t == ((d * 24 + hour) * 60 + minute) * 60 * SECOND
  }

  /** The slots are the instants at the configured hour and minute of a day. */
  lemma SlotTimeOfDay(t: int, hour: nat, minute: nat)
    requires hour < 24 && minute < 60
    ensures IsSlot(t, Offset(hour, minute)) <==> exists d :: IsTimeOfDay(t, d, hour, minute)
  {
    var offset := Offset(hour, minute);
    SlotIsMultiple(t, offset);
    if IsSlot(t, offset) {
      assert IsTimeOfDay(t, (t - offset) / DAY, hour, minute);
    }
    if d :| IsTimeOfDay(t, d, hour, minute) {
      assert t - offset == d * DAY;
    }
  }

  // ---------------------------------------------------------------- no slot is missed

  /** The attempt was made at this turn, the first to reach its slot. */
  predicate MadeAt(a: Attempt, readings: seq<Reading>, i: int) {
    && 0 <= i < |readings|
    && a.began == readings[i].now && a.ended == readings[i].after
    && a.slot <= readings[i].now && forall j :: 0 <= j < i ==> readings[j].now < a.slot
  }

  /** An attempt for this slot, or one for an earlier slot that was over only after it. */
  predicate Covers(a: Attempt, slot: int) {
    a.slot <= slot && (a.slot == slot || slot <= a.ended)
  }

  /** The attempt was made at the first turn to reach its slot. */
  ghost predicate IsPrompt(a: Attempt, readings: seq<Reading>) {
    exists i :: MadeAt(a, readings, i)
  }

  ghost predicate IsCovered(all: seq<Attempt>, slot: int) {
    exists k :: 0 <= k < |all| && Covers(all[k], slot)
  }

  lemma {:induction false} AttemptsAreFirst(next: int, readings: seq<Reading>, start: int, last: int, offset: int, k: nat)
    requires 0 <= offset < DAY && Monotone(last, readings)
    requires start <= last && start < next && IsSlot(next, offset)
    requires k < |Attempts(next, readings, offset)|
    ensures IsPrompt(Attempts(next, readings, offset)[k], readings)
    decreases |readings|
  {
    var r, rest, a := readings[0], readings[1..], Attempts(next, readings, offset)[k];
    AttemptsAfter(next, readings, start, last, offset);
    NextIsLeastSlotAfter(r.after, offset);
    hide NextRebalanceFrom, IsSlot;
    assert Monotone(r.after, rest);
    if r.now >= next && k == 0 {
      assert MadeAt(a, readings, 0);
    } else {
      if r.now >= next {
        var next' := NextRebalanceFrom(r.after, offset);
        AttemptsAfter(next', rest, r.after, r.after, offset);
        AttemptsAreFirst(next', rest, r.after, r.after, offset, k - 1);
      } else {
        AttemptsAreFirst(next, rest, start, r.after, offset, k);
      }
      var i :| MadeAt(a, rest, i);
      assert MadeAt(a, readings, i + 1);
    }
  }

  lemma {:induction false} SlotIsCovered(next: int, readings: seq<Reading>, last: int, offset: int, slot: int, i: nat)
    requires 0 <= offset < DAY && Monotone(last, readings) && IsSlot(next, offset) && IsSlot(slot, offset)
    requires next <= slot && i < |readings| && slot <= readings[i].now
    ensures IsCovered(Attempts(next, readings, offset), slot)
    decreases |readings|
  {
    var r, rest, all := readings[0], readings[1..], Attempts(next, readings, offset);
    NextIsLeastSlotAfter(r.after, offset);
    hide NextRebalanceFrom, IsSlot;
    assert Monotone(r.after, rest);
    if r.now >= next && slot <= r.after {
      assert Covers(all[0], slot);
    } else {
      assert i > 0 && rest[i - 1] == readings[i];
      var next' := if r.now >= next then NextRebalanceFrom(r.after, offset) else next;
      SlotIsCovered(next', rest, r.after, offset, slot, i - 1);
      var k :| 0 <= k < |Attempts(next', rest, offset)| && Covers(Attempts(next', rest, offset)[k], slot);
      assert Covers(all[if r.now >= next then k + 1 else k], slot);
    }
  }

  /**
    Under any clock that never goes back, every attempt is made at the first turn
    that reaches its slot, and no slot the loop gets to see is missed: it is
    attempted, or passed while the attempt for an earlier one was running.
  */
  lemma NoSlotIsMissed(start: int, readings: seq<Reading>, offset: int)
    requires 0 <= offset < DAY && Monotone(start, readings)
    ensures var all := Attempts(NextRebalanceFrom(start, offset), readings, offset);
      && (forall k :: 0 <= k < |all| ==> IsPrompt(all[k], readings))
      && (forall slot, i :: IsSlot(slot, offset) && start < slot && 0 <= i < |readings| && slot <= readings[i].now ==>
            IsCovered(all, slot))
  {
    var next := NextRebalanceFrom(start, offset);
    NextIsLeastSlotAfter(start, offset);
    var all := Attempts(next, readings, offset);
    hide NextRebalanceFrom, IsSlot, Monotone;
    forall k | 0 <= k < |all| ensures IsPrompt(all[k], readings) {
      AttemptsAreFirst(next, readings, start, start, offset, k);
    }
    forall slot, i | IsSlot(slot, offset) && start < slot && 0 <= i < |readings| && slot <= readings[i].now
      ensures IsCovered(all, slot)
    {
      SlotIsCovered(next, readings, start, offset, slot, i);
    }
  }
}
