/** The once-per-second tick. Every timer of the pre-tick snapshot that is
    running with time left is decremented, has its halfway flag recomputed,
    and is completed when its pre-decrement time is at most 1. The toasts and
    browser notifications become logical events. */
module Scheduler {
  import opened Types
  import opened Store

  /** The two notifications a tick can raise, with the timer's id and name. */
  datatype Event = HalfwayAlert(id: string, name: string) | CompletionNotice(id: string, name: string)

  /** What a tick leaves behind: the new store and the events in order. */
  datatype Outcome = Outcome(state: State, events: seq<Event>)

  /** The guard of the tick: only running timers with time left advance. */
  predicate Ticking(t: Timer) {
    t.status == Running && t.remainingTime > 0
  }

  /** The halfway condition on pre-decrement values; `remainingTime <=
      duration / 2` is a division of numbers, equivalently `2 * r <= d`. */
  predicate HalfwayDue(t: Timer) {
    t.halfwayAlert && !t.halfwayAlertTriggered && 2 * t.remainingTime <= t.duration
  }

  /** The decrement update; the flag is overwritten with the condition. */
  function TickPatch(t: Timer): Patch {
    NoChange.(remainingTime := Some(t.remainingTime - 1), halfwayAlertTriggered := Some(HalfwayDue(t)))
  }

  /** The callback body for one timer `t` of the snapshot. Each update is
      merged into the accumulated store; completion looks the timer up in the
      snapshot, as the completion callback of the same render does. */
  function TickOne(snapshot: seq<Timer>, t: Timer, acc: Outcome, now: int): Outcome {
    if !Ticking(t) then acc
    else
      var s1 := UpdateTimer(acc.state, t.id, TickPatch(t));
      var e1 := acc.events + (if HalfwayDue(t) then [HalfwayAlert(t.id, t.name)] else []);
      if t.remainingTime <= 1 then
        Outcome(CompleteIn(snapshot, s1, t.id, now), e1 + [CompletionNotice(t.id, t.name)])
      else
        Outcome(s1, e1)
  }

  function TickFrom(snapshot: seq<Timer>, i: nat, acc: Outcome, now: int): Outcome
    requires i <= |snapshot|
    decreases |snapshot| - i
  {
    if i == |snapshot| then acc
    else TickFrom(snapshot, i + 1, TickOne(snapshot, snapshot[i], acc, now), now)
  }

  /** One tick of the interval, evaluated against the snapshot `s`. */
  function Tick(s: State, now: int): Outcome {
    TickFrom(s.timers, 0, Outcome(s, []), now)
  }

  // ---------------------------------------------------------------------
  // Reference semantics: what one tick does to one timer on its own
  // ---------------------------------------------------------------------

  function Step(t: Timer, now: int): Timer {
    if !Ticking(t) then t
    else if t.remainingTime <= 1 then
      t.(status := Completed, remainingTime := 0, halfwayAlertTriggered := HalfwayDue(t), completedAt := Some(now))
    else
      t.(remainingTime := t.remainingTime - 1, halfwayAlertTriggered := HalfwayDue(t))
  }

  function EventsOf(t: Timer): seq<Event> {
    if !Ticking(t) then []
    else
      (if HalfwayDue(t) then [HalfwayAlert(t.id, t.name)] else [])
      + (if t.remainingTime <= 1 then [CompletionNotice(t.id, t.name)] else [])
  }

  function EntriesOf(t: Timer, now: int): seq<HistoryEntry> {
    if Ticking(t) && t.remainingTime <= 1 then [EntryOf(t, now)] else []
  }

  function StepAll(ts: seq<Timer>, now: int): (r: seq<Timer>)
    ensures |r| == |ts|
  {
    if |ts| == 0 then [] else StepAll(ts[..|ts| - 1], now) + [Step(ts[|ts| - 1], now)]
  }

  function AllEvents(ts: seq<Timer>): seq<Event> {
    if |ts| == 0 then [] else AllEvents(ts[..|ts| - 1]) + EventsOf(ts[|ts| - 1])
  }

  function AllEntries(ts: seq<Timer>, now: int): seq<HistoryEntry> {
    if |ts| == 0 then [] else AllEntries(ts[..|ts| - 1], now) + EntriesOf(ts[|ts| - 1], now)
  }

  /** The number of timers that complete in a tick: running, with a
      pre-decrement time above 0 and at most 1. */
  function CompletingCount(ts: seq<Timer>): nat {
    if |ts| == 0 then 0
    else
      var t := ts[|ts| - 1];
      CompletingCount(ts[..|ts| - 1]) + (if t.status == Running && 0 < t.remainingTime <= 1 then 1 else 0)
  }

  /** The number of halfway alerts and of completion notices among events. */
  function CountHalfway(es: seq<Event>): nat {
    if |es| == 0 then 0 else CountHalfway(es[..|es| - 1]) + (if es[|es| - 1].HalfwayAlert? then 1 else 0)
  }

  function CountCompletions(es: seq<Event>): nat {
    if |es| == 0 then 0 else CountCompletions(es[..|es| - 1]) + (if es[|es| - 1].CompletionNotice? then 1 else 0)
  }

  /** `n` consecutive ticks at the same timestamp, collecting the events. */
  function Run(s: State, now: int, n: nat): Outcome {
    if n == 0 then Outcome(s, [])
    else
      var p := Run(s, now, n - 1);
      var r := Tick(p.state, now);
      Outcome(r.state, p.events + r.events)
  }
}
