/** A single timer left running from a full countdown: where it stands after
    any number of ticks, how many halfway alerts it has raised, and when it
    completes. */
module RunLemmas {
  import opened Types
  import opened Store
  import opened Scheduler
  import SchedulerLemmas

  /** The first tick (counting from 1) whose pre-decrement remaining time
      `d - k + 1` satisfies `2 * r <= d`. */
  function FirstHalfwayTick(d: int): int {
    d + 1 - d / 2
  }

  /** The halfway flag after `k` ticks: set on the first halfway tick and on
      every second tick after it, because each tick overwrites it. */
  predicate FlagAfter(alert: bool, d: int, k: int) {
    alert && k >= FirstHalfwayTick(d) && (k - FirstHalfwayTick(d)) % 2 == 0
  }

  /** The number of halfway alerts raised in the first `k` ticks. */
  function HalfwayCount(alert: bool, d: int, k: int): int {
    if alert && k >= FirstHalfwayTick(d) then (k - FirstHalfwayTick(d)) / 2 + 1 else 0
  }

  /** The timer after `k` of its `d` ticks. */
  function After(t: Timer, k: int, now: int): Timer {
    var d := t.duration;
    t.(remainingTime := d - k,
       status := if k == d then Completed else Running,
       halfwayAlertTriggered := FlagAfter(t.halfwayAlert, d, k),
       completedAt := if k == d then Some(now) else t.completedAt)
  }

  /** A store holding one timer ticks exactly as that timer steps. */
  lemma SingleTick(u: Timer, h: seq<HistoryEntry>, cats: seq<string>, now: int)
    ensures Tick(State([u], h, cats), now) == Outcome(State([Step(u, now)], h + EntriesOf(u, now), cats), EventsOf(u))
  {
    SchedulerLemmas.TickIsPointwise(State([u], h, cats), now);
    assert [u][..0] == [];
  }

  lemma {:induction false} CountsAppend(a: seq<Event>, b: seq<Event>)
    ensures CountHalfway(a + b) == CountHalfway(a) + CountHalfway(b)
    ensures CountCompletions(a + b) == CountCompletions(a) + CountCompletions(b)
    decreases |b|
  {
    if |b| == 0 {
      assert a + b == a;
    } else {
      assert (a + b)[..|a + b| - 1] == a + b[..|b| - 1];
      CountsAppend(a, b[..|b| - 1]);
    }
  }

  lemma FlagStep(alert: bool, d: int, k: int)
    requires d >= 1 && 0 <= k < d
    ensures (alert && !FlagAfter(alert, d, k) && 2 * (d - k) <= d) == FlagAfter(alert, d, k + 1)
    ensures HalfwayCount(alert, d, k + 1) ==
      HalfwayCount(alert, d, k) + (if FlagAfter(alert, d, k + 1) then 1 else 0)
  {
    var k0 := FirstHalfwayTick(d);
    assert 2 * (d - k) <= d <==> k + 1 >= k0;
  }

  lemma CountSingle(e: Event)
    ensures CountHalfway([e]) == (if e.HalfwayAlert? then 1 else 0)
    ensures CountCompletions([e]) == (if e.CompletionNotice? then 1 else 0)
  {
    assert [e][..0] == [];
  }

  lemma EventCounts(u: Timer)
    ensures CountHalfway(EventsOf(u)) == (if Ticking(u) && HalfwayDue(u) then 1 else 0)
    ensures CountCompletions(EventsOf(u)) == (if Ticking(u) && u.remainingTime <= 1 then 1 else 0)
  {
    if Ticking(u) {
      var hs := if HalfwayDue(u) then [HalfwayAlert(u.id, u.name)] else [];
      var cs := if u.remainingTime <= 1 then [CompletionNotice(u.id, u.name)] else [];
      assert EventsOf(u) == hs + cs;
      CountsAppend(hs, cs);
      CountSingle(HalfwayAlert(u.id, u.name));
      CountSingle(CompletionNotice(u.id, u.name));
    }
  }

  /** One more tick of the timer after `k - 1` ticks. */
  lemma StepAfter(t: Timer, k: int, now: int)
    requires t.status == Running && t.duration >= 1 && t.remainingTime == t.duration
    requires 1 <= k <= t.duration
    ensures var u := After(t, k - 1, now);
      && Ticking(u)
      && HalfwayDue(u) == FlagAfter(t.halfwayAlert, t.duration, k)
      && Step(u, now) == After(t, k, now)
      && EntriesOf(u, now) == (if k == t.duration then [EntryOf(t, now)] else [])
      && (u.remainingTime <= 1 <==> k == t.duration)
  {
    FlagStep(t.halfwayAlert, t.duration, k - 1);
  }

  /** A running timer started from its full duration `d >= 1` with the flag
      clear: after `k <= d` ticks it has `d - k` seconds left, it is running
      until the `d`-th tick completes it, and that tick appends its single
      history entry and its single completion notice. Its halfway alerts
      number `HalfwayCount`: none before tick `d + 1 - d/2`, then one on
      every second tick. */
  lemma {:induction false} RunSingleTimer(t: Timer, h: seq<HistoryEntry>, cats: seq<string>, now: int, k: nat)
    requires t.status == Running && t.duration >= 1 && t.remainingTime == t.duration
    requires !t.halfwayAlertTriggered
    requires k <= t.duration
    ensures var r := Run(State([t], h, cats), now, k);
      && r.state.timers == [After(t, k, now)]
      && r.state.history == h + (if k == t.duration then [EntryOf(t, now)] else [])
      && r.state.categories == cats
      && CountHalfway(r.events) == HalfwayCount(t.halfwayAlert, t.duration, k)
      && CountCompletions(r.events) == (if k == t.duration then 1 else 0)
  {
    var d := t.duration;
    if k == 0 {
      assert After(t, 0, now) == t;
    } else {
      RunSingleTimer(t, h, cats, now, k - 1);
      var p := Run(State([t], h, cats), now, k - 1);
      var u := After(t, k - 1, now);
      assert p.state == State([u], h, cats);
      SingleTick(u, h, cats, now);
      StepAfter(t, k, now);
      FlagStep(t.halfwayAlert, d, k - 1);
      EventCounts(u);
      CountsAppend(p.events, EventsOf(u));
    }
  }

  /** A ten-minute timer with the halfway alert on has raised no halfway
      alert after 300 ticks (its pre-decrement time was still above 300);
      the alert first fires on tick 301. */
  lemma TenMinuteHalfway(t: Timer, now: int)
    requires t.status == Running && t.duration == 600 && t.remainingTime == 600
    requires t.halfwayAlert && !t.halfwayAlertTriggered
    ensures CountHalfway(Run(State([t], [], [t.category]), now, 300).events) == 0
    ensures var r := Run(State([t], [], [t.category]), now, 301);
      CountHalfway(r.events) == 1 && |r.state.timers| == 1 && r.state.timers[0].halfwayAlertTriggered
  {
    RunSingleTimer(t, [], [t.category], now, 300);
    RunSingleTimer(t, [], [t.category], now, 301);
  }

  /** A five-second timer left running completes on its fifth tick, once,
      with no time left and one matching history entry. */
  lemma FiveSecondCompletion(t: Timer, now: int)
    requires t.status == Running && t.duration == 5 && t.remainingTime == 5 && !t.halfwayAlertTriggered
    ensures var r := Run(State([t], [], [t.category]), now, 5);
      && |r.state.timers| == 1 && r.state.timers[0].status == Completed && r.state.timers[0].remainingTime == 0
      && r.state.history == [EntryOf(t, now)]
      && CountCompletions(r.events) == 1
  {
    RunSingleTimer(t, [], [t.category], now, 5);
  }
}
