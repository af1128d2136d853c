/** Properties of the tick: with unique ids the fold over the snapshot is the
    per-timer step applied everywhere, from which the guard, decrement,
    halfway, completion and event properties follow. */
module SchedulerLemmas {
  import opened Types
  import opened Store
  import opened Scheduler
  import StoreLemmas

  lemma StepAllAt(ts: seq<Timer>, now: int, j: int)
    requires 0 <= j < |ts|
    ensures StepAll(ts, now)[j] == Step(ts[j], now)
    decreases |ts|
  {
    if j < |ts| - 1 {
      StepAllAt(ts[..|ts| - 1], now, j);
    }
  }

  /** The outcome after the callback has run for the first `i` timers. */
  function Partial(s: State, i: nat, now: int): Outcome
    requires i <= |s.timers|
  {
    Outcome(
      State(StepAll(s.timers[..i], now) + s.timers[i..], s.history + AllEntries(s.timers[..i], now), s.categories),
      AllEvents(s.timers[..i]))
  }

  /** With unique ids in the snapshot, an update by the id of the `i`-th timer
      touches position `i` only. */
  lemma MapByIdOnlyAt(l: seq<Timer>, ts: seq<Timer>, i: int, p: Patch)
    requires |l| == |ts| && UniqueIds(ts) && 0 <= i < |ts|
    requires forall j :: 0 <= j < |l| ==> l[j].id == ts[j].id
    ensures MapById(l, ts[i].id, p) == l[i := Apply(l[i], p)]
  {
    var m := MapById(l, ts[i].id, p);
    forall j | 0 <= j < |l|
      ensures m[j] == l[i := Apply(l[i], p)][j]
    {
      if j != i {
        assert ts[j].id != ts[i].id;
      }
    }
  }

  /** The accumulated list agrees with the snapshot on ids, and its `i`-th
      timer is still the snapshot's. */
  predicate Aligned(snapshot: seq<Timer>, i: int, l: seq<Timer>) {
    && 0 <= i < |snapshot| && |l| == |snapshot| && l[i] == snapshot[i]
    && forall j :: 0 <= j < |snapshot| ==> l[j].id == snapshot[j].id
  }

  lemma SeqAssoc<T>(a: seq<T>, b: seq<T>, c: seq<T>)
    ensures a + b + c == a + (b + c)
  {
  }

  lemma CompletingPatches(t: Timer, now: int)
    requires Ticking(t) && t.remainingTime <= 1
    ensures Apply(Apply(t, TickPatch(t)), CompletePatch(now)) == Step(t, now)
  {
  }

  lemma DecrementingPatch(t: Timer, now: int)
    requires Ticking(t) && t.remainingTime > 1
    ensures Apply(t, TickPatch(t)) == Step(t, now)
  {
  }

  /** With unique ids, completing the `i`-th timer's id looks that timer up. */
  lemma CompleteInAt(snapshot: seq<Timer>, i: int, s: State, now: int)
    requires UniqueIds(snapshot) && 0 <= i < |snapshot|
    ensures CompleteIn(snapshot, s, snapshot[i].id, now) ==
      UpdateTimer(s.(history := s.history + [EntryOf(snapshot[i], now)]), snapshot[i].id, CompletePatch(now))
  {
    StoreLemmas.FindUnique(snapshot, i);
  }

  /** The two updates of a completing timer land on its own position. */
  lemma CompletingTimers(snapshot: seq<Timer>, i: int, l: seq<Timer>, now: int)
    requires UniqueIds(snapshot) && Aligned(snapshot, i, l)
    requires Ticking(snapshot[i]) && snapshot[i].remainingTime <= 1
    ensures var t := snapshot[i];
      MapById(MapById(l, t.id, TickPatch(t)), t.id, CompletePatch(now)) == l[i := Step(t, now)]
  {
    var t := snapshot[i];
    MapByIdOnlyAt(l, snapshot, i, TickPatch(t));
    var l1 := l[i := Apply(t, TickPatch(t))];
    assert forall j :: 0 <= j < |l1| ==> l1[j].id == snapshot[j].id;
    MapByIdOnlyAt(l1, snapshot, i, CompletePatch(now));
    CompletingPatches(t, now);
    assert l1[i] == Apply(t, TickPatch(t));
    UpdateTwice(l, i, Apply(t, TickPatch(t)), Step(t, now));
  }

  lemma UpdateTwice<T>(l: seq<T>, i: int, x: T, y: T)
    requires 0 <= i < |l|
    ensures l[i := x][i := y] == l[i := y]
  {
  }

  /** The events of a completing timer: its optional halfway alert, then its
      completion notice. */
  lemma CompletingEvents(t: Timer, e: seq<Event>)
    requires Ticking(t) && t.remainingTime <= 1
    ensures e + (if HalfwayDue(t) then [HalfwayAlert(t.id, t.name)] else []) + [CompletionNotice(t.id, t.name)]
      == e + EventsOf(t)
  {
    var h := if HalfwayDue(t) then [HalfwayAlert(t.id, t.name)] else [];
    assert EventsOf(t) == h + [CompletionNotice(t.id, t.name)];
    SeqAssoc(e, h, [CompletionNotice(t.id, t.name)]);
  }

  lemma TickOneCompleting(snapshot: seq<Timer>, i: int, acc: Outcome, now: int)
    requires UniqueIds(snapshot) && Aligned(snapshot, i, acc.state.timers)
    requires Ticking(snapshot[i]) && snapshot[i].remainingTime <= 1
    ensures var t := snapshot[i];
      TickOne(snapshot, t, acc, now) ==
        Outcome(
          acc.state.(timers := acc.state.timers[i := Step(t, now)], history := acc.state.history + EntriesOf(t, now)),
          acc.events + EventsOf(t))
  {
    var t := snapshot[i];
    var s1 := UpdateTimer(acc.state, t.id, TickPatch(t));
    CompleteInAt(snapshot, i, s1, now);
    CompletingTimers(snapshot, i, acc.state.timers, now);
    CompletingEvents(t, acc.events);
  }

  lemma TickOneDecrementing(snapshot: seq<Timer>, i: int, acc: Outcome, now: int)
    requires UniqueIds(snapshot) && Aligned(snapshot, i, acc.state.timers)
    requires Ticking(snapshot[i]) && snapshot[i].remainingTime > 1
    ensures var t := snapshot[i];
      TickOne(snapshot, t, acc, now) ==
        Outcome(acc.state.(timers := acc.state.timers[i := Step(t, now)]), acc.events + EventsOf(t))
  {
    var t := snapshot[i];
    var l := acc.state.timers;
    MapByIdOnlyAt(l, snapshot, i, TickPatch(t));
    DecrementingPatch(t, now);
  }

  /** What the callback does for the `i`-th snapshot timer. */
  lemma TickOneShape(snapshot: seq<Timer>, i: int, acc: Outcome, now: int)
    requires UniqueIds(snapshot) && Aligned(snapshot, i, acc.state.timers)
    ensures var t := snapshot[i];
      TickOne(snapshot, t, acc, now) ==
        Outcome(
          acc.state.(timers := acc.state.timers[i := Step(t, now)], history := acc.state.history + EntriesOf(t, now)),
          acc.events + EventsOf(t))
  {
    var t := snapshot[i];
    if !Ticking(t) {
      assert acc.state.timers[i := Step(t, now)] == acc.state.timers;
      assert acc.state.history + EntriesOf(t, now) == acc.state.history;
      assert acc.events + EventsOf(t) == acc.events;
    } else if t.remainingTime <= 1 {
      TickOneCompleting(snapshot, i, acc, now);
    } else {
      TickOneDecrementing(snapshot, i, acc, now);
      assert acc.state.history + EntriesOf(t, now) == acc.state.history;
    }
  }

  lemma PartialTimersStep(ts: seq<Timer>, i: int, now: int)
    requires 0 <= i < |ts|
    ensures var l := StepAll(ts[..i], now) + ts[i..];
      && |l| == |ts| && l[i] == ts[i]
      && (forall j :: 0 <= j < |ts| ==> l[j].id == ts[j].id)
      && StepAll(ts[..i + 1], now) + ts[i + 1..] == l[i := Step(ts[i], now)]
  {
    var l := StepAll(ts[..i], now) + ts[i..];
    var l' := StepAll(ts[..i + 1], now) + ts[i + 1..];
    assert ts[..i + 1][..i] == ts[..i];
    forall j | 0 <= j < |ts|
      ensures l[j].id == ts[j].id
      ensures l'[j] == l[i := Step(ts[i], now)][j]
    {
      if j < i {
        StepAllAt(ts[..i], now, j);
        StepAllAt(ts[..i + 1], now, j);
      } else if j == i {
        StepAllAt(ts[..i + 1], now, j);
      }
    }
  }

  lemma TickOneStep(s: State, i: nat, now: int)
    requires UniqueIds(s.timers) && i < |s.timers|
    ensures TickOne(s.timers, s.timers[i], Partial(s, i, now), now) == Partial(s, i + 1, now)
  {
    var ts := s.timers;
    PartialTimersStep(ts, i, now);
    assert Aligned(ts, i, Partial(s, i, now).state.timers);
    TickOneShape(ts, i, Partial(s, i, now), now);
    assert ts[..i + 1][..i] == ts[..i];
    assert AllEntries(ts[..i + 1], now) == AllEntries(ts[..i], now) + EntriesOf(ts[i], now);
    assert AllEvents(ts[..i + 1]) == AllEvents(ts[..i]) + EventsOf(ts[i]);
  }

  lemma {:induction false} TickFromPartial(s: State, i: nat, now: int)
    requires UniqueIds(s.timers) && i <= |s.timers|
    ensures TickFrom(s.timers, i, Partial(s, i, now), now) == Partial(s, |s.timers|, now)
    decreases |s.timers| - i
  {
    if i < |s.timers| {
      TickOneStep(s, i, now);
      TickFromPartial(s, i + 1, now);
    }
  }

  /** With unique ids, one tick is the per-timer step at every position; the
      history gains the completing timers' entries in list order and the
      events are each timer's events in list order. */
  lemma TickIsPointwise(s: State, now: int)
    requires UniqueIds(s.timers)
    ensures Tick(s, now) ==
      Outcome(State(StepAll(s.timers, now), s.history + AllEntries(s.timers, now), s.categories), AllEvents(s.timers))
  {
    assert s.timers[..0] == [] && s.timers[0..] == s.timers;
    assert Partial(s, 0, now) == Outcome(s, []);
    TickFromPartial(s, 0, now);
    assert s.timers[..|s.timers|] == s.timers;
  }

  /** The identity fields a timer keeps through every update of a tick. */
  predicate SameIdentity(a: seq<Timer>, b: seq<Timer>) {
    && |a| == |b|
    && forall j :: 0 <= j < |a| ==>
         a[j].id == b[j].id && a[j].name == b[j].name && a[j].category == b[j].category
         && a[j].duration == b[j].duration && a[j].halfwayAlert == b[j].halfwayAlert
  }

  /** One callback keeps every timer's identity fields and the categories,
      and only appends to the history. */
  lemma TickOneFrame(snapshot: seq<Timer>, t: Timer, acc: Outcome, now: int)
    ensures var next := TickOne(snapshot, t, acc, now);
      && SameIdentity(next.state.timers, acc.state.timers)
      && next.state.categories == acc.state.categories
      && |next.state.history| >= |acc.state.history|
      && next.state.history[..|acc.state.history|] == acc.state.history
  {
    if Ticking(t) {
      var s1 := UpdateTimer(acc.state, t.id, TickPatch(t));
      assert SameIdentity(s1.timers, acc.state.timers);
      if t.remainingTime <= 1 {
        match Find(snapshot, t.id)
        case None =>
        case Some(u) =>
          var s2 := s1.(history := s1.history + [EntryOf(u, now)]);
          assert s2.history[..|acc.state.history|] == acc.state.history;
          assert SameIdentity(UpdateTimer(s2, t.id, CompletePatch(now)).timers, s1.timers);
      }
    }
  }

  lemma PrefixTrans<T>(a: seq<T>, b: seq<T>, c: seq<T>)
    requires |b| >= |a| && b[..|a|] == a
    requires |c| >= |b| && c[..|b|] == b
    ensures |c| >= |a| && c[..|a|] == a
  {
    assert c[..|a|] == c[..|b|][..|a|];
  }

  lemma {:induction false} TickFromFrame(snapshot: seq<Timer>, i: nat, acc: Outcome, now: int)
    requires i <= |snapshot|
    ensures var r := TickFrom(snapshot, i, acc, now);
      && SameIdentity(r.state.timers, acc.state.timers)
      && r.state.categories == acc.state.categories
      && |r.state.history| >= |acc.state.history| && r.state.history[..|acc.state.history|] == acc.state.history
    decreases |snapshot| - i
  {
    if i < |snapshot| {
      var next := TickOne(snapshot, snapshot[i], acc, now);
      TickOneFrame(snapshot, snapshot[i], acc, now);
      TickFromFrame(snapshot, i + 1, next, now);
      var r := TickFrom(snapshot, i + 1, next, now);
      PrefixTrans(acc.state.history, next.state.history, r.state.history);
    } else {
      assert TickFrom(snapshot, i, acc, now) == acc;
    }
  }

  /** Whatever the ids, a tick keeps the list's length and order, every
      timer's identity fields and the category collection, and only appends
      to the history. */
  lemma TickFrame(s: State, now: int)
    ensures var r := Tick(s, now).state;
      && SameIdentity(r.timers, s.timers)
      && r.categories == s.categories
      && |r.history| >= |s.history| && r.history[..|s.history|] == s.history
  {
    TickFromFrame(s.timers, 0, Outcome(s, []), now);
  }

  // ---------------------------------------------------------------------
  // One tick, position by position
  // ---------------------------------------------------------------------

  /** With unique ids, a tick changes only the timers that are running with
      time left. Such a timer loses exactly one second, and its remaining
      time does not drop below zero. Its halfway flag is overwritten with the
      pre-decrement halfway condition. It completes exactly when its
      pre-decrement time is at most 1. Its identity fields never change, and
      the list keeps its length and order. */
  lemma TickAt(s: State, now: int, i: int)
    requires UniqueIds(s.timers) && 0 <= i < |s.timers|
    ensures |Tick(s, now).state.timers| == |s.timers|
    ensures Tick(s, now).state.categories == s.categories
    ensures var t := s.timers[i]; var u := Tick(s, now).state.timers[i];
      && (!(t.status == Running && t.remainingTime > 0) ==> u == t)
      && u.id == t.id && u.name == t.name && u.category == t.category && u.duration == t.duration
      && u.halfwayAlert == t.halfwayAlert && u.createdAt == t.createdAt
    ensures var t := s.timers[i]; var u := Tick(s, now).state.timers[i];
      t.status == Running && t.remainingTime > 0 ==>
        && u.remainingTime == t.remainingTime - 1 && u.remainingTime >= 0
        && u.halfwayAlertTriggered == (t.halfwayAlert && !t.halfwayAlertTriggered && 2 * t.remainingTime <= t.duration)
        && (u.status == Completed <==> t.remainingTime <= 1)
        && (u.status != Completed ==> u.status == Running && u.completedAt == t.completedAt)
        && (u.status == Completed ==> u.completedAt == Some(now))
  {
    TickIsPointwise(s, now);
    StepAllAt(s.timers, now, i);
  }

  /** Every timer is judged on its own pre-tick record: two snapshots that
      agree at position `i` produce the same timer there. */
  lemma SnapshotIndependence(s1: State, s2: State, now: int, i: int)
    requires UniqueIds(s1.timers) && UniqueIds(s2.timers)
    requires 0 <= i < |s1.timers| && i < |s2.timers| && s1.timers[i] == s2.timers[i]
    ensures |Tick(s1, now).state.timers| == |s1.timers| && |Tick(s2, now).state.timers| == |s2.timers|
    ensures Tick(s1, now).state.timers[i] == Tick(s2, now).state.timers[i]
  {
    TickIsPointwise(s1, now);
    TickIsPointwise(s2, now);
    StepAllAt(s1.timers, now, i);
    StepAllAt(s2.timers, now, i);
  }

  lemma {:induction false} AllEventsMember(ts: seq<Timer>, e: Event)
    ensures e in AllEvents(ts) <==> exists j :: 0 <= j < |ts| && e in EventsOf(ts[j])
  {
    if |ts| > 0 {
      var init := ts[..|ts| - 1];
      AllEventsMember(init, e);
      if e in AllEvents(init) {
        var j :| 0 <= j < |init| && e in EventsOf(init[j]);
        assert ts[j] == init[j];
      }
      if exists j :: 0 <= j < |ts| && e in EventsOf(ts[j]) {
        var j :| 0 <= j < |ts| && e in EventsOf(ts[j]);
        if j < |ts| - 1 {
          assert init[j] == ts[j];
        }
      }
    }
  }

  lemma {:induction false} AllEntriesMember(ts: seq<Timer>, now: int, e: HistoryEntry)
    ensures e in AllEntries(ts, now) <==> exists j :: 0 <= j < |ts| && e in EntriesOf(ts[j], now)
  {
    if |ts| > 0 {
      var init := ts[..|ts| - 1];
      AllEntriesMember(init, now, e);
      if e in AllEntries(init, now) {
        var j :| 0 <= j < |init| && e in EntriesOf(init[j], now);
        assert ts[j] == init[j];
      }
      if exists j :: 0 <= j < |ts| && e in EntriesOf(ts[j], now) {
        var j :| 0 <= j < |ts| && e in EntriesOf(ts[j], now);
        if j < |ts| - 1 {
          assert init[j] == ts[j];
        }
      }
    }
  }

  /** With unique ids, a tick raises a halfway alert for a timer exactly when
      it is running with time left and the pre-decrement halfway condition
      holds (so never when its alert is disabled), and a completion notice
      exactly when it is running with a pre-decrement time of 1 or less. */
  lemma TickEvents(s: State, now: int, i: int)
    requires UniqueIds(s.timers) && 0 <= i < |s.timers|
    ensures var t := s.timers[i];
      HalfwayAlert(t.id, t.name) in Tick(s, now).events <==>
        t.status == Running && t.remainingTime > 0
        && t.halfwayAlert && !t.halfwayAlertTriggered && 2 * t.remainingTime <= t.duration
    ensures var t := s.timers[i];
      CompletionNotice(t.id, t.name) in Tick(s, now).events <==>
        t.status == Running && 0 < t.remainingTime <= 1
  {
    var t := s.timers[i];
    TickIsPointwise(s, now);
    AllEventsMember(s.timers, HalfwayAlert(t.id, t.name));
    AllEventsMember(s.timers, CompletionNotice(t.id, t.name));
    forall j | 0 <= j < |s.timers| && j != i
      ensures HalfwayAlert(t.id, t.name) !in EventsOf(s.timers[j])
      ensures CompletionNotice(t.id, t.name) !in EventsOf(s.timers[j])
    {
      assert s.timers[j].id != t.id;
    }
  }

  lemma {:induction false} AllEntriesLength(ts: seq<Timer>, now: int)
    ensures |AllEntries(ts, now)| == CompletingCount(ts)
  {
    if |ts| > 0 {
      AllEntriesLength(ts[..|ts| - 1], now);
    }
  }

  /** With unique ids, a tick appends to the history exactly one entry per
      timer that completes in it, copied from that timer's pre-tick record,
      and leaves the earlier history as it was. */
  lemma TickHistory(s: State, now: int)
    requires UniqueIds(s.timers)
    ensures var h := Tick(s, now).state.history;
      && |h| >= |s.history| && h[..|s.history|] == s.history
      && h[|s.history|..] == AllEntries(s.timers, now)
      && |h| - |s.history| == CompletingCount(s.timers)
      && forall e :: e in h[|s.history|..] <==>
           exists j :: 0 <= j < |s.timers| && s.timers[j].status == Running
             && 0 < s.timers[j].remainingTime <= 1 && e == EntryOf(s.timers[j], now)
  {
    TickIsPointwise(s, now);
    var h := Tick(s, now).state.history;
    assert h[|s.history|..] == AllEntries(s.timers, now);
    AllEntriesLength(s.timers, now);
    forall e
      ensures e in AllEntries(s.timers, now) <==>
        exists j :: 0 <= j < |s.timers| && s.timers[j].status == Running
          && 0 < s.timers[j].remainingTime <= 1 && e == EntryOf(s.timers[j], now)
    {
      AllEntriesMember(s.timers, now, e);
    }
  }

  /** A tick keeps the store invariant. */
  lemma TickPreservesValid(s: State, now: int)
    requires Valid(s)
    ensures Valid(Tick(s, now).state)
  {
    var r := Tick(s, now).state;
    TickFrame(s, now);
    forall i | 0 <= i < |s.timers|
      ensures InRange(r.timers[i])
    {
      TickAt(s, now, i);
    }
    StoreLemmas.ValidFromPointwise(s, r);
  }

  lemma {:induction false} TickFromIdle(snapshot: seq<Timer>, i: nat, acc: Outcome, now: int)
    requires i <= |snapshot|
    requires forall j :: 0 <= j < |snapshot| ==> !Ticking(snapshot[j])
    ensures TickFrom(snapshot, i, acc, now) == acc
    decreases |snapshot| - i
  {
    if i < |snapshot| {
      TickFromIdle(snapshot, i + 1, acc, now);
    }
  }

  /** When no timer is running with time left (every timer completed, say),
      a tick changes nothing and raises nothing. */
  lemma TickWithNothingRunning(s: State, now: int)
    requires forall j :: 0 <= j < |s.timers| ==> !(s.timers[j].status == Running && s.timers[j].remainingTime > 0)
    ensures Tick(s, now) == Outcome(s, [])
  {
    TickFromIdle(s.timers, 0, Outcome(s, []), now);
  }

  /** Halfway and completion fire in the same tick for a two-second timer
      on its second tick. */
  lemma HalfwayAndCompletionTogether(now: int)
    ensures var t := Timer("a", "tea", 2, "kitchen", Running, 1, true, false, 0, None);
      Tick(State([t], [], ["kitchen"]), now).events == [HalfwayAlert("a", "tea"), CompletionNotice("a", "tea")]
  {
    var t := Timer("a", "tea", 2, "kitchen", Running, 1, true, false, 0, None);
    var s := State([t], [], ["kitchen"]);
    TickIsPointwise(s, now);
    assert [t][..0] == [];
  }

  /** The flag is overwritten, not accumulated: once the halfway alert has
      fired, the next tick clears the flag without firing, and the tick after
      that fires again while the timer still runs. */
  lemma HalfwayRefires(t: Timer, now: int)
    requires t.status == Running && t.remainingTime > 0
    requires t.halfwayAlert && !t.halfwayAlertTriggered && 2 * t.remainingTime <= t.duration
    ensures var u := Step(t, now);
      Ticking(u) ==> !HalfwayDue(u) && !Step(u, now).halfwayAlertTriggered
    ensures var u := Step(t, now); var v := Step(u, now);
      Ticking(u) && Ticking(v) ==> HalfwayDue(v) && Step(v, now).halfwayAlertTriggered
  {
  }
}
