/** Properties of the store operations: the store invariant is kept, the
    category-wide commands agree with the single-timer commands, and an
    export read back by the loader gives the same timers and history. */
module StoreLemmas {
  import opened Types
  import opened Store

  /** With unique ids, looking up a timer's own id finds that timer. */
  lemma FindUnique(ts: seq<Timer>, i: int)
    requires UniqueIds(ts) && 0 <= i < |ts|
    ensures Find(ts, ts[i].id) == Some(ts[i])
  {
    var r := Find(ts, ts[i].id);
    var k :| 0 <= k < |ts| && ts[k] == r.value;
    assert ts[k].id == ts[i].id;
  }

  lemma {:induction false} RemoveIdKeepsUnique(ts: seq<Timer>, id: string)
    requires UniqueIds(ts)
    ensures UniqueIds(RemoveId(ts, id))
  {
    if |ts| > 0 {
      RemoveIdKeepsUnique(ts[1..], id);
      var rest := RemoveId(ts[1..], id);
      if ts[0].id != id {
        forall j | 0 <= j < |rest|
          ensures ts[0].id != rest[j].id
        {
          assert rest[j] in ts[1..];
        }
      }
    }
  }

  /** Deleting keeps the remaining timers in their original order. */
  lemma {:induction false} RemoveIdKeepsOrder(a: seq<Timer>, b: seq<Timer>, id: string)
    ensures RemoveId(a + b, id) == RemoveId(a, id) + RemoveId(b, id)
  {
    if |a| > 0 {
      assert (a + b)[1..] == a[1..] + b;
      RemoveIdKeepsOrder(a[1..], b, id);
    } else {
      assert a + b == b;
    }
  }

  lemma AddPreservesValid(s: State, d: Draft, id: string, now: int)
    requires Valid(s)
    requires d.duration >= 0
    requires forall i :: 0 <= i < |s.timers| ==> s.timers[i].id != id
    ensures Valid(AddTimer(s, d, id, now))
  {
    var r := AddTimer(s, d, id, now);
    assert forall i :: 0 <= i < |s.timers| ==> r.timers[i] == s.timers[i];
  }

  lemma DeletePreservesValid(s: State, id: string)
    requires Valid(s)
    ensures Valid(DeleteTimer(s, id))
  {
    RemoveIdKeepsUnique(s.timers, id);
    var r := DeleteTimer(s, id);
    forall i | 0 <= i < |r.timers|
      ensures InRange(r.timers[i]) && r.timers[i].category in r.categories
    {
      assert r.timers[i] in s.timers;
    }
  }

  /** A store whose timers keep their ids and categories position by
      position, and are each in range, is valid when the original was. */
  lemma ValidFromPointwise(s: State, r: State)
    requires Valid(s)
    requires |r.timers| == |s.timers| && r.categories == s.categories
    requires forall i :: 0 <= i < |s.timers| ==>
      r.timers[i].id == s.timers[i].id && r.timers[i].category == s.timers[i].category && InRange(r.timers[i])
    ensures Valid(r)
  {
    assert UniqueIds(r.timers) by {
      forall i, j | 0 <= i < j < |r.timers|
        ensures r.timers[i].id != r.timers[j].id
      {
        assert s.timers[i].id != s.timers[j].id;
      }
    }
  }

  lemma StartPausePreserveValid(s: State, id: string)
    requires Valid(s)
    ensures Valid(StartTimer(s, id)) && Valid(PauseTimer(s, id))
  {
    ValidFromPointwise(s, StartTimer(s, id));
    ValidFromPointwise(s, PauseTimer(s, id));
  }

  /** The three category-wide commands keep the invariant. */
  lemma BulkPreservesValid(s: State, c: string)
    requires Valid(s)
    ensures Valid(StartCategoryTimers(s, c))
    ensures Valid(PauseCategoryTimers(s, c))
    ensures Valid(ResetCategoryTimers(s, c))
  {
    ValidFromPointwise(s, StartCategoryTimers(s, c));
    ValidFromPointwise(s, PauseCategoryTimers(s, c));
    ValidFromPointwise(s, ResetCategoryTimers(s, c));
  }

  lemma ResetPreservesValid(s: State, id: string)
    requires Valid(s)
    ensures Valid(ResetTimer(s, id))
  {
    var r := ResetTimer(s, id);
    forall i | 0 <= i < |s.timers|
      ensures r.timers[i].id == s.timers[i].id && r.timers[i].category == s.timers[i].category
      ensures InRange(r.timers[i])
    {
      if s.timers[i].id == id {
        ResetRestoresDuration(s, i);
      } else {
        assert r.timers[i] == s.timers[i];
      }
    }
    ValidFromPointwise(s, r);
  }

  lemma CompletePreservesValid(s: State, id: string, now: int)
    requires Valid(s)
    ensures Valid(CompleteTimer(s, id, now))
  {
  }

  /** With unique ids, resetting a timer gives it its own full duration back,
      clears the halfway flag, makes it idle, and keeps its `completedAt`. */
  lemma ResetRestoresDuration(s: State, i: int)
    requires UniqueIds(s.timers) && 0 <= i < |s.timers|
    ensures var t := ResetTimer(s, s.timers[i].id).timers[i];
      && t.status == Idle && t.remainingTime == s.timers[i].duration
      && !t.halfwayAlertTriggered && t.completedAt == s.timers[i].completedAt
  {
    FindUnique(s.timers, i);
  }

  /** Completing the same timer twice appends two history entries. */
  lemma CompleteTwiceAppendsTwice(s: State, i: int, now1: int, now2: int)
    requires 0 <= i < |s.timers|
    ensures var id := s.timers[i].id;
      |CompleteTimer(CompleteTimer(s, id, now1), id, now2).history| == |s.history| + 2
  {
    var id := s.timers[i].id;
    var s1 := CompleteTimer(s, id, now1);
    assert s1.timers[i].id == id;
  }

  /** Each category-wide command acts on a touched timer exactly as the
      single-timer command for that timer's id does. */
  lemma StartCategoryMatchesStart(s: State, c: string, i: int)
    requires 0 <= i < |s.timers|
    ensures var t := s.timers[i];
      StartCategoryTimers(s, c).timers[i] ==
        (if t.category == c && t.status != Completed then StartTimer(s, t.id).timers[i] else t)
  {
  }

  lemma PauseCategoryMatchesPause(s: State, c: string, i: int)
    requires 0 <= i < |s.timers|
    ensures var t := s.timers[i];
      PauseCategoryTimers(s, c).timers[i] ==
        (if t.category == c && t.status == Running then PauseTimer(s, t.id).timers[i] else t)
  {
  }

  lemma ResetCategoryMatchesReset(s: State, c: string, i: int)
    requires UniqueIds(s.timers) && 0 <= i < |s.timers|
    ensures var t := s.timers[i];
      ResetCategoryTimers(s, c).timers[i] ==
        (if t.category == c then ResetTimer(s, t.id).timers[i] else t)
  {
    ResetRestoresDuration(s, i);
    var t := ResetTimer(s, s.timers[i].id).timers[i];
    assert t.id == s.timers[i].id;
  }

  /** The timers whose record actually differs after a category-wide command. */
  lemma BulkChangesExactly(s: State, c: string, i: int)
    requires 0 <= i < |s.timers|
    ensures var t := s.timers[i];
      StartCategoryTimers(s, c).timers[i] != t <==>
        t.category == c && (t.status == Idle || t.status == Paused)
    ensures var t := s.timers[i];
      PauseCategoryTimers(s, c).timers[i] != t <==>
        t.category == c && t.status == Running
    ensures var t := s.timers[i];
      ResetCategoryTimers(s, c).timers[i] != t <==>
        t.category == c && !(t.status == Idle && t.remainingTime == t.duration && !t.halfwayAlertTriggered)
  {
  }

  /** Feeding an export back to the loader gives the same timers and history,
      and a category collection that lists no category the store did not. */
  lemma ExportLoadRoundTrip(s: State, date: string)
    requires CategoriesCover(s)
    ensures var e := ExportData(s, date);
      var l := Load(Some(e.timers), Some(e.history));
      && l.timers == s.timers && l.history == s.history
      && CategoriesCover(l)
      && forall c :: c in l.categories ==> c in s.categories
  {
  }
}
