/** The creation form: how the submitted fields become a creation payload,
    and how the history view shows the duration again in minutes. */
module TimerForm {
  import opened Types
  import Store

  /** The five form fields. `duration` is the raw text of the minutes box. */
  datatype Form = Form(name: string, duration: string, category: string, newCategory: string, halfwayAlert: bool)

  /** The values every field starts with and returns to after a submit. */
  const Blank: Form := Form("", "", "", "", false)

  /** The category option that asks for a new category name. */
  const NewCategoryOption: string := "new"

  /** handleSubmit. `minutes` is the already-parsed value of the duration
      text. Returns the payload handed to the store and the form afterwards. */
  function Submit(f: Form, minutes: int): (r: (Draft, Form))
    ensures r.0.duration == minutes * 60
    ensures r.0.category == (if f.category == NewCategoryOption then f.newCategory else f.category)
    ensures r.0.name == f.name && r.0.halfwayAlert == f.halfwayAlert
    ensures r.0.completedAt == None
    ensures r.1 == Blank
  {
    var finalCategory := if f.category == NewCategoryOption then f.newCategory else f.category;
    (Draft(f.name, minutes * 60, finalCategory, f.halfwayAlert, None), Blank)
  }

  /** An existing category literally named "new" cannot be chosen as it is:
      selecting it submits the new-category text instead. */
  lemma CategoryNamedNewIsShadowed(f: Form, minutes: int)
    requires f.category == NewCategoryOption
    ensures Submit(f, minutes).0.category == f.newCategory
  {
  }

  /** The minutes the history view shows for an entry. */
  function DisplayMinutes(e: HistoryEntry): int {
    e.duration / 60
  }

  /** Submitting, adding under a fresh id, and completing that timer yields a
      history entry that displays the minutes that were entered. */
  lemma MinutesSurviveToHistory(f: Form, minutes: int, s: Store.State, id: string, createdAt: int, now: int)
    requires forall i :: 0 <= i < |s.timers| ==> s.timers[i].id != id
    ensures var d := Submit(f, minutes).0;
      var s1 := Store.AddTimer(s, d, id, createdAt);
      var s2 := Store.CompleteTimer(s1, id, now);
      && |s2.history| == |s.history| + 1
      && s2.history[|s.history|].name == f.name
      && DisplayMinutes(s2.history[|s.history|]) == minutes
  {
    var d := Submit(f, minutes).0;
    var s1 := Store.AddTimer(s, d, id, createdAt);
    assert s1.timers[|s.timers|].id == id;
    var s2 := Store.CompleteTimer(s1, id, now);
    var i :| 0 <= i < |s1.timers| && s1.timers[i].id == id && s2.history[|s.history|] == EntryOf(s1.timers[i], now);
    assert i == |s.timers|;
  }
}
