/** The timer store: the list of timers, the completion history and the
    category collection, with every operation the store exposes written as a
    pure function from one store state to the next. */
module Store {
  import opened Types

  /** A partial timer record: every `Some` field overwrites the timer's own
      field, as an object spread `{ ...timer, ...updates }` does. */
  datatype Patch = Patch(
    id: Option<string>,
    name: Option<string>,
    duration: Option<int>,
    category: Option<string>,
    status: Option<Status>,
    remainingTime: Option<int>,
    halfwayAlert: Option<bool>,
    halfwayAlertTriggered: Option<bool>,
    createdAt: Option<int>,
    completedAt: Option<int>
  )

  const NoChange: Patch := Patch(None, None, None, None, None, None, None, None, None, None)

  function Apply(t: Timer, p: Patch): Timer {
    Timer(
      p.id.GetOr(t.id),
      p.name.GetOr(t.name),
      p.duration.GetOr(t.duration),
      p.category.GetOr(t.category),
      p.status.GetOr(t.status),
      p.remainingTime.GetOr(t.remainingTime),
      p.halfwayAlert.GetOr(t.halfwayAlert),
      p.halfwayAlertTriggered.GetOr(t.halfwayAlertTriggered),
      p.createdAt.GetOr(t.createdAt),
      if p.completedAt.Some? then p.completedAt else t.completedAt
    )
  }

  /** The update completeTimer applies to the completed timer. */
  function CompletePatch(now: int): Patch {
    NoChange.(status := Some(Completed), remainingTime := Some(0), completedAt := Some(now))
  }

  /** The update resetTimer applies, with the duration of the timer it found. */
  function ResetPatch(duration: int): Patch {
    NoChange.(status := Some(Idle), remainingTime := Some(duration), halfwayAlertTriggered := Some(false))
  }

  /** The store's state. `categories` is kept in first-insertion order. */
  datatype State = State(timers: seq<Timer>, history: seq<HistoryEntry>, categories: seq<string>)

  /** The exported record `{timers, history, exportDate}`. */
  datatype ExportRecord = ExportRecord(timers: seq<Timer>, history: seq<HistoryEntry>, exportDate: string)

  predicate NoDup(xs: seq<string>) {
    forall i, j :: 0 <= i < j < |xs| ==> xs[i] != xs[j]
  }

  /** Every timer's category is listed in the category collection. */
  predicate CategoriesCover(s: State) {
    forall i :: 0 <= i < |s.timers| ==> s.timers[i].category in s.categories
  }

  /** The store invariant the store operations maintain. */
  predicate Valid(s: State) {
    && AllInRange(s.timers)
    && UniqueIds(s.timers)
    && NoDup(s.categories)
    && CategoriesCover(s)
  }

  /** Inserting into an insertion-ordered set: the category is added at the
      end when it is absent, and the existing order is kept. */
  function AddCategory(cats: seq<string>, c: string): (r: seq<string>)
    ensures NoDup(cats) ==> NoDup(r)
    ensures forall x :: x in r <==> x in cats || x == c
    ensures cats <= r
    ensures c in cats ==> r == cats
  {
    if c in cats then cats else cats + [c]
  }

  /** The distinct values of `xs`, in order of first occurrence. */
  function Distinct(xs: seq<string>): (r: seq<string>)
    ensures NoDup(r)
    ensures forall x :: x in r <==> x in xs
  {
    if |xs| == 0 then [] else AddCategory(Distinct(xs[..|xs| - 1]), xs[|xs| - 1])
  }

  function CategoriesOf(ts: seq<Timer>): (r: seq<string>)
    ensures |r| == |ts|
    ensures forall i :: 0 <= i < |ts| ==> r[i] == ts[i].category
  {
    if |ts| == 0 then [] else [ts[0].category] + CategoriesOf(ts[1..])
  }

  /** Start-up: the already-parsed saved timers and history, each absent when
      nothing was stored. The category collection is rebuilt from the loaded
      timers only. */
  function Load(savedTimers: Option<seq<Timer>>, savedHistory: Option<seq<HistoryEntry>>): (s: State)
    ensures s.timers == savedTimers.GetOr([]) && s.history == savedHistory.GetOr([])
    ensures NoDup(s.categories)
    ensures forall c :: c in s.categories <==> exists i :: 0 <= i < |s.timers| && s.timers[i].category == c
  {
    var ts := savedTimers.GetOr([]);
    var cats := if savedTimers.Some? then Distinct(CategoriesOf(ts)) else [];
    assert forall c :: c in CategoriesOf(ts) ==> exists i :: 0 <= i < |ts| && ts[i].category == c;
    State(ts, savedHistory.GetOr([]), cats)
  }

  /** The first timer with the given id. */
  function Find(ts: seq<Timer>, id: string): (r: Option<Timer>)
    ensures r.None? <==> forall i :: 0 <= i < |ts| ==> ts[i].id != id
    ensures r.Some? ==> exists i :: 0 <= i < |ts| && ts[i] == r.value && forall j :: 0 <= j < i ==> ts[j].id != id
    ensures r.Some? ==> r.value.id == id
  {
    if |ts| == 0 then None
    else if ts[0].id == id then Some(ts[0])
    else
      var r := Find(ts[1..], id);
      assert r.Some? ==> exists i :: 1 <= i < |ts| && ts[i] == r.value && forall j :: 0 <= j < i ==> ts[j].id != id by {
        if r.Some? {
          var k :| 0 <= k < |ts[1..]| && ts[1..][k] == r.value && forall j :: 0 <= j < k ==> ts[1..][j].id != id;
          assert ts[k + 1] == r.value;
        }
      }
      r
  }

  /** Applies the patch to every timer whose id matches, in place. */
  function MapById(ts: seq<Timer>, id: string, p: Patch): (r: seq<Timer>)
    ensures |r| == |ts|
    ensures forall i :: 0 <= i < |ts| ==> r[i] == (if ts[i].id == id then Apply(ts[i], p) else ts[i])
  {
    if |ts| == 0 then [] else [if ts[0].id == id then Apply(ts[0], p) else ts[0]] + MapById(ts[1..], id, p)
  }

  /** Keeps the timers whose id differs from `id`, in order. */
  function RemoveId(ts: seq<Timer>, id: string): (r: seq<Timer>)
    ensures forall t :: t in r <==> t in ts && t.id != id
    ensures |r| <= |ts|
  {
    if |ts| == 0 then []
    else if ts[0].id == id then RemoveId(ts[1..], id)
    else [ts[0]] + RemoveId(ts[1..], id)
  }

  /** The three category-wide commands. */
  datatype Bulk = StartAll | PauseAll | ResetAll

  /** Which timers a category-wide command touches. */
  predicate Selects(b: Bulk, c: string, t: Timer) {
    match b
    case StartAll => t.category == c && t.status != Completed
    case PauseAll => t.category == c && t.status == Running
    case ResetAll => t.category == c
  }

  /** What a category-wide command does to a timer it touches. */
  function Transform(b: Bulk, t: Timer): Timer {
    match b
    case StartAll => t.(status := Running)
    case PauseAll => t.(status := Paused)
    case ResetAll => t.(status := Idle, remainingTime := t.duration, halfwayAlertTriggered := false)
  }

  function MapCategory(ts: seq<Timer>, c: string, b: Bulk): (r: seq<Timer>)
    ensures |r| == |ts|
    ensures forall i :: 0 <= i < |ts| ==> r[i] == (if Selects(b, c, ts[i]) then Transform(b, ts[i]) else ts[i])
  {
    if |ts| == 0 then []
    else [if Selects(b, c, ts[0]) then Transform(b, ts[0]) else ts[0]] + MapCategory(ts[1..], c, b)
  }

  // ---------------------------------------------------------------------
  // The operations of the store
  // ---------------------------------------------------------------------

  /** addTimer: the fresh id and the creation time are parameters. */
  function AddTimer(s: State, d: Draft, id: string, now: int): (r: State)
    ensures |r.timers| == |s.timers| + 1 && r.timers[..|s.timers|] == s.timers
    ensures var n := r.timers[|s.timers|];
      && n.id == id && n.createdAt == now
      && n.name == d.name && n.duration == d.duration && n.category == d.category
      && n.halfwayAlert == d.halfwayAlert && n.completedAt == d.completedAt
      && n.status == Idle && n.remainingTime == d.duration && !n.halfwayAlertTriggered
    ensures forall c :: c in r.categories <==> c in s.categories || c == d.category
    ensures s.categories <= r.categories
    ensures NoDup(s.categories) ==> NoDup(r.categories)
    ensures r.history == s.history
  {
    var t := Timer(id, d.name, d.duration, d.category, Idle, d.duration, d.halfwayAlert, false, now, d.completedAt);
    State(s.timers + [t], s.history, AddCategory(s.categories, d.category))
  }

  /** updateTimer: merges the patch into every timer with that id. */
  function UpdateTimer(s: State, id: string, p: Patch): (r: State)
    ensures |r.timers| == |s.timers|
    ensures forall i :: 0 <= i < |s.timers| ==> r.timers[i] == (if s.timers[i].id == id then Apply(s.timers[i], p) else s.timers[i])
    ensures r.history == s.history && r.categories == s.categories
  {
    s.(timers := MapById(s.timers, id, p))
  }

  /** completeTimer as it runs when the lookup list (the timers the callback
      was created with) may differ from the list being updated: the history
      entry is built from the first timer with that id in `lookup`, and the
      completion is merged into `s`. The id and timestamp are unguarded. */
  function CompleteIn(lookup: seq<Timer>, s: State, id: string, now: int): State {
    match Find(lookup, id)
    case None => s
    case Some(t) => UpdateTimer(s.(history := s.history + [EntryOf(t, now)]), id, CompletePatch(now))
  }

  /** completeTimer. A second completion of the same timer appends a second
      entry: there is no guard against completing a completed timer. */
  function CompleteTimer(s: State, id: string, now: int): (r: State)
    ensures (forall i :: 0 <= i < |s.timers| ==> s.timers[i].id != id) ==> r == s
    ensures (exists i :: 0 <= i < |s.timers| && s.timers[i].id == id) ==>
      && |r.history| == |s.history| + 1 && r.history[..|s.history|] == s.history
      && exists i :: 0 <= i < |s.timers| && s.timers[i].id == id && r.history[|s.history|] == EntryOf(s.timers[i], now)
    ensures (exists i :: 0 <= i < |s.timers| && s.timers[i].id == id) ==>
      && |r.timers| == |s.timers|
      && forall i :: 0 <= i < |s.timers| ==>
           r.timers[i] == (if s.timers[i].id == id
                           then s.timers[i].(status := Completed, remainingTime := 0, completedAt := Some(now))
                           else s.timers[i])
    ensures Find(s.timers, id).Some? ==> r.history == s.history + [EntryOf(Find(s.timers, id).value, now)]
    ensures r.categories == s.categories
  {
    CompleteIn(s.timers, s, id, now)
  }

  /** deleteTimer: removes every timer with that id; history and categories
      are untouched. */
  function DeleteTimer(s: State, id: string): (r: State)
    ensures forall t :: t in r.timers <==> t in s.timers && t.id != id
    ensures |r.timers| <= |s.timers|
    ensures r.history == s.history && r.categories == s.categories
  {
    s.(timers := RemoveId(s.timers, id))
  }

  /** startTimer: sets the status whatever it was, completed included. */
  function StartTimer(s: State, id: string): (r: State)
    ensures |r.timers| == |s.timers|
    ensures forall i :: 0 <= i < |s.timers| ==> r.timers[i] == (if s.timers[i].id == id then s.timers[i].(status := Running) else s.timers[i])
    ensures r.history == s.history && r.categories == s.categories
  {
    UpdateTimer(s, id, NoChange.(status := Some(Running)))
  }

  /** pauseTimer: sets the status whatever it was. */
  function PauseTimer(s: State, id: string): (r: State)
    ensures |r.timers| == |s.timers|
    ensures forall i :: 0 <= i < |s.timers| ==> r.timers[i] == (if s.timers[i].id == id then s.timers[i].(status := Paused) else s.timers[i])
    ensures r.history == s.history && r.categories == s.categories
  {
    UpdateTimer(s, id, NoChange.(status := Some(Paused)))
  }

  /** resetTimer: a no-op for an unknown id; otherwise every timer with that
      id becomes idle, with the duration of the first such timer as its
      remaining time and the halfway flag cleared. `completedAt` is kept. */
  function ResetTimer(s: State, id: string): (r: State)
    ensures (forall i :: 0 <= i < |s.timers| ==> s.timers[i].id != id) ==> r == s
    ensures |r.timers| == |s.timers|
    ensures forall i :: 0 <= i < |s.timers| && s.timers[i].id != id ==> r.timers[i] == s.timers[i]
    ensures Find(s.timers, id).Some? ==>
      var first := Find(s.timers, id).value;
      forall i :: 0 <= i < |s.timers| && s.timers[i].id == id ==>
        r.timers[i] == s.timers[i].(status := Idle, remainingTime := first.duration, halfwayAlertTriggered := false)
    ensures r.history == s.history && r.categories == s.categories
  {
    match Find(s.timers, id)
    case None => s
    case Some(t) => UpdateTimer(s, id, ResetPatch(t.duration))
  }

  /** startCategoryTimers: every timer of the category that is not completed
      becomes running. */
  function StartCategoryTimers(s: State, c: string): (r: State)
    ensures |r.timers| == |s.timers|
    ensures forall i :: 0 <= i < |s.timers| ==>
      r.timers[i] == (if s.timers[i].category == c && s.timers[i].status != Completed then s.timers[i].(status := Running) else s.timers[i])
    ensures r.history == s.history && r.categories == s.categories
  {
    s.(timers := MapCategory(s.timers, c, StartAll))
  }

  /** pauseCategoryTimers: every running timer of the category is paused. */
  function PauseCategoryTimers(s: State, c: string): (r: State)
    ensures |r.timers| == |s.timers|
    ensures forall i :: 0 <= i < |s.timers| ==>
      r.timers[i] == (if s.timers[i].category == c && s.timers[i].status == Running then s.timers[i].(status := Paused) else s.timers[i])
    ensures r.history == s.history && r.categories == s.categories
  {
    s.(timers := MapCategory(s.timers, c, PauseAll))
  }

  /** resetCategoryTimers: every timer of the category, whatever its status,
      is reset to its own duration. */
  function ResetCategoryTimers(s: State, c: string): (r: State)
    ensures |r.timers| == |s.timers|
    ensures forall i :: 0 <= i < |s.timers| ==>
      r.timers[i] == (if s.timers[i].category == c
       then s.timers[i].(status := Idle, remainingTime := s.timers[i].duration, halfwayAlertTriggered := false)
       else s.timers[i])
    ensures r.history == s.history && r.categories == s.categories
  {
    s.(timers := MapCategory(s.timers, c, ResetAll))
  }

  /** exportData: the record that is serialized; the date string is a parameter. */
  function ExportData(s: State, exportDate: string): ExportRecord {
    ExportRecord(s.timers, s.history, exportDate)
  }
}
