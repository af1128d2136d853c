/** The views the timer list derives from the store: the category filter,
    the per-category groups and their completion counts, the set of expanded
    categories, and which controls each timer shows. */
module TimerList {
  import opened Types
  import Store

  /** The filter value that selects every category. */
  const AllCategories: string := "all"

  /** The timers of one category, in list order. */
  function OfCategory(ts: seq<Timer>, c: string): (r: seq<Timer>)
    ensures forall t :: t in r <==> t in ts && t.category == c
    ensures |r| <= |ts|
  {
    if |ts| == 0 then []
    else if ts[0].category == c then [ts[0]] + OfCategory(ts[1..], c)
    else OfCategory(ts[1..], c)
  }

  /** Filtering distributes over concatenation, so the kept timers stay in
      their original relative order. */
  lemma {:induction false} OfCategoryAppend(a: seq<Timer>, b: seq<Timer>, c: string)
    ensures OfCategory(a + b, c) == OfCategory(a, c) + OfCategory(b, c)
  {
    if |a| == 0 {
      assert a + b == b;
    } else {
      assert (a + b)[1..] == a[1..] + b;
      OfCategoryAppend(a[1..], b, c);
    }
  }

  /** Filtering twice by category keeps the timers of both categories: all
      of them when the two agree, none otherwise. */
  lemma {:induction false} OfCategoryTwice(ts: seq<Timer>, s: string, c: string)
    ensures OfCategory(OfCategory(ts, s), c) == (if s == c then OfCategory(ts, c) else [])
  {
    if |ts| > 0 {
      OfCategoryTwice(ts[1..], s, c);
      if ts[0].category == s {
        assert OfCategory(ts, s) == [ts[0]] + OfCategory(ts[1..], s);
        assert ([ts[0]] + OfCategory(ts[1..], s))[1..] == OfCategory(ts[1..], s);
      }
    }
  }

  /** `filteredTimers`: every timer for the "all" selection, else exactly the
      timers of the selected category. */
  function FilteredTimers(ts: seq<Timer>, selected: string): (r: seq<Timer>)
    ensures selected == AllCategories ==> r == ts
    ensures selected != AllCategories ==> forall t :: t in r <==> t in ts && t.category == selected
  {
    if selected == AllCategories then ts else OfCategory(ts, selected)
  }

  /** `groupedTimers`: one entry per listed category. */
  function GroupedTimers(ts: seq<Timer>, categories: seq<string>, selected: string): (g: map<string, seq<Timer>>)
    ensures forall c :: c in g <==> c in categories
  {
    map c | c in categories :: OfCategory(FilteredTimers(ts, selected), c)
  }

  /** The group of a listed category is exactly that category's timers in
      list order when the filter lets the category through, and empty
      otherwise. A timer whose category is not listed is in no group. */
  lemma GroupContents(ts: seq<Timer>, categories: seq<string>, selected: string, c: string)
    requires c in categories
    ensures GroupedTimers(ts, categories, selected)[c] ==
      (if selected == AllCategories || selected == c then OfCategory(ts, c) else [])
  {
    if selected != AllCategories {
      OfCategoryTwice(ts, selected, c);
    }
  }

  lemma UnlistedInNoGroup(ts: seq<Timer>, categories: seq<string>, selected: string, t: Timer)
    requires t.category !in categories
    ensures forall c :: c in GroupedTimers(ts, categories, selected) ==> t !in GroupedTimers(ts, categories, selected)[c]
  {
  }

  /** The number of completed timers. */
  function CompletedCount(ts: seq<Timer>): (n: nat)
    ensures n <= |ts|
    ensures n == |ts| <==> forall i :: 0 <= i < |ts| ==> ts[i].status == Completed
    ensures n == 0 <==> forall i :: 0 <= i < |ts| ==> ts[i].status != Completed
    ensures |ts| == 1 ==> n == (if ts[0].status == Completed then 1 else 0)
  {
    if |ts| == 0 then 0
    else (if ts[0].status == Completed then 1 else 0) + CompletedCount(ts[1..])
  }

  /** Counting distributes over concatenation; with the one-timer case this
      makes the count the number of completed timers in the list. */
  lemma {:induction false} CompletedCountAppend(a: seq<Timer>, b: seq<Timer>)
    ensures CompletedCount(a + b) == CompletedCount(a) + CompletedCount(b)
  {
    if |a| == 0 {
      assert a + b == b;
    } else {
      assert (a + b)[1..] == a[1..] + b;
      CompletedCountAppend(a[1..], b);
    }
  }

  /** The header of one rendered category: its name, its timers, and how
      many of them are completed. */
  datatype Section = Section(category: string, timers: seq<Timer>, completed: nat, total: nat)

  /** The categories rendered, in list order; a category whose group is
      empty renders nothing. */
  function Sections(ts: seq<Timer>, categories: seq<string>, selected: string): (r: seq<Section>)
    ensures forall k :: 0 <= k < |r| ==>
      && r[k].category in categories
      && r[k].total == |r[k].timers| > 0
      && r[k].completed == CompletedCount(r[k].timers) <= r[k].total
      && r[k].timers == OfCategory(FilteredTimers(ts, selected), r[k].category)
  {
    if |categories| == 0 then []
    else
      var c := categories[0];
      var group := OfCategory(FilteredTimers(ts, selected), c);
      var rest := Sections(ts, categories[1..], selected);
      if |group| == 0 then rest
      else [Section(c, group, CompletedCount(group), |group|)] + rest
  }

  lemma ConsIndex<T>(x: T, s: seq<T>, k: int)
    requires 0 <= k < |s|
    ensures ([x] + s)[k + 1] == s[k]
  {
  }

  /** Every listed category with a non-empty group is rendered. */
  lemma {:induction false} SectionsCover(ts: seq<Timer>, categories: seq<string>, selected: string, c: string)
    requires c in categories && |OfCategory(FilteredTimers(ts, selected), c)| > 0
    ensures exists k :: 0 <= k < |Sections(ts, categories, selected)| && Sections(ts, categories, selected)[k].category == c
  {
    var r := Sections(ts, categories, selected);
    var group := OfCategory(FilteredTimers(ts, selected), categories[0]);
    var rest := Sections(ts, categories[1..], selected);
    if categories[0] == c {
      assert r == [Section(c, group, CompletedCount(group), |group|)] + rest;
      assert r[0].category == c;
    } else {
      assert c in categories[1..];
      SectionsCover(ts, categories[1..], selected, c);
      var k :| 0 <= k < |rest| && rest[k].category == c;
      if |group| == 0 {
        assert r == rest;
      } else {
        var head := Section(categories[0], group, CompletedCount(group), |group|);
        assert r == [head] + rest;
        ConsIndex(head, rest, k);
      }
    }
  }

  lemma RatioBounds(x: real, y: real)
    requires 0.0 < y && 0.0 <= x <= y
    ensures 0.0 <= x / y <= 1.0
    ensures x / y == 0.0 <==> x == 0.0
    ensures x / y == 1.0 <==> x == y
  {
    var q := x / y;
    assert q * y == x;
  }

  /** The width of a category's progress bar, in percent. */
  function Progress(completed: nat, total: nat): (p: real)
    requires 0 < total && completed <= total
    ensures 0.0 <= p <= 100.0
    ensures p == 0.0 <==> completed == 0
    ensures p == 100.0 <==> completed == total
    ensures p * (total as real) == 100.0 * (completed as real)
  {
    var f := completed as real / total as real;
    RatioBounds(completed as real, total as real);
    f * 100.0
  }

  lemma ProgressExamples()
    ensures Progress(2, 4) == 50.0
  {
  }

  /** `toggleCategory`: flips membership of exactly the given category. */
  function ToggleCategory(expanded: set<string>, c: string): (r: set<string>)
    ensures c in r <==> c !in expanded
    ensures forall x :: x != c ==> (x in r <==> x in expanded)
  {
    if c in expanded then expanded - {c} else expanded + {c}
  }

  lemma ToggleTwice(expanded: set<string>, c: string)
    ensures ToggleCategory(ToggleCategory(expanded, c), c) == expanded
  {
  }

  /** The controls shown beside one timer. */
  datatype Controls = Controls(start: bool, pause: bool, reset: bool)

  /** The controls depend on the status alone. */
  function ControlsFor(s: Status): Controls {
    if s == Completed then Controls(false, false, false)
    else Controls(s != Running, s == Running, true)
  }

  /** A completed timer shows nothing; a running one shows pause and reset;
      an idle or paused one shows start and reset. */
  lemma ControlsByStatus(s: Status)
    ensures s == Completed ==> ControlsFor(s) == Controls(false, false, false)
    ensures s == Running ==> ControlsFor(s) == Controls(false, true, true)
    ensures s == Idle || s == Paused ==> ControlsFor(s) == Controls(true, false, true)
  {
  }

  /** The start control is shown exactly for the timers a category-wide
      start would change, and the pause control exactly for those a
      category-wide pause would change. */
  lemma ControlsMatchBulkCommands(ts: seq<Timer>, i: int)
    requires 0 <= i < |ts|
    ensures var t := ts[i]; var s := Store.State(ts, [], []);
      ControlsFor(t.status).start <==> Store.StartCategoryTimers(s, t.category).timers[i] != t
    ensures var t := ts[i]; var s := Store.State(ts, [], []);
      ControlsFor(t.status).pause <==> Store.PauseCategoryTimers(s, t.category).timers[i] != t
  {
  }
}
