/** The view pipeline run by `renderTodos`: status filter, text search,
    date sort, urgency classification and the empty-state decision. */
module Pipeline {
  import opened Tasks
  import opened Seqs
  import opened Text

  // ---------------------------------------------------------------------------
  // 1. Status filter and 2. text search

  predicate IsPending(t: Task) { !t.completed }

  predicate IsDone(t: Task) { t.completed }

  /** The filter value admits the task: "pending" only open tasks, "completed" only
      finished ones, any other value every task. */
  predicate Admits(filter: string, t: Task)
  {
    (filter == "pending" ==> IsPending(t)) && (filter == "completed" ==> IsDone(t))
  }

  function StatusFilter(s: seq<Task>, filter: string): seq<Task>
  {
    if filter == "pending" then Filter(IsPending, s)
    else if filter == "completed" then Filter(IsDone, s)
    else s
  }

  /** The task's lowercased text contains the (already lowercased) search term. */
  function MatchesTerm(term: string): Task -> bool
  {
    (t: Task) => Contains(Lower(t.text), term)
  }

  function Search(s: seq<Task>, term: string): seq<Task>
  {
    if term == "" then s else Filter(MatchesTerm(term), s)
  }

  /** The list `renderTodos` goes on to sort: the search applied to the status filter's result. */
  function Visible(s: seq<Task>, filter: string, term: string): seq<Task>
  {
    Search(StatusFilter(s, filter), term)
  }

  /** When neither step applies, `filteredTodos` is the store's own array. */
  predicate Aliased(filter: string, term: string)
  {
    filter != "pending" && filter != "completed" && term == ""
  }

  lemma StatusFilterIsSubseq(s: seq<Task>, filter: string)
    ensures Subseq(StatusFilter(s, filter), s)
  {
    if filter == "pending" {
      FilterIsSubseq(IsPending, s);
    } else if filter == "completed" {
      FilterIsSubseq(IsDone, s);
    } else {
      SubseqRefl(s);
    }
  }

  /** The status filter keeps every admitted task as often as it occurs, and nothing else. */
  lemma StatusFilterKeeps(s: seq<Task>, filter: string, t: Task)
    ensures multiset(StatusFilter(s, filter))[t] == if Admits(filter, t) then multiset(s)[t] else 0
  {
    if filter == "pending" {
      FilterCount(IsPending, s, t);
    } else if filter == "completed" {
      FilterCount(IsDone, s, t);
    }
  }

  /** The "pending" and "completed" views split the store with no overlap and no omission. */
  lemma StatusFilterPartition(s: seq<Task>)
    ensures multiset(StatusFilter(s, "pending")) + multiset(StatusFilter(s, "completed")) == multiset(s)
    ensures |StatusFilter(s, "pending")| + |StatusFilter(s, "completed")| == |s|
  {
    FilterPartition(IsDone, IsPending, s);
  }

  /** A non-empty search keeps exactly the tasks whose lowercased text contains the term. */
  lemma SearchKeeps(s: seq<Task>, term: string, t: Task)
    ensures multiset(Search(s, term))[t]
      == if term == "" || Contains(Lower(t.text), term) then multiset(s)[t] else 0
  {
    if term != "" {
      FilterCount(MatchesTerm(term), s, t);
    }
  }

  lemma SearchIsSubseq(s: seq<Task>, term: string)
    ensures Subseq(Search(s, term), s)
  {
    if term != "" {
      FilterIsSubseq(MatchesTerm(term), s);
    } else {
      SubseqRefl(s);
    }
  }

  /** The visible list is a subsequence of the store. */
  lemma VisibleIsSubseq(s: seq<Task>, filter: string, term: string)
    ensures Subseq(Visible(s, filter, term), s)
  {
    StatusFilterIsSubseq(s, filter);
    SearchIsSubseq(StatusFilter(s, filter), term);
    SubseqTrans(Visible(s, filter, term), StatusFilter(s, filter), s);
  }

  /** The visible list holds exactly the tasks that the filter admits and the search
      matches, each as often as in the store. */
  lemma VisibleKeeps(s: seq<Task>, filter: string, term: string, t: Task)
    ensures multiset(Visible(s, filter, term))[t] ==
            (if Admits(filter, t) && (term == "" || Contains(Lower(t.text), term)) then multiset(s)[t] else 0)
  {
    StatusFilterKeeps(s, filter, t);
    SearchKeeps(StatusFilter(s, filter), term, t);
  }

  /** With filter "all" and no search the visible list is the whole store. */
  lemma AliasedVisibleIsStore(s: seq<Task>, filter: string, term: string)
    requires Aliased(filter, term)
    ensures Visible(s, filter, term) == s
  {
  }

  // ---------------------------------------------------------------------------
  // 3. Sort by due date

  /** The comparator as written: an undated first operand always answers 1, so two
      undated tasks each compare greater than the other. */
  function CompareAsWritten(a: Task, b: Task): int
  {
    if a.date.NoDate? then 1
    else if b.date.NoDate? then -1
    else a.date.day - b.date.day
  }

  /** Two undated tasks make the comparator inconsistent: each is "greater" than the other. */
  lemma CompareAsWrittenInconsistent()
    ensures CompareAsWritten(Task(1, "a", NoDate, false), Task(2, "b", NoDate, false)) > 0
    ensures CompareAsWritten(Task(2, "b", NoDate, false), Task(1, "a", NoDate, false)) > 0
  {
  }

  /** The comparator with the undated pair treated as equal. */
  function Compare(a: Task, b: Task): (r: int)
    ensures r <= 0 <==> DateLe(a.date, b.date)
  {
    if a.date.NoDate? && b.date.NoDate? then 0
    else if a.date.NoDate? then 1
    else if b.date.NoDate? then -1
    else a.date.day - b.date.day
  }

  /** `Compare` is a consistent comparator: swapping the operands negates the result, and
      "not after" is transitive. It agrees with `CompareAsWritten` except on undated pairs. */
  lemma CompareConsistent(a: Task, b: Task, c: Task)
    ensures Compare(b, a) == -Compare(a, b)
    ensures Compare(a, b) <= 0 && Compare(b, c) <= 0 ==> Compare(a, c) <= 0
    ensures !(a.date.NoDate? && b.date.NoDate?) ==> Compare(a, b) == CompareAsWritten(a, b)
  {
  }

  /** `filteredTodos.sort(...)`: in place, the result is in date order and a permutation. */
  method SortByDate(a: array<Task>)
    modifies a
    ensures DateOrdered(a[..])
    ensures multiset(a[..]) == multiset(old(a[..]))
  {
    var i := 0;
    while i < a.Length
      invariant 0 <= i <= a.Length
      invariant SortedPrefix(a, i)
      invariant multiset(a[..]) == multiset(old(a[..]))
    {
      InsertLast(a, i);
      i := i + 1;
    }
  }

  /** The first `n` tasks of `a` are in date order. */
  ghost predicate SortedPrefix(a: array<Task>, n: int)
    requires 0 <= n <= a.Length
    reads a
  {
    forall p, q :: 0 <= p < q < n ==> DateLe(a[p].date, a[q].date)
  }

  /** One insertion step: moves `a[i]` down past the later-dated tasks before it. */
  method InsertLast(a: array<Task>, i: int)
    requires 0 <= i < a.Length && SortedPrefix(a, i)
    modifies a
    ensures SortedPrefix(a, i + 1)
    ensures multiset(a[..]) == multiset(old(a[..]))
  {
    var j := i;
    while 0 < j && Compare(a[j - 1], a[j]) > 0
      invariant 0 <= j <= i
      invariant forall p, q :: 0 <= p < q <= i && p != j && q != j ==> DateLe(a[p].date, a[q].date)
      invariant forall q :: j < q <= i ==> DateLe(a[j].date, a[q].date)
      invariant 0 < j < i ==> DateLe(a[j - 1].date, a[j + 1].date)
      invariant multiset(a[..]) == multiset(old(a[..]))
    {
      SwapDown(a, j);
      j := j - 1;
    }
  }

  method SwapDown(a: array<Task>, j: int)
    requires 0 < j < a.Length
    modifies a
    ensures a[j - 1] == old(a[j]) && a[j] == old(a[j - 1])
    ensures forall k :: 0 <= k < a.Length && k != j - 1 && k != j ==> a[k] == old(a[k])
    ensures multiset(a[..]) == multiset(old(a[..]))
  {
    a[j - 1], a[j] := a[j], a[j - 1];
  }

  // ---------------------------------------------------------------------------
  // 4. Urgency classification and styling

  datatype Urgency = Overdue | DueToday | Upcoming | NotUrgent

  /** The look-ahead window of "upcoming" tasks, in days. */
  const LookAheadDays := 3

  /** The urgency of a task against `today`, the current day truncated to midnight. */
  function UrgencyOf(t: Task, today: int): (u: Urgency)
    ensures t.completed || t.date.NoDate? ==> u == NotUrgent
    ensures u == Overdue <==> !t.completed && t.date.Day? && t.date.day < today
    ensures u == DueToday <==> !t.completed && t.date.Day? && t.date.day == today
    ensures u == Upcoming <==> !t.completed && t.date.Day? && today < t.date.day <= today + LookAheadDays
  {
    match t.date
    case NoDate => NotUrgent
    case Day(d) =>
      if t.completed then NotUrgent
      else if d < today then Overdue
      else if d == today then DueToday
      else if d <= today + LookAheadDays then Upcoming
      else NotUrgent
  }

  /** The date text: blank, the formatted date, the formatted date marked overdue, or "Today". */
  datatype DateLabel = NoLabel | Formatted(day: int) | FormattedOverdue(day: int) | TodayLabel

  /** The look of a list item: muted for completed tasks, else by urgency. */
  datatype Style = Muted | OverdueStyle | TodayStyle | UpcomingStyle | PlainStyle

  datatype Item = Item(task: Task, dateLabel: DateLabel, style: Style)

  function LabelOf(t: Task, today: int): DateLabel
  {
    match UrgencyOf(t, today)
    case Overdue => FormattedOverdue(t.date.day)
    case DueToday => TodayLabel
    case _ => if t.date.Day? then Formatted(t.date.day) else NoLabel
  }

  function StyleOf(t: Task, today: int): Style
  {
    if t.completed then Muted
    else match UrgencyOf(t, today)
      case Overdue => OverdueStyle
      case DueToday => TodayStyle
      case Upcoming => UpcomingStyle
      case NotUrgent => PlainStyle
  }

  function ItemOf(t: Task, today: int): Item
  {
    Item(t, LabelOf(t, today), StyleOf(t, today))
  }

  /** Completed tasks always get the muted style and never an urgency style or an overdue or
      "Today" label; an open task's style follows its urgency. */
  lemma ItemStyling(t: Task, today: int)
    ensures ItemOf(t, today).style == Muted <==> t.completed
    ensures t.completed ==> ItemOf(t, today).dateLabel == (if t.date.Day? then Formatted(t.date.day) else NoLabel)
    ensures !t.completed && t.date.Day? && t.date.day < today ==> ItemOf(t, today).style == OverdueStyle
    ensures !t.completed && t.date.Day? && t.date.day == today ==> ItemOf(t, today).style == TodayStyle
    ensures !t.completed && t.date.Day? && today < t.date.day <= today + LookAheadDays
      ==> ItemOf(t, today).style == UpcomingStyle
    ensures !t.completed && (t.date.NoDate? || t.date.day > today + LookAheadDays)
      ==> ItemOf(t, today).style == PlainStyle
  {
  }

  /** The `forEach` loop of `renderTodos`: per task it sets the local flags step by step and
      derives the label and the style; each item is `ItemOf` its task. */
  method RenderItems(list: array<Task>, today: int) returns (items: seq<Item>)
    ensures |items| == list.Length
    ensures forall k :: 0 <= k < list.Length ==> items[k] == ItemOf(list[k], today)
  {
    items := [];
    var threeDaysLater := today + LookAheadDays;
    for i := 0 to list.Length
      invariant |items| == i
      invariant forall k :: 0 <= k < i ==> items[k] == ItemOf(list[k], today)
    {
      var todo := list[i];
      var dateDisplay := NoLabel;
      var isOverdue, isToday, isUpcoming := false, false, false;
      if todo.date.Day? {
        var todoDate := todo.date.day;
        dateDisplay := Formatted(todoDate);
        if !todo.completed {
          if todoDate < today {
            isOverdue := true;
            dateDisplay := FormattedOverdue(todoDate);
          } else if todoDate == today {
            isToday := true;
            dateDisplay := TodayLabel;
          } else if todoDate > today && todoDate <= threeDaysLater {
            isUpcoming := true;
          }
        }
      }
      var style := PlainStyle;
      if !todo.completed {
        if isOverdue {
          style := OverdueStyle;
        } else if isToday {
          style := TodayStyle;
        } else if isUpcoming {
          style := UpcomingStyle;
        }
      } else {
        style := Muted;
      }
      items := items + [Item(todo, dateDisplay, style)];
    }
  }

  // ---------------------------------------------------------------------------
  // 5. Empty state and the whole view

  datatype EmptyState = ListShown | EmptyShown(message: string)

  function EmptyStateOf(count: nat, term: string): EmptyState
  {
    if count != 0 then ListShown
    else if term != "" then EmptyShown("No tasks found for \"" + term + "\"")
    else EmptyShown("No tasks found here.")
  }

  datatype View = View(items: seq<Item>, empty: EmptyState)

  function TasksOf(items: seq<Item>): (r: seq<Task>)
    ensures |r| == |items|
    ensures forall k :: 0 <= k < |items| ==> r[k] == items[k].task
  {
    if items == [] then [] else [items[0].task] + TasksOf(items[1..])
  }

  /** `view` is what `renderTodos` shows for the visible list: the visible tasks in date
      order, each classified against `today`, and the empty-state decision. */
  predicate Shows(view: View, visible: seq<Task>, term: string, today: int)
  {
    var shown := TasksOf(view.items);
    && multiset(shown) == multiset(visible)
    && DateOrdered(shown)
    && (forall k :: 0 <= k < |view.items| ==> view.items[k] == ItemOf(shown[k], today))
    && view.empty == EmptyStateOf(|view.items|, term)
  }

  /** The empty state is shown exactly when the visible list is empty, with the search
      message when a term is set and the generic one otherwise. */
  lemma ShowsEmptyState(view: View, visible: seq<Task>, term: string, today: int)
    requires Shows(view, visible, term, today)
    ensures view.empty.EmptyShown? <==> visible == []
    ensures view.empty.EmptyShown? && term != "" ==> view.empty.message == "No tasks found for \"" + term + "\""
    ensures view.empty.EmptyShown? && term == "" ==> view.empty.message == "No tasks found here."
  {
    var shown := TasksOf(view.items);
    assert |multiset(shown)| == |shown|;
    assert |multiset(visible)| == |visible|;
  }

  /** The store after a render: re-sorted in place when it is aliased, otherwise untouched. */
  predicate RenderedStore(before: seq<Task>, after: seq<Task>, view: View, filter: string, term: string, today: int)
  {
    && Shows(view, Visible(before, filter, term), term, today)
    && after == (if Aliased(filter, term) then TasksOf(view.items) else before)
  }

  /** Rendering never changes what the store holds, only possibly its order; when the
      store is aliased, it is left in date order. */
  lemma RenderKeepsContents(before: seq<Task>, after: seq<Task>, view: View, filter: string, term: string, today: int)
    requires RenderedStore(before, after, view, filter, term, today)
    ensures multiset(after) == multiset(before)
    ensures Aliased(filter, term) ==> DateOrdered(after)
  {
  }

  // ---------------------------------------------------------------------------
  // Worked examples

  /** With today = 2024-06-10 (day 19884 counted from 1970-01-01): an open task due
      2024-06-05 is overdue, due 2024-06-10 is due today, due 2024-06-12 is upcoming,
      due 2024-06-20 is not urgent, and a completed task due 2024-06-05 is muted. */
  lemma UrgencyExamples()
    ensures UrgencyOf(Task(1, "a", Day(19879), false), 19884) == Overdue
    ensures UrgencyOf(Task(1, "a", Day(19884), false), 19884) == DueToday
    ensures UrgencyOf(Task(1, "a", Day(19886), false), 19884) == Upcoming
    ensures UrgencyOf(Task(1, "a", Day(19894), false), 19884) == NotUrgent
    ensures ItemOf(Task(1, "a", Day(19879), true), 19884).style == Muted
  {
  }

  /** Searching "mi" among "Buy milk" and "Walk dog" keeps only "Buy milk". */
  lemma SearchExample()
    ensures Visible([Task(1, "Buy milk", NoDate, false), Task(2, "Walk dog", NoDate, false)], "all", "mi")
      == [Task(1, "Buy milk", NoDate, false)]
  {
    var milk := Task(1, "Buy milk", NoDate, false);
    var dog := Task(2, "Walk dog", NoDate, false);
    assert MatchesTerm("mi")(milk) by {
      MilkMatches();
    }
    assert !MatchesTerm("mi")(dog) by {
      DogDoesNotMatch();
    }
    FilterTwo(MatchesTerm("mi"), milk, dog);
  }

  lemma MilkMatches()
    ensures Contains(Lower("Buy milk"), "mi")
  {
    assert Lower("Buy milk") == "buy milk";
    assert "buy milk"[4..] == "milk";
    assert StartsWith("milk", "mi");
    assert "buy milk"[3..][1..] == "milk";
    assert "buy milk"[2..][1..] == "buy milk"[3..];
    assert "buy milk"[1..][1..] == "buy milk"[2..];
  }

  lemma DogDoesNotMatch()
    ensures !Contains(Lower("Walk dog"), "mi")
  {
    assert Lower("Walk dog") == "walk dog";
    NotContainsFirst("walk dog", "mi");
  }

  /** A string none of whose characters is the first one of `sub` does not contain `sub`. */
  lemma {:induction false} NotContainsFirst(s: string, sub: string)
    requires sub != [] && forall k :: 0 <= k < |s| ==> s[k] != sub[0]
    ensures !Contains(s, sub)
  {
    if s != [] {
      assert !StartsWith(s, sub) by {
        if |sub| <= |s| {
          assert s[..|sub|][0] == s[0];
        }
      }
      assert forall k :: 0 <= k < |s[1..]| ==> s[1..][k] == s[k + 1];
      NotContainsFirst(s[1..], sub);
    }
  }
}
