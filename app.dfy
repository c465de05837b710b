/** The controller: the global `todos`, `currentFilter` and `searchText`, the handlers
    that change them, and `renderTodos`, which every handler runs afterwards. */
module App {
  import opened Tasks
  import opened Seqs
  import opened Text
  import opened Pipeline
  import opened Store

  /** A fresh array holding `s`: the new array that `filter` or `[]` produces. */
  method NewArray(s: seq<Task>) returns (a: array<Task>)
    ensures fresh(a) && a[..] == s
  {
    a := new Task[|s|](k requires 0 <= k < |s| => s[k]);
  }

  class TodoApp {
    var todos: array<Task>
    var currentFilter: string
    var searchText: string

    /** Start-up with the list read from storage (the empty list when nothing was stored). */
    constructor (stored: seq<Task>)
      ensures fresh(todos) && todos[..] == stored
      ensures currentFilter == "all" && searchText == ""
      ensures Valid() <==> NonEmptyTexts(stored)
    {
      var a := NewArray(stored);
      todos := a;
      currentFilter := "all";
      searchText := "";
    }

    /** The store's invariant: no stored task has an empty text. */
    ghost predicate Valid()
      reads this, todos
    {
      NonEmptyTexts(todos[..])
    }

    /** `view` is what a render of the list `before` shows, and the store now holds
        what that render leaves in it. */
    ghost predicate Rendered(before: seq<Task>, view: View, today: int)
      reads this, todos
    {
      RenderedStore(before, todos[..], view, currentFilter, searchText, today)
    }

    /** `renderTodos`. When no filter and no search apply, `filteredTodos` is `todos` itself,
        so the sort reorders the store in place; otherwise it sorts a new array. */
    method Render(today: int) returns (view: View)
      requires Valid()
      modifies todos
      ensures Valid()
      ensures old(UniqueIds(todos[..])) ==> UniqueIds(todos[..])
      ensures Rendered(old(todos[..]), view, today)
      ensures multiset(todos[..]) == multiset(old(todos[..]))
    {
      ghost var before := todos[..];
      var filteredTodos := todos;
      if currentFilter == "pending" {
        filteredTodos := NewArray(Filter(IsPending, todos[..]));
      } else if currentFilter == "completed" {
        filteredTodos := NewArray(Filter(IsDone, todos[..]));
      }
      if searchText != "" {
        filteredTodos := NewArray(Filter(MatchesTerm(searchText), filteredTodos[..]));
      }
      assert filteredTodos[..] == Visible(before, currentFilter, searchText);
      assert Aliased(currentFilter, searchText) <==> filteredTodos == todos;
      SortByDate(filteredTodos);
      var items := RenderItems(filteredTodos, today);
      view := View(items, EmptyStateOf(filteredTodos.Length, searchText));
      assert TasksOf(items) == filteredTodos[..];
      RenderKeepsContents(before, todos[..], view, currentFilter, searchText, today);
      PermutedKeepsTexts(before, todos[..]);
      if UniqueIds(before) {
        PermutedKeepsUnique(before, todos[..]);
      }
    }

    /** `addTodo`: whitespace-only text is rejected with no change and no render; otherwise
        the new task is appended and the list is rendered. */
    method AddTodo(input: string, date: Date, id: int, today: int) returns (view: Option<View>)
      requires Valid()
      modifies this
      ensures currentFilter == old(currentFilter) && searchText == old(searchText)
      ensures view.None? <==> Added(old(todos[..]), input, date, id).None?
      ensures view.None? ==> todos == old(todos) && todos[..] == old(todos[..])
      ensures view.Some? ==> fresh(todos) && Rendered(Added(old(todos[..]), input, date, id).value, view.value, today)
      ensures Valid()
      ensures old(UniqueIds(todos[..])) && (forall t :: t in old(todos[..]) ==> t.id != id)
        ==> UniqueIds(todos[..])
    {
      var text := Trim(input);
      if text == "" {
        return None;
      }
      AddedKeepsTexts(todos[..], input, date, id);
      if UniqueIds(todos[..]) && forall t :: t in todos[..] ==> t.id != id {
        AddedKeepsUnique(todos[..], input, date, id);
      }
      todos := NewArray(todos[..] + [Task(id, text, date, false)]);
      var v := Render(today);
      view := Some(v);
    }

    /** `toggleComplete`: flips the first task with the id in place and renders; an unknown id
        does nothing. */
    method ToggleComplete(id: int, today: int) returns (view: Option<View>)
      requires Valid()
      modifies todos
      ensures view.None? <==> FirstIndex(old(todos[..]), id).None?
      ensures view.None? ==> todos[..] == old(todos[..])
      ensures view.Some? ==> Rendered(ToggleFirst(old(todos[..]), id), view.value, today)
      ensures Valid()
      ensures old(UniqueIds(todos[..])) ==> UniqueIds(todos[..])
    {
      var found := FirstIndex(todos[..], id);
      if found.None? {
        return None;
      }
      var k := found.value;
      ToggleKeepsTexts(todos[..], id);
      if UniqueIds(todos[..]) {
        ToggleKeepsUnique(todos[..], id);
      }
      todos[k] := todos[k].(completed := !todos[k].completed);
      var v := Render(today);
      view := Some(v);
    }

    /** `deleteTodo`: when confirmed, keeps the tasks with other ids and renders; when declined,
        does nothing. */
    method DeleteTodo(id: int, confirmed: bool, today: int) returns (view: Option<View>)
      requires Valid()
      modifies this
      ensures currentFilter == old(currentFilter) && searchText == old(searchText)
      ensures view.Some? <==> confirmed
      ensures !confirmed ==> todos == old(todos) && todos[..] == old(todos[..])
      ensures confirmed ==> fresh(todos) && Rendered(DeleteById(old(todos[..]), id), view.value, today)
      ensures Valid()
      ensures old(UniqueIds(todos[..])) ==> UniqueIds(todos[..])
    {
      if !confirmed {
        return None;
      }
      DeleteKeepsTexts(todos[..], id);
      if UniqueIds(todos[..]) {
        DeleteKeepsUnique(todos[..], id);
      }
      todos := NewArray(DeleteById(todos[..], id));
      var v := Render(today);
      view := Some(v);
    }

    /** `clearAll`: when confirmed, empties the list and renders; when declined, does nothing. */
    method ClearAll(confirmed: bool, today: int) returns (view: Option<View>)
      requires Valid()
      modifies this
      ensures currentFilter == old(currentFilter) && searchText == old(searchText)
      ensures view.Some? <==> confirmed
      ensures !confirmed ==> todos == old(todos) && todos[..] == old(todos[..])
      ensures confirmed ==> todos[..] == [] && Rendered([], view.value, today)
      ensures Valid()
      ensures old(UniqueIds(todos[..])) ==> UniqueIds(todos[..])
    {
      if !confirmed {
        return None;
      }
      todos := NewArray([]);
      var v := Render(today);
      view := Some(v);
    }

    /** A click on a filter button: stores its `data-filter` value and renders. */
    method SetFilter(filter: string, today: int) returns (view: View)
      requires Valid()
      modifies this, todos
      ensures currentFilter == filter && searchText == old(searchText) && todos == old(todos)
      ensures Rendered(old(todos[..]), view, today)
      ensures Valid()
      ensures old(UniqueIds(todos[..])) ==> UniqueIds(todos[..])
    {
      currentFilter := filter;
      view := Render(today);
    }

    /** Typing in the search field: stores the lowercased input and renders. */
    method SetSearch(input: string, today: int) returns (view: View)
      requires Valid()
      modifies this, todos
      ensures searchText == Lower(input) && currentFilter == old(currentFilter) && todos == old(todos)
      ensures Rendered(old(todos[..]), view, today)
      ensures Valid()
      ensures old(UniqueIds(todos[..])) ==> UniqueIds(todos[..])
    {
      searchText := Lower(input);
      view := Render(today);
    }
  }

  /** Two clicks on the same task with nothing between them but their own renders (each
      render's filter and search are parameters). If the first render left the store alone,
      the second click finds the same task, so the contents come back, and the very list
      does too when the second render also leaves the store alone. If the first render
      re-sorted the store, the contents still come back as long as the ids are unique. */
  lemma ToggleTwiceRendered(s0: seq<Task>, s1: seq<Task>, s2: seq<Task>, id: int,
                            filter1: string, term1: string, view1: View, today1: int,
                            filter2: string, term2: string, view2: View, today2: int)
    requires RenderedStore(ToggleFirst(s0, id), s1, view1, filter1, term1, today1)
    requires RenderedStore(ToggleFirst(s1, id), s2, view2, filter2, term2, today2)
    ensures !Aliased(filter1, term1) && !Aliased(filter2, term2) ==> s2 == s0
    ensures !Aliased(filter1, term1) ==> multiset(s2) == multiset(s0)
    ensures UniqueIds(s0) ==> multiset(s2) == multiset(s0)
  {
    RenderKeepsContents(ToggleFirst(s0, id), s1, view1, filter1, term1, today1);
    RenderKeepsContents(ToggleFirst(s1, id), s2, view2, filter2, term2, today2);
    ToggleTwice(s0, id);
    if UniqueIds(s0) {
      ToggleTwicePermuted(s0, s1, id);
    }
  }

  /** Two clicks on the same task with a filter click or a keystroke in the search field
      between them, which runs a render of its own. With unique ids the contents come back;
      when none of the three renders touches the store, the very list comes back. */
  lemma ToggleTwiceReconfigured(s0: seq<Task>, s1: seq<Task>, s1': seq<Task>, s2: seq<Task>, id: int,
                                filter1: string, term1: string, view1: View, today1: int,
                                filterM: string, termM: string, viewM: View, todayM: int,
                                filter2: string, term2: string, view2: View, today2: int)
    requires RenderedStore(ToggleFirst(s0, id), s1, view1, filter1, term1, today1)
    requires RenderedStore(s1, s1', viewM, filterM, termM, todayM)
    requires RenderedStore(ToggleFirst(s1', id), s2, view2, filter2, term2, today2)
    ensures !Aliased(filter1, term1) && !Aliased(filterM, termM) && !Aliased(filter2, term2) ==> s2 == s0
    ensures UniqueIds(s0) ==> multiset(s2) == multiset(s0)
  {
    RenderKeepsContents(ToggleFirst(s0, id), s1, view1, filter1, term1, today1);
    RenderKeepsContents(s1, s1', viewM, filterM, termM, todayM);
    RenderKeepsContents(ToggleFirst(s1', id), s2, view2, filter2, term2, today2);
    ToggleTwice(s0, id);
    if UniqueIds(s0) {
      ToggleTwicePermuted(s0, s1', id);
    }
  }

  /** A date-ordered list holding one undated and one dated task has the dated one first. */
  lemma DatedFirst(s: seq<Task>, undated: Task, dated: Task)
    requires undated.date.NoDate? && dated.date.Day?
    requires multiset(s) == multiset([undated, dated]) && DateOrdered(s)
    ensures s == [dated, undated]
  {
    assert |s| == |multiset(s)| == 2;
    assert s == [s[0], s[1]];
    assert s[0] != undated;
  }

  /** Toggling id 1 in a two-task list whose tasks both carry id 1 flips the first task only. */
  lemma RepeatedIdToggles(a: Task, b: Task)
    requires a.id == 1 && b.id == 1
    ensures ToggleFirst([a, b], 1) == [a.(completed := !a.completed), b]
  {
    assert FirstIndex([a, b], 1) == Some(0);
  }

  /** A render that is not aliased leaves the store as it was. */
  lemma UnaliasedRenderKeepsStore(before: seq<Task>, after: seq<Task>, view: View,
                                  filter: string, term: string, today: int)
    requires RenderedStore(before, after, view, filter, term, today) && !Aliased(filter, term)
    ensures after == before
  {
  }

  /** A list with the contents of two completed tasks holds two tasks, all completed. */
  lemma BothCompleted(s: seq<Task>, x: Task, y: Task)
    requires x.completed && y.completed && multiset(s) == multiset([x, y])
    ensures |s| == 2 && forall t :: t in s ==> t.completed
  {
    assert |s| == |multiset(s)|;
    assert forall t :: t in s ==> t in multiset([x, y]);
  }

  /** With a repeated id the round trip can fail. An undated and a dated task share id 1 and
      the store holds them as added under filter "pending" (nothing re-sorts it there). The
      first click, under "pending", flips the undated one and its render leaves the store
      alone. A click on the "all" filter then renders with the store aliased, which moves the
      dated task to the front, so the second click flips that one: both tasks end up
      completed. */
  lemma ToggleTwiceRepeatedId(s1: seq<Task>, s1': seq<Task>, s2: seq<Task>,
                              view1: View, today1: int, viewM: View, todayM: int,
                              view2: View, today2: int)
    requires RenderedStore(ToggleFirst([Task(1, "a", NoDate, false), Task(1, "b", Day(5), false)], 1),
                           s1, view1, "pending", "", today1)
    requires RenderedStore(s1, s1', viewM, "all", "", todayM)
    requires RenderedStore(ToggleFirst(s1', 1), s2, view2, "all", "", today2)
    ensures |s2| == 2 && forall t :: t in s2 ==> t.completed
    ensures multiset(s2) != multiset([Task(1, "a", NoDate, false), Task(1, "b", Day(5), false)])
  {
    var a := Task(1, "a", NoDate, false);
    var b := Task(1, "b", Day(5), false);
    var a' := a.(completed := true);
    var b' := b.(completed := true);
    RepeatedIdToggles(a, b);
    UnaliasedRenderKeepsStore([a', b], s1, view1, "pending", "", today1);
    RenderKeepsContents([a', b], s1', viewM, "all", "", todayM);
    DatedFirst(s1', a', b);
    RepeatedIdToggles(b, a');
    RenderKeepsContents([b', a'], s2, view2, "all", "", today2);
    BothCompleted(s2, b', a');
    assert a in multiset([a, b]);
  }
}
