/** The task store's operations on the list value: add, toggle by id, delete by id. */
module Store {
  import opened Tasks
  import opened Seqs
  import opened Text

  /** `addTodo`: the trimmed text is rejected when empty; otherwise a new open task with
      the trimmed text, the given date and the given id is appended. */
  function Added(s: seq<Task>, input: string, date: Date, id: int): Option<seq<Task>>
  {
    var text := Trim(input);
    if text == "" then None else Some(s + [Task(id, text, date, false)])
  }

  /** Empty or whitespace-only text is rejected, and nothing else is. */
  lemma AddedRejects(s: seq<Task>, input: string, date: Date, id: int)
    ensures Added(s, input, date, id).None? <==> forall k :: 0 <= k < |input| ==> IsSpace(input[k])
  {
    TrimEmptyIff(input);
  }

  /** Accepted text grows the list by exactly one task, appended last, open, carrying the
      trimmed text (non-empty, with no white space at either end) and the given date and id;
      every earlier task is unchanged. */
  lemma AddedAppends(s: seq<Task>, input: string, date: Date, id: int)
    requires Added(s, input, date, id).Some?
    ensures var r := Added(s, input, date, id).value;
      && |r| == |s| + 1
      && r[..|s|] == s
      && r[|s|] == Task(id, Trim(input), date, false)
      && r[|s|].text != []
      && !IsSpace(r[|s|].text[0]) && !IsSpace(r[|s|].text[|r[|s|].text| - 1])
  {
    TrimIsSlice(input);
  }

  /** `todos.find(t => t.id === id)`: the index of the first task with that id. */
  function FirstIndex(s: seq<Task>, id: int): (r: Option<nat>)
    ensures r.Some? ==> r.value < |s| && s[r.value].id == id
    ensures r.Some? ==> forall k :: 0 <= k < r.value ==> s[k].id != id
    ensures r.None? <==> forall k :: 0 <= k < |s| ==> s[k].id != id
  {
    if s == [] then None
    else if s[0].id == id then Some(0)
    else match FirstIndex(s[1..], id)
      case None => None
      case Some(k) => Some(k + 1)
  }

  /** `toggleComplete`: flips `completed` on the first task with the id, if there is one. */
  function ToggleFirst(s: seq<Task>, id: int): seq<Task>
  {
    match FirstIndex(s, id)
    case None => s
    case Some(k) => s[k := s[k].(completed := !s[k].completed)]
  }

  /** Toggling inverts the flag of the first task with the id and changes nothing else:
      no other task, and no other field of that task. */
  lemma ToggleFirstSpec(s: seq<Task>, id: int)
    ensures |ToggleFirst(s, id)| == |s|
    ensures forall k :: 0 <= k < |s| ==> ToggleFirst(s, id)[k].id == s[k].id
    ensures forall k :: 0 <= k < |s| ==>
      ToggleFirst(s, id)[k] ==
        if Some(k) == FirstIndex(s, id) then s[k].(completed := !s[k].completed) else s[k]
  {
  }

  /** Which index is found depends on the ids alone. */
  lemma {:induction false} FirstIndexByIds(s: seq<Task>, u: seq<Task>, id: int)
    requires |s| == |u| && forall k :: 0 <= k < |s| ==> s[k].id == u[k].id
    ensures FirstIndex(s, id) == FirstIndex(u, id)
  {
    if s != [] && s[0].id != id {
      FirstIndexByIds(s[1..], u[1..], id);
    }
  }

  /** Toggling twice restores the list. */
  lemma ToggleTwice(s: seq<Task>, id: int)
    ensures ToggleFirst(ToggleFirst(s, id), id) == s
  {
    ToggleFirstSpec(s, id);
    FirstIndexByIds(s, ToggleFirst(s, id), id);
  }

  /** The tasks of `s` other than the one at `k`. */
  function Others(s: seq<Task>, k: nat): multiset<Task>
    requires k < |s|
  {
    multiset(s[..k]) + multiset(s[k + 1..])
  }

  /** Replacing the task at `k` takes it out of the contents and puts the new one in. */
  lemma UpdateContents(s: seq<Task>, k: nat, v: Task)
    requires k < |s|
    ensures multiset(s) == Others(s, k) + multiset{s[k]}
    ensures multiset(s[k := v]) == Others(s, k) + multiset{v}
  {
    assert s == s[..k] + [s[k]] + s[k + 1..];
    assert s[k := v] == s[..k] + [v] + s[k + 1..];
  }

  /** With unique ids, no task but the found one carries the id. */
  lemma OthersHaveOtherIds(s: seq<Task>, id: int)
    requires UniqueIds(s) && FirstIndex(s, id).Some?
    ensures forall x :: x in Others(s, FirstIndex(s, id).value) ==> x.id != id
  {
    var k := FirstIndex(s, id).value;
    forall x | x in Others(s, k) ensures x.id != id {
      if x in s[..k] {
        var i :| 0 <= i < k && s[..k][i] == x;
      } else {
        var i :| 0 <= i < |s[k + 1..]| && s[k + 1..][i] == x;
        assert s[k + 1 + i] == x;
      }
    }
  }

  /** A list with the contents of `s` holds the id exactly when `s` does. */
  lemma FirstIndexPermuted(s: seq<Task>, u: seq<Task>, id: int)
    requires multiset(u) == multiset(s)
    ensures FirstIndex(u, id).None? <==> FirstIndex(s, id).None?
  {
    if FirstIndex(s, id).None? {
      forall k | 0 <= k < |u| ensures u[k].id != id {
        assert u[k] in multiset(s);
      }
    } else {
      var k := FirstIndex(s, id).value;
      assert s[k] in multiset(u);
    }
  }

  /** After the first toggle, the only task carrying the id in any reordering is the flipped one. */
  lemma FoundIsFlipped(s: seq<Task>, u: seq<Task>, id: int, t: Task)
    requires FirstIndex(s, id).Some? && t.id == id
    requires forall x :: x in Others(s, FirstIndex(s, id).value) ==> x.id != id
    requires multiset(u) == Others(s, FirstIndex(s, id).value) + multiset{t}
    ensures FirstIndex(u, id).Some? && u[FirstIndex(u, id).value] == t
  {
    assert t in multiset(u);
    var j := FirstIndex(u, id).value;
    assert u[j] in multiset(u);
  }

  /** With unique ids, toggling an id, reordering the list in any way (as a render under
      filter "all" does) and toggling the same id again gives back the original contents:
      every task, with its flag, as often as before. */
  lemma ToggleTwicePermuted(s: seq<Task>, u: seq<Task>, id: int)
    requires UniqueIds(s)
    requires multiset(u) == multiset(ToggleFirst(s, id))
    ensures multiset(ToggleFirst(u, id)) == multiset(s)
  {
    if FirstIndex(s, id).None? {
      FirstIndexPermuted(s, u, id);
    } else {
      var k := FirstIndex(s, id).value;
      var t' := s[k].(completed := !s[k].completed);
      UpdateContents(s, k, t');
      OthersHaveOtherIds(s, id);
      FoundIsFlipped(s, u, id, t');
      var j := FirstIndex(u, id).value;
      UpdateContents(u, j, s[k]);
    }
  }

  /** An unknown id leaves the list unchanged. */
  lemma ToggleUnknown(s: seq<Task>, id: int)
    requires forall k :: 0 <= k < |s| ==> s[k].id != id
    ensures ToggleFirst(s, id) == s
  {
  }

  function OtherId(id: int): Task -> bool
  {
    (t: Task) => t.id != id
  }

  /** `todos.filter(t => t.id !== id)`. */
  function DeleteById(s: seq<Task>, id: int): seq<Task>
  {
    Filter(OtherId(id), s)
  }

  /** After a delete no task with the id is left, every other task is kept as often as before,
      and the survivors keep their relative order, so a lookup of the id finds nothing. */
  lemma DeleteSpec(s: seq<Task>, id: int)
    ensures forall k :: 0 <= k < |DeleteById(s, id)| ==> DeleteById(s, id)[k].id != id
    ensures FirstIndex(DeleteById(s, id), id).None?
    ensures forall t: Task :: t.id != id ==> multiset(DeleteById(s, id))[t] == multiset(s)[t]
    ensures Subseq(DeleteById(s, id), s)
  {
    FilterIsSubseq(OtherId(id), s);
    forall t: Task | t.id != id ensures multiset(DeleteById(s, id))[t] == multiset(s)[t] {
      FilterCount(OtherId(id), s, t);
    }
  }

  predicate UniqueIds(s: seq<Task>)
  {
    forall i, j :: 0 <= i < j < |s| ==> s[i].id != s[j].id
  }

  /** With unique ids, a delete shrinks the list by one if the id was present and not at all otherwise. */
  lemma {:induction false} DeleteSize(s: seq<Task>, id: int)
    requires UniqueIds(s)
    ensures |DeleteById(s, id)| == if FirstIndex(s, id).Some? then |s| - 1 else |s|
  {
    if s != [] {
      assert UniqueIds(s[1..]) by {
        forall i, j | 0 <= i < j < |s[1..]| ensures s[1..][i].id != s[1..][j].id {
          assert s[1..][i] == s[i + 1] && s[1..][j] == s[j + 1];
        }
      }
      if s[0].id == id {
        assert forall k :: 0 <= k < |s[1..]| ==> s[1..][k].id != id by {
          forall k | 0 <= k < |s[1..]| ensures s[1..][k].id != id {
            assert s[1..][k] == s[k + 1];
          }
        }
        FilterAll(OtherId(id), s[1..]);
      } else {
        DeleteSize(s[1..], id);
      }
    }
  }

  /** Every stored task has a non-empty text. */
  predicate NonEmptyTexts(s: seq<Task>)
  {
    forall t :: t in s ==> t.text != ""
  }

  /** An accepted add keeps every text non-empty: the new task's text is trimmed and non-empty. */
  lemma AddedKeepsTexts(s: seq<Task>, input: string, date: Date, id: int)
    requires NonEmptyTexts(s) && Added(s, input, date, id).Some?
    ensures NonEmptyTexts(Added(s, input, date, id).value)
  {
  }

  /** A toggle changes only a flag, so every text stays non-empty. */
  lemma ToggleKeepsTexts(s: seq<Task>, id: int)
    requires NonEmptyTexts(s)
    ensures NonEmptyTexts(ToggleFirst(s, id))
  {
    ToggleFirstSpec(s, id);
    forall t | t in ToggleFirst(s, id) ensures t.text != "" {
      var k :| 0 <= k < |s| && ToggleFirst(s, id)[k] == t;
      assert s[k] in s;
    }
  }

  /** A delete keeps only tasks that were there, so every text stays non-empty. */
  lemma DeleteKeepsTexts(s: seq<Task>, id: int)
    requires NonEmptyTexts(s)
    ensures NonEmptyTexts(DeleteById(s, id))
  {
    forall t | t in DeleteById(s, id) ensures t.text != "" {
      FilterMembership(OtherId(id), s, t);
    }
  }

  /** Reordering the list, as the render's sort does, keeps every text non-empty. */
  lemma PermutedKeepsTexts(s: seq<Task>, u: seq<Task>)
    requires NonEmptyTexts(s) && multiset(u) == multiset(s)
    ensures NonEmptyTexts(u)
  {
    forall t | t in u ensures t.text != "" {
      assert t in multiset(s);
    }
  }

  /** An add whose id no stored task carries keeps the ids unique. */
  lemma AddedKeepsUnique(s: seq<Task>, input: string, date: Date, id: int)
    requires UniqueIds(s) && Added(s, input, date, id).Some?
    requires forall k :: 0 <= k < |s| ==> s[k].id != id
    ensures UniqueIds(Added(s, input, date, id).value)
  {
  }

  /** A toggle changes no id, so the ids stay unique. */
  lemma ToggleKeepsUnique(s: seq<Task>, id: int)
    requires UniqueIds(s)
    ensures UniqueIds(ToggleFirst(s, id))
  {
    ToggleFirstSpec(s, id);
  }

  /** A delete keeps a subsequence, so the ids stay unique. */
  lemma {:induction false} DeleteKeepsUnique(s: seq<Task>, id: int)
    requires UniqueIds(s)
    ensures UniqueIds(DeleteById(s, id))
  {
    if s != [] {
      assert UniqueIds(s[1..]) by {
        forall i, j | 0 <= i < j < |s[1..]| ensures s[1..][i].id != s[1..][j].id {
          assert s[1..][i] == s[i + 1] && s[1..][j] == s[j + 1];
        }
      }
      DeleteKeepsUnique(s[1..], id);
      var r := DeleteById(s[1..], id);
      if s[0].id != id {
        assert DeleteById(s, id) == [s[0]] + r;
        forall k | 0 <= k < |r| ensures r[k].id != s[0].id {
          FilterMembership(OtherId(id), s[1..], r[k]);
          var i :| 0 <= i < |s[1..]| && s[1..][i] == r[k];
          assert s[i + 1] == r[k];
        }
      }
    }
  }

  /** An element occurring twice sits at two distinct positions. */
  lemma {:induction false} TwiceAtTwo(s: seq<Task>, x: Task)
    requires multiset(s)[x] >= 2
    ensures exists p, q :: 0 <= p < q < |s| && s[p] == x && s[q] == x
  {
    assert s == [s[0]] + s[1..];
    if s[0] == x {
      assert x in s[1..];
      var i :| 0 <= i < |s[1..]| && s[1..][i] == x;
      assert s[0] == x && s[i + 1] == x;
    } else {
      TwiceAtTwo(s[1..], x);
      var p, q :| 0 <= p < q < |s[1..]| && s[1..][p] == x && s[1..][q] == x;
      assert s[p + 1] == x && s[q + 1] == x;
    }
  }

  /** Two occurrences in the contents sit at two distinct positions. */
  lemma TwoPositions(s: seq<Task>, x: Task, y: Task)
    requires multiset{x, y} <= multiset(s)
    ensures exists p, q :: 0 <= p < |s| && 0 <= q < |s| && p != q && s[p] == x && s[q] == y
  {
    if x == y {
      TwiceAtTwo(s, x);
    } else {
      assert x in multiset(s) && y in multiset(s);
      var p :| 0 <= p < |s| && s[p] == x;
      var q :| 0 <= q < |s| && s[q] == y;
      assert p != q;
    }
  }

  /** Reordering the list, as the render's sort does, keeps the ids unique. */
  lemma PermutedKeepsUnique(s: seq<Task>, u: seq<Task>)
    requires UniqueIds(s) && multiset(u) == multiset(s)
    ensures UniqueIds(u)
  {
    forall i, j | 0 <= i < j < |u| ensures u[i].id != u[j].id {
      assert u == u[..i] + [u[i]] + u[i + 1..j] + [u[j]] + u[j + 1..];
      TwoPositions(s, u[i], u[j]);
      var p, q :| 0 <= p < |s| && 0 <= q < |s| && p != q && s[p] == u[i] && s[q] == u[j];
      if q < p {
        assert s[q].id != s[p].id;
      }
    }
  }
}
