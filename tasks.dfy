/** The task record of the to-do list and its due date. */
module Tasks {

  datatype Option<T> = None | Some(value: T)

  /** A due date as a calendar day number; `NoDate` is the empty date field. */
  datatype Date = NoDate | Day(day: int)

  /** One entry of the list: `{id, text, date, completed}`. */
  datatype Task = Task(id: int, text: string, date: Date, completed: bool)

  /** The display order on dates: every date precedes `NoDate`, dates ascend. */
  predicate DateLe(a: Date, b: Date)
  {
    b.NoDate? || (a.Day? && a.day <= b.day)
  }

  /** Dated tasks first, in non-decreasing date order, undated tasks last. */
  predicate DateOrdered(s: seq<Task>)
  {
    forall i, j :: 0 <= i < j < |s| ==> DateLe(s[i].date, s[j].date)
  }

  /** `DateOrdered` says exactly that no undated task precedes a dated one
      and that dated tasks appear in non-decreasing date order. */
  lemma DateOrderedMeans(s: seq<Task>)
    ensures DateOrdered(s) <==>
      (forall i, j :: 0 <= i < j < |s| && s[j].date.Day? ==>
         s[i].date.Day? && s[i].date.day <= s[j].date.day)
  {
  }
}
