/**
 * Task records, their logical identity, and the per-day list operations of
 * the task manager (add, toggle, delete).
 */
module Tasks {
  import opened Text
  import Lists

  datatype Priority = High | Normal | Low

  datatype Task = Task(id: string, text: string, completed: bool, date: string, priority: Priority)

  /** The calendar emoji of the origin tag. */
  const CalendarSign: char := '\U{1F4C5}'

  /** The separator ` (📅` starts at index `i` of `s`. */
  predicate MarkerAt(s: string, i: int) {
    0 <= i && i + 3 <= |s| && s[i] == ' ' && s[i + 1] == '(' && s[i + 2] == CalendarSign
  }

  predicate NoMarker(s: string) {
    forall i :: 0 <= i < |s| ==> !MarkerAt(s, i)
  }

  /**
   * The index of the first separator at or after `from`, or `|s|` when there
   * is none; `s.split(' (📅')[0]` is `s[..MarkerIndex(s, 0)]`.
   */
  function MarkerIndex(s: string, from: nat): (i: nat)
    requires from <= |s|
    ensures from <= i <= |s|
    ensures i == |s| || MarkerAt(s, i)
    ensures forall j :: from <= j < i ==> !MarkerAt(s, j)
    decreases |s| - from
  {
    if from == |s| || MarkerAt(s, from) then from else MarkerIndex(s, from + 1)
  }

  /** A text that can be an identity: no separator inside and nothing to trim. */
  predicate IsIdentity(s: string) {
    NoMarker(s) && Trimmed(s)
  }

  /** `getBaseText`: the identity of a task, its text before the first separator, trimmed. */
  function BaseText(text: string): (r: string)
    ensures IsIdentity(r)
    ensures TrimOf(text, 0, MarkerIndex(text, 0), r)
  {
    var m := MarkerIndex(text, 0);
    var r := TrimSlice(text, 0, m);
    assert NoMarker(r) by {
      var a := SkipLeading(text, 0, m);
      forall i | 0 <= i < |r| ensures !MarkerAt(r, i) {
        assert MarkerAt(r, i) ==> MarkerAt(text, a + i);
      }
    }
    r
  }

  /** The text of a carried copy: the identity followed by ` (📅 dd/MM)`. */
  function Tag(base: string, dayMonth: string): (r: string)
    ensures |r| == |base| + |dayMonth| + 5 && r[..|base|] == base
    ensures MarkerAt(r, |base|) && r[|r| - 1] == ')'
    ensures r[|base| + 3] == ' ' && r[|base| + 4..|r| - 1] == dayMonth
  {
    base + " (" + [CalendarSign] + " " + dayMonth + ")"
  }

  /** An identity is its own base text. */
  lemma IdentityFixpoint(k: string)
    requires IsIdentity(k)
    ensures BaseText(k) == k
  {
    assert MarkerIndex(k, 0) == |k|;
    assert k[0..|k|] == k;
  }

  /** Normalising twice is normalising once. */
  lemma BaseTextIdempotent(text: string)
    ensures BaseText(BaseText(text)) == BaseText(text)
  {
    IdentityFixpoint(BaseText(text));
  }

  /** A carried copy resolves to the identity it was made from, whatever the tag date. */
  lemma TagRoundTrip(k: string, dayMonth: string)
    requires IsIdentity(k)
    ensures BaseText(Tag(k, dayMonth)) == k
  {
    var s := Tag(k, dayMonth);
    assert s[..|k|] == k;
    assert MarkerAt(s, |k|);
    forall i | 0 <= i < |k|
      ensures !MarkerAt(s, i)
    {
      if i + 3 <= |k| {
        assert !MarkerAt(k, i);
      }
    }
    assert MarkerIndex(s, 0) == |k|;
    assert s[0..|k|] == k;
  }

  /** The key the list operations select on. */
  function IdOf(t: Task): string {
    t.id
  }

  /**
   * `addTask`: a text that is whitespace only is ignored; any other text is
   * appended as a new incomplete task of the viewed day.
   */
  function AddTask(tasks: seq<Task>, text: string, priority: Priority, dateKey: string, id: string): (r: seq<Task>)
    ensures (forall i :: 0 <= i < |text| ==> IsWhitespace(text[i])) ==> r == tasks
    ensures !(forall i :: 0 <= i < |text| ==> IsWhitespace(text[i])) ==>
      |r| == |tasks| + 1 && r[..|tasks|] == tasks && r[|tasks|] == Task(id, text, false, dateKey, priority)
  {
    if |Trim(text)| == 0 then tasks
    else tasks + [Task(id, text, false, dateKey, priority)]
  }

  /** `toggleTask`: flips `completed` on the tasks with that id and changes nothing else. */
  function ToggleTask(tasks: seq<Task>, id: string): (r: seq<Task>)
    ensures |r| == |tasks|
    ensures forall i :: 0 <= i < |r| ==>
      && r[i].id == tasks[i].id && r[i].text == tasks[i].text
      && r[i].date == tasks[i].date && r[i].priority == tasks[i].priority
      && (r[i].completed <==> (tasks[i].completed != (tasks[i].id == id)))
  {
    seq(|tasks|, i requires 0 <= i < |tasks| =>
      if tasks[i].id == id then tasks[i].(completed := !tasks[i].completed) else tasks[i])
  }

  /** `deleteTask`: drops exactly the tasks with that id. */
  function DeleteTask(tasks: seq<Task>, id: string): (r: seq<Task>)
    ensures forall t :: t in r ==> t in tasks && t.id != id
    ensures (forall i :: 0 <= i < |tasks| ==> tasks[i].id != id) ==> r == tasks
  {
    Lists.Remove(tasks, IdOf, id)
  }

  /** Toggling the same id twice restores the list. */
  lemma ToggleTwice(tasks: seq<Task>, id: string)
    ensures ToggleTask(ToggleTask(tasks, id), id) == tasks
  {
  }

  /** Deleting a task just added with a fresh id restores the list. */
  lemma DeleteUndoesAdd(tasks: seq<Task>, text: string, priority: Priority, dateKey: string, id: string)
    requires forall t :: t in tasks ==> t.id != id
    ensures DeleteTask(AddTask(tasks, text, priority, dateKey, id), id) == tasks
  {
    var t := Task(id, text, false, dateKey, priority);
    if |Trim(text)| == 0 {
      assert AddTask(tasks, text, priority, dateKey, id) == tasks;
    } else {
      assert AddTask(tasks, text, priority, dateKey, id) == tasks + [t];
      Lists.RemoveAppend(tasks, [t], IdOf, id);
      assert Lists.Remove([t], IdOf, id) == [];
      assert Lists.Remove(tasks, IdOf, id) == DeleteTask(tasks, id) == tasks;
    }
  }

  /** Deleting keeps every other task, in order, and deleting twice is deleting once. */
  lemma DeleteTaskKeepsOthers(tasks: seq<Task>, id: string, t: Task)
    ensures multiset(DeleteTask(tasks, id))[t] == if t.id == id then 0 else multiset(tasks)[t]
    ensures DeleteTask(DeleteTask(tasks, id), id) == DeleteTask(tasks, id)
  {
    Lists.RemoveCount(tasks, IdOf, id, t);
    Lists.RemoveIdempotent(tasks, IdOf, id);
  }
}
