/**
 * The task store and the imperative form of `synchronizeHistory`: the scan
 * fills the origin and latest maps in nested loops, the carry-over loop
 * pushes the synthesized records, and the merge is written back to the
 * viewed partition.
 */
module TaskManager {
  import opened Wrappers
  import opened Text
  import opened DateKeys
  import opened Tasks
  import opened History
  import opened Sync

  /**
   * The scan: every partition in enumeration order, every record in list
   * order, keeping the earliest day and the latest sighting per identity; a
   * partition that does not parse ends the pass.
   */
  method ResolveHistory(store: Store, order: seq<DateKey>) returns (r: Option<Index>)
    requires forall k :: k in order ==> k in store
    ensures r == Resolve(store, order)
  {
    var origins: map<string, DateKey> := map[];
    var latest: map<string, Sighting> := map[];
    var idents: seq<string> := [];
    var n := 0;
    while n < |order|
      invariant 0 <= n <= |order|
      invariant Resolve(store, order[..n]) == Some(Index(origins, latest, idents))
    {
      var key := order[n];
      assert order[..n + 1][..n] == order[..n];
      match store[key] {
        case Corrupt =>
          ResolveAborts(store, order);
          return None;
        case Blank =>
        case Stored(ts) =>
          origins, latest, idents := ScanPartition(origins, latest, idents, key, ts);
      }
      n := n + 1;
    }
    assert order[..n] == order;
    r := Some(Index(origins, latest, idents));
  }

  /** The inner loop of the scan: the records of the partition of day `key`, in order. */
  method ScanPartition(origins0: map<string, DateKey>, latest0: map<string, Sighting>, idents0: seq<string>,
                       key: DateKey, ts: seq<Task>)
    returns (origins: map<string, DateKey>, latest: map<string, Sighting>, idents: seq<string>)
    ensures Index(origins, latest, idents) == NotePartition(Index(origins0, latest0, idents0), key, ts)
  {
    origins, latest, idents := origins0, latest0, idents0;
    ghost var h0 := Index(origins0, latest0, idents0);
    var i := 0;
    while i < |ts|
      invariant 0 <= i <= |ts|
      invariant NotePartition(h0, key, ts[..i]) == Index(origins, latest, idents)
    {
      var t := ts[i];
      ghost var before := Index(origins, latest, idents);
      var base := BaseText(t.text);
      if base !in origins || Before(key, origins[base]) {
        origins := origins[base := key];
      }
      if base !in latest {
        idents := idents + [base];
      }
      if base !in latest || Before(latest[base].date, key) {
        latest := latest[base := Sighting(key, t)];
      }
      assert Index(origins, latest, idents) == Note(before, key, t);
      assert ts[..i + 1][..i] == ts[..i] && ts[..i + 1][i] == t;
      assert NotePartition(h0, key, ts[..i + 1]) == Note(before, key, t);
      i := i + 1;
    }
    assert ts[..i] == ts;
  }

  /**
   * The carry-over loop over the latest map in insertion order, pushing one
   * record per identity that meets the condition, each with the next fresh id.
   */
  method CollectCarryOvers(h: Index, viewed: DateKey, present: set<string>, mint: nat -> string) returns (added: seq<Task>)
    requires forall b :: b in h.idents ==> b in h.latest && b in h.origins
    ensures added == Carried(h, viewed, present, h.idents, mint)
  {
    added := [];
    for n := 0 to |h.idents|
      invariant added == Carried(h, viewed, present, h.idents[..n], mint)
    {
      var base := h.idents[n];
      var info := h.latest[base];
      CarriedStep(h, viewed, present, h.idents, n, mint);
      if Before(info.date, viewed) && !info.task.completed {
        if base !in present {
          var display := Tag(base, DayMonth(h.origins[base]));
          added := added + [info.task.(id := mint(|added|), date := viewed, completed := false, text := display)];
        }
      }
    }
    assert h.idents[..|h.idents|] == h.idents;
  }

  /** The persistent task store: one slot per day key. */
  class TaskStore {
    var partitions: Store

    constructor (initial: Store)
      ensures partitions == initial
    {
      partitions := initial;
    }

    /** The tasks of one day as the view reads them. */
    function DayTasks(day: DateKey): seq<Task>
      reads this
    {
      CurrentTasks(partitions, day)
    }

    /**
     * `synchronizeHistory` for the viewed day, with the store's keys
     * enumerated in `order` and fresh ids drawn from `mint`.
     */
    method SynchronizeHistory(viewed: DateKey, order: seq<DateKey>, mint: nat -> string)
      requires KeyOrder(partitions, order)
      modifies this
      ensures partitions == Synchronized(old(partitions), order, viewed, mint)
    {
      assert forall k :: k in order ==> k in partitions;
      SynchronizedByAdded(partitions, order, viewed, mint);
      var r := ResolveHistory(partitions, order);
      if r.None? {
        return;
      }
      var h := r.value;
      ResolveWellFormed(partitions, order);
      var current := if viewed in partitions && partitions[viewed].Stored? then partitions[viewed].tasks else [];
      var present := Bases(current);
      var added := CollectCarryOvers(h, viewed, present, mint);
      assert added == Added(partitions, order, viewed, mint);
      if |added| > 0 {
        partitions := partitions[viewed := Stored(current + added)];
      }
    }

    /** `addTask` on day `day`: a blank text writes nothing; otherwise the day's list gains the new task. */
    method AddTask(day: DateKey, text: string, priority: Priority, id: string)
      modifies this
      ensures |Trim(text)| == 0 ==> partitions == old(partitions)
      ensures |Trim(text)| != 0 ==>
        partitions == old(partitions)[day := Stored(Tasks.AddTask(old(DayTasks(day)), text, priority, day, id))]
    {
      if |Trim(text)| == 0 {
        return;
      }
      partitions := partitions[day := Stored(Tasks.AddTask(DayTasks(day), text, priority, day, id))];
    }

    /** `toggleTask` on day `day`. */
    method ToggleTask(day: DateKey, id: string)
      modifies this
      ensures partitions == old(partitions)[day := Stored(Tasks.ToggleTask(old(DayTasks(day)), id))]
    {
      partitions := partitions[day := Stored(Tasks.ToggleTask(DayTasks(day), id))];
    }

    /** `deleteTask` on day `day`. */
    method DeleteTask(day: DateKey, id: string)
      modifies this
      ensures partitions == old(partitions)[day := Stored(Tasks.DeleteTask(old(DayTasks(day)), id))]
    {
      partitions := partitions[day := Stored(Tasks.DeleteTask(DayTasks(day), id))];
    }
  }
}
