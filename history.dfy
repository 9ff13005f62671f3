/**
 * The history scan of `synchronizeHistory`: every partition of the task store
 * is read and each identity's origin day (earliest partition holding it) and
 * latest sighting (latest partition holding it, with the record found there)
 * are collected.
 */
module History {
  import opened Wrappers
  import opened DateKeys
  import opened Tasks

  /**
   * The raw value stored under one day's key: an empty string (skipped by the
   * scan), a value that does not parse as a task list, or a task list.
   */
  datatype Slot = Blank | Corrupt | Stored(tasks: seq<Task>)

  /** The task store: one slot per day key. */
  type Store = map<DateKey, Slot>

  /** A record seen in the partition of day `date` (the `taskLatestState` value). */
  datatype Sighting = Sighting(date: DateKey, task: Task)

  /**
   * The two maps built by the scan, keyed by identity; `idents` lists the
   * identities in the order they entered `latest` (a JavaScript Map's
   * iteration order).
   */
  datatype Index = Index(origins: map<string, DateKey>, latest: map<string, Sighting>, idents: seq<string>)

  /** The identities present in a list of tasks (`currentBaseSet`). */
  function Bases(ts: seq<Task>): set<string> {
    set t | t in ts :: BaseText(t.text)
  }

  /** Day `k` has a stored partition with a record of identity `b`. */
  predicate Holds(store: Store, k: DateKey, b: string) {
    k in store && store[k].Stored? && b in Bases(store[k].tasks)
  }

  /** Position of the first record of identity `b` in `ts` at or after `from`; `|ts|` when there is none. */
  function FirstIndex(ts: seq<Task>, b: string, from: nat := 0): (i: nat)
    requires from <= |ts|
    ensures from <= i <= |ts|
    ensures i < |ts| ==> BaseText(ts[i].text) == b
    ensures forall j :: from <= j < i ==> BaseText(ts[j].text) != b
    decreases |ts| - from
  {
    if from == |ts| || BaseText(ts[from].text) == b then from else FirstIndex(ts, b, from + 1)
  }

  /** A list holds identity `b` exactly when its first record of `b` exists. */
  lemma FirstIndexFound(ts: seq<Task>, b: string)
    ensures b in Bases(ts) <==> FirstIndex(ts, b) < |ts|
  {
    if b in Bases(ts) {
      var t :| t in ts && BaseText(t.text) == b;
      var j :| 0 <= j < |ts| && ts[j] == t;
    }
  }

  /** The identity keys agree, `idents` lists them once each, and each is a normalised text. */
  ghost predicate WellFormed(h: Index) {
    && (forall b :: b in h.latest <==> b in h.origins)
    && (forall b :: b in h.latest <==> b in h.idents)
    && (forall i, j :: 0 <= i < j < |h.idents| ==> h.idents[i] != h.idents[j])
    && (forall i :: 0 <= i < |h.idents| ==> IsIdentity(h.idents[i]))
  }

  const NoHistory := Index(map[], map[], [])

  /** The loop body of the scan for one record `t` of day `d`. */
  function Note(h: Index, d: DateKey, t: Task): (r: Index)
    ensures BaseText(t.text) in r.origins && BaseText(t.text) in r.latest
    ensures forall b :: b in h.latest ==> b in r.latest
  {
    var b := BaseText(t.text);
    Index(
      if b !in h.origins || Before(d, h.origins[b]) then h.origins[b := d] else h.origins,
      if b !in h.latest || Before(h.latest[b].date, d) then h.latest[b := Sighting(d, t)] else h.latest,
      if b in h.latest then h.idents else h.idents + [b])
  }

  /** The scan of one partition, record by record. */
  function NotePartition(h: Index, d: DateKey, ts: seq<Task>): (r: Index)
    ensures forall b :: b in h.latest ==> b in r.latest
    decreases |ts|
  {
    if |ts| == 0 then h else Note(NotePartition(h, d, ts[..|ts| - 1]), d, ts[|ts| - 1])
  }

  /**
   * The scan of the partitions in enumeration order `keys`; `None` when a
   * partition does not parse, which throws out of the whole pass.
   */
  function Resolve(store: Store, keys: seq<DateKey>): (r: Option<Index>)
    requires forall k :: k in keys ==> k in store
    ensures r.Some? ==> forall k :: k in keys ==> !store[k].Corrupt?
  {
    if |keys| == 0 then Some(NoHistory)
    else
      match Resolve(store, keys[..|keys| - 1])
      case None => None
      case Some(h) =>
        var k := keys[|keys| - 1];
        match store[k]
        case Corrupt => None
        case Blank => Some(h)
        case Stored(ts) => Some(NotePartition(h, k, ts))
  }

  /** `keys` enumerates each key of the store exactly once. */
  ghost predicate KeyOrder(store: Store, keys: seq<DateKey>) {
    && (forall i, j :: 0 <= i < j < |keys| ==> keys[i] != keys[j])
    && (forall k :: k in store <==> k in keys)
  }

  /** `d` is the earliest of `keys` whose partition holds identity `b`. */
  ghost predicate IsOriginAmong(store: Store, keys: seq<DateKey>, b: string, d: DateKey) {
    d in keys && Holds(store, d, b) && forall k :: k in keys && Holds(store, k, b) ==> !Before(k, d)
  }

  /**
   * `s` is the latest of `keys` whose partition holds `b`, with the first
   * record of `b` in that partition.
   */
  ghost predicate IsLatestAmong(store: Store, keys: seq<DateKey>, b: string, s: Sighting) {
    && s.date in keys && Holds(store, s.date, b)
    && (forall k :: k in keys && Holds(store, k, b) ==> !Before(s.date, k))
    && (FirstIndexFound(store[s.date].tasks, b);
        s.task == store[s.date].tasks[FirstIndex(store[s.date].tasks, b)])
  }

  lemma NoteWellFormed(h: Index, d: DateKey, t: Task)
    requires WellFormed(h)
    ensures WellFormed(Note(h, d, t))
  {
    var b := BaseText(t.text);
    var h' := Note(h, d, t);
    if b !in h.latest {
      assert h'.idents == h.idents + [b];
      forall i, j | 0 <= i < j < |h'.idents|
        ensures h'.idents[i] != h'.idents[j]
      {
        if j == |h.idents| {
          assert h.idents[i] in h.idents;
        }
      }
    }
  }

  lemma {:induction false} NotePartitionWellFormed(h: Index, d: DateKey, ts: seq<Task>)
    requires WellFormed(h)
    ensures WellFormed(NotePartition(h, d, ts))
    decreases |ts|
  {
    if |ts| > 0 {
      NotePartitionWellFormed(h, d, ts[..|ts| - 1]);
      NoteWellFormed(NotePartition(h, d, ts[..|ts| - 1]), d, ts[|ts| - 1]);
    }
  }

  lemma BasesSnoc(ts: seq<Task>, t: Task)
    ensures Bases(ts + [t]) == Bases(ts) + {BaseText(t.text)}
  {
    assert forall x :: x in ts + [t] <==> x in ts || x == t;
  }

  /** The earlier of day `d` and the recorded origin of `b`. */
  function EarlierOrigin(h: Index, b: string, d: DateKey): DateKey {
    if b !in h.origins || Before(d, h.origins[b]) then d else h.origins[b]
  }

  /** Sighting `s` unless the recorded latest sighting of `b` is on or after its day. */
  function LaterSighting(h: Index, b: string, s: Sighting): Sighting {
    if b !in h.latest || Before(h.latest[b].date, s.date) then s else h.latest[b]
  }

  /** What scanning one record does to the entries of identity `b`. */
  lemma NoteAt(h: Index, d: DateKey, t: Task, b: string)
    requires WellFormed(h)
    ensures var h' := Note(h, d, t);
      if BaseText(t.text) == b then
        && b in h'.latest && b in h'.origins
        && h'.origins[b] == EarlierOrigin(h, b, d)
        && h'.latest[b] == LaterSighting(h, b, Sighting(d, t))
      else
        && (b in h'.latest <==> b in h.latest)
        && (b in h.latest ==> b in h'.origins && h'.latest[b] == h.latest[b] && h'.origins[b] == h.origins[b])
  {
  }

  /** The effect of scanning a whole partition on identity `b`, as `NotePartitionAt` states it. */
  ghost predicate PartitionEffect(h: Index, d: DateKey, ts: seq<Task>, b: string) {
    var h' := NotePartition(h, d, ts);
    FirstIndexFound(ts, b);
    if b in Bases(ts) then
      && b in h'.latest && b in h'.origins
      && h'.origins[b] == EarlierOrigin(h, b, d)
      && h'.latest[b] == LaterSighting(h, b, Sighting(d, ts[FirstIndex(ts, b)]))
    else
      && (b in h'.latest <==> b in h.latest)
      && (b in h.latest ==> b in h.origins && b in h'.origins && h'.latest[b] == h.latest[b] && h'.origins[b] == h.origins[b])
  }

  /**
   * What scanning one partition does to the entries of identity `b`: when the
   * partition holds `b`, the origin moves to `d` if `d` is earlier, and the
   * latest sighting becomes the first record of `b` in the partition if `d`
   * is later; otherwise nothing about `b` changes.
   */
  lemma {:induction false} NotePartitionAt(h: Index, d: DateKey, ts: seq<Task>, b: string)
    requires WellFormed(h)
    ensures PartitionEffect(h, d, ts, b)
    decreases |ts|, 1
  {
    if |ts| > 0 {
      var front, t := ts[..|ts| - 1], ts[|ts| - 1];
      if b in Bases(front) {
        NoteAgain(h, d, ts, b);
      } else if BaseText(t.text) == b {
        NoteFirst(h, d, ts, b);
      } else {
        NoteOther(h, d, ts, b);
      }
    }
  }

  /** The last record of the partition has identity `b`, already met earlier in it. */
  lemma {:induction false} NoteAgain(h: Index, d: DateKey, ts: seq<Task>, b: string)
    requires WellFormed(h) && |ts| > 0 && b in Bases(ts[..|ts| - 1])
    ensures PartitionEffect(h, d, ts, b)
    decreases |ts|, 0
  {
    var front, t := ts[..|ts| - 1], ts[|ts| - 1];
    assert ts == front + [t];
    NotePartitionAt(h, d, front, b);
    NotePartitionWellFormed(h, d, front);
    var h1 := NotePartition(h, d, front);
    assert NotePartition(h, d, ts) == Note(h1, d, t);
    NoteAt(h1, d, t, b);
    BasesSnoc(front, t);
    FirstIndexSnoc(front, t, b);
    if BaseText(t.text) == b {
      BeforeIrreflexive(d);
      assert EarlierOrigin(h1, b, d) == EarlierOrigin(h, b, d);
      assert LaterSighting(h1, b, Sighting(d, t)) == h1.latest[b];
    }
  }

  /** Appending a record does not move the first record of an identity already present. */
  lemma FirstIndexSnoc(front: seq<Task>, t: Task, b: string)
    requires b in Bases(front)
    ensures FirstIndex(front + [t], b) == FirstIndex(front, b)
  {
    FirstIndexFound(front, b);
    var ts, i := front + [t], FirstIndex(front, b);
    assert ts[i] == front[i];
    forall j | 0 <= j < i ensures BaseText(ts[j].text) != b {
      assert ts[j] == front[j];
    }
    FirstIndexUnique(ts, b, i);
  }

  /** The first record of `b` is the one before which no record has identity `b`. */
  lemma {:induction false} FirstIndexUnique(ts: seq<Task>, b: string, i: nat, from: nat := 0)
    requires from <= i < |ts| && BaseText(ts[i].text) == b
    requires forall j :: from <= j < i ==> BaseText(ts[j].text) != b
    ensures FirstIndex(ts, b, from) == i
    decreases i - from
  {
    if from < i {
      FirstIndexUnique(ts, b, i, from + 1);
    }
  }

  /** A record of identity `b` after none is the first one. */
  lemma FirstIndexLast(ts: seq<Task>, b: string)
    requires |ts| > 0 && b !in Bases(ts[..|ts| - 1]) && BaseText(ts[|ts| - 1].text) == b
    ensures FirstIndex(ts, b) == |ts| - 1
  {
    var front := ts[..|ts| - 1];
    forall j | 0 <= j < |front| ensures BaseText(ts[j].text) != b {
      assert ts[j] == front[j] && front[j] in front;
    }
  }

  /** The last record of the partition is the first one of identity `b`. */
  lemma {:induction false} NoteFirst(h: Index, d: DateKey, ts: seq<Task>, b: string)
    requires WellFormed(h) && |ts| > 0 && b !in Bases(ts[..|ts| - 1]) && BaseText(ts[|ts| - 1].text) == b
    ensures PartitionEffect(h, d, ts, b)
    decreases |ts|, 0
  {
    var front, t := ts[..|ts| - 1], ts[|ts| - 1];
    assert ts == front + [t];
    NotePartitionAt(h, d, front, b);
    NotePartitionWellFormed(h, d, front);
    var h1 := NotePartition(h, d, front);
    assert NotePartition(h, d, ts) == Note(h1, d, t);
    NoteAt(h1, d, t, b);
    BasesSnoc(front, t);
    FirstIndexLast(ts, b);
    assert EarlierOrigin(h1, b, d) == EarlierOrigin(h, b, d);
    assert LaterSighting(h1, b, Sighting(d, t)) == LaterSighting(h, b, Sighting(d, t));
  }

  /** The partition has no record of identity `b` among its records so far. */
  lemma {:induction false} NoteOther(h: Index, d: DateKey, ts: seq<Task>, b: string)
    requires WellFormed(h) && |ts| > 0 && b !in Bases(ts[..|ts| - 1]) && BaseText(ts[|ts| - 1].text) != b
    ensures PartitionEffect(h, d, ts, b)
    decreases |ts|, 0
  {
    var front, t := ts[..|ts| - 1], ts[|ts| - 1];
    assert ts == front + [t];
    NotePartitionAt(h, d, front, b);
    NotePartitionWellFormed(h, d, front);
    var h1 := NotePartition(h, d, front);
    assert NotePartition(h, d, ts) == Note(h1, d, t);
    NoteAt(h1, d, t, b);
    BasesSnoc(front, t);
  }

  lemma {:induction false} ResolveWellFormed(store: Store, keys: seq<DateKey>)
    requires forall k :: k in keys ==> k in store
    requires Resolve(store, keys).Some?
    ensures WellFormed(Resolve(store, keys).value)
  {
    if |keys| > 0 {
      ResolveWellFormed(store, keys[..|keys| - 1]);
      var k := keys[|keys| - 1];
      if store[k].Stored? {
        NotePartitionWellFormed(Resolve(store, keys[..|keys| - 1]).value, k, store[k].tasks);
      }
    }
  }

  /** The scan aborts exactly when some enumerated partition does not parse. */
  lemma {:induction false} ResolveAborts(store: Store, keys: seq<DateKey>)
    requires forall k :: k in keys ==> k in store
    ensures Resolve(store, keys).None? <==> exists k :: k in keys && store[k].Corrupt?
  {
    if |keys| > 0 {
      var front := keys[..|keys| - 1];
      ResolveAborts(store, front);
      assert keys == front + [keys[|keys| - 1]];
    }
  }

  /** What the scan of `keys` has found out about identity `b` (see `ResolveCharacterized`). */
  ghost predicate Characterized(store: Store, keys: seq<DateKey>, h: Index, b: string) {
    && (b in h.latest <==> exists k :: k in keys && Holds(store, k, b))
    && (b in h.latest ==> b in h.origins && IsOriginAmong(store, keys, b, h.origins[b])
                          && IsLatestAmong(store, keys, b, h.latest[b]))
  }

  /** Record `t` is the first record of identity `b` in the stored partition of day `d`. */
  ghost predicate FirstOf(store: Store, d: DateKey, b: string, t: Task) {
    Holds(store, d, b) &&
    (FirstIndexFound(store[d].tasks, b); t == store[d].tasks[FirstIndex(store[d].tasks, b)])
  }

  /**
   * After scanning `keys`, identity `b` is known exactly when some scanned
   * partition holds it; its origin is the earliest such day and its latest
   * sighting the latest such day with the first record of `b` there.
   */
  lemma {:induction false} ResolveCharacterized(store: Store, keys: seq<DateKey>, b: string)
    requires forall k :: k in keys ==> k in store
    requires Resolve(store, keys).Some?
    ensures Characterized(store, keys, Resolve(store, keys).value, b)
    decreases |keys|
  {
    if |keys| > 0 {
      var front, d := keys[..|keys| - 1], keys[|keys| - 1];
      assert keys == front + [d];
      ResolveLast(store, keys);
      ResolveCharacterized(store, front, b);
      ResolveWellFormed(store, front);
      CharacterizedStep(store, front, d, Resolve(store, front).value, Resolve(store, keys).value, b);
    }
  }

  /** A scan that succeeds succeeded on all but the last key, and the last partition parsed. */
  lemma ResolveLast(store: Store, keys: seq<DateKey>)
    requires |keys| > 0 && forall k :: k in keys ==> k in store
    requires Resolve(store, keys).Some?
    ensures var front, d := keys[..|keys| - 1], keys[|keys| - 1];
      && Resolve(store, front).Some? && !store[d].Corrupt?
      && Resolve(store, keys).value ==
        if store[d].Stored? then NotePartition(Resolve(store, front).value, d, store[d].tasks)
        else Resolve(store, front).value
  {
  }

  /** Scanning the partition of one more day `d` keeps the characterization. */
  lemma CharacterizedStep(store: Store, front: seq<DateKey>, d: DateKey, h0: Index, h: Index, b: string)
    requires d in store && !store[d].Corrupt?
    requires WellFormed(h0) && Characterized(store, front, h0, b)
    requires h == if store[d].Stored? then NotePartition(h0, d, store[d].tasks) else h0
    ensures Characterized(store, front + [d], h, b)
  {
    if Holds(store, d, b) {
      var ts := store[d].tasks;
      NotePartitionAt(h0, d, ts, b);
      FirstIndexFound(ts, b);
      HeldStep(store, front, d, h0, h, b, ts[FirstIndex(ts, b)]);
    } else {
      if store[d].Stored? {
        NotePartitionAt(h0, d, store[d].tasks, b);
      }
      UnheldStep(store, front, d, h0, h, b);
    }
  }

  /** A day whose partition does not hold `b` changes nothing about `b`. */
  lemma UnheldStep(store: Store, front: seq<DateKey>, d: DateKey, h0: Index, h: Index, b: string)
    requires !Holds(store, d, b) && Characterized(store, front, h0, b)
    requires b in h.latest <==> b in h0.latest
    requires b in h0.latest ==> b in h.origins && h.latest[b] == h0.latest[b] && h.origins[b] == h0.origins[b]
    ensures Characterized(store, front + [d], h, b)
  {
    assert forall k :: k in front + [d] <==> k in front || k == d;
  }

  /** A day whose partition holds `b` moves the origin back or the latest sighting forward. */
  lemma HeldStep(store: Store, front: seq<DateKey>, d: DateKey, h0: Index, h: Index, b: string, first: Task)
    requires FirstOf(store, d, b, first)
    requires WellFormed(h0) && Characterized(store, front, h0, b)
    requires b in h.latest && b in h.origins
    requires h.origins[b] == EarlierOrigin(h0, b, d) && h.latest[b] == LaterSighting(h0, b, Sighting(d, first))
    ensures Characterized(store, front + [d], h, b)
  {
    if b in h0.latest {
      OriginExtend(store, front, d, b, h0.origins[b]);
      LatestExtend(store, front, d, b, h0.latest[b], first);
    } else {
      OriginNew(store, front, d, b);
      LatestNew(store, front, d, b, first);
    }
    assert d in front + [d];
  }

  /** The first partition found to hold `b` is its origin so far. */
  lemma OriginNew(store: Store, front: seq<DateKey>, d: DateKey, b: string)
    requires Holds(store, d, b) && forall k :: k in front ==> !Holds(store, k, b)
    ensures IsOriginAmong(store, front + [d], b, d)
  {
    BeforeIrreflexive(d);
    assert forall k :: k in front + [d] <==> k in front || k == d;
  }

  /** The first partition found to hold `b` gives its latest sighting so far. */
  lemma LatestNew(store: Store, front: seq<DateKey>, d: DateKey, b: string, first: Task)
    requires FirstOf(store, d, b, first) && forall k :: k in front ==> !Holds(store, k, b)
    ensures IsLatestAmong(store, front + [d], b, Sighting(d, first))
  {
    BeforeIrreflexive(d);
    assert forall k :: k in front + [d] <==> k in front || k == d;
  }

  /** The origin after one more partition holding `b` is the earlier of the two days. */
  lemma OriginExtend(store: Store, front: seq<DateKey>, d: DateKey, b: string, o0: DateKey)
    requires IsOriginAmong(store, front, b, o0) && Holds(store, d, b)
    ensures IsOriginAmong(store, front + [d], b, if Before(d, o0) then d else o0)
  {
    var o := if Before(d, o0) then d else o0;
    BeforeIrreflexive(d);
    forall k | k in front + [d] && Holds(store, k, b)
      ensures !Before(k, o)
    {
      if k != d {
        assert k in front;
        if Before(k, d) && Before(d, o0) {
          BeforeTransitive(k, d, o0);
        }
      }
    }
  }

  /** The latest sighting after one more partition holding `b` is on the later of the two days. */
  lemma LatestExtend(store: Store, front: seq<DateKey>, d: DateKey, b: string, s0: Sighting, first: Task)
    requires IsLatestAmong(store, front, b, s0) && FirstOf(store, d, b, first)
    ensures IsLatestAmong(store, front + [d], b, if Before(s0.date, d) then Sighting(d, first) else s0)
  {
    var s := if Before(s0.date, d) then Sighting(d, first) else s0;
    BeforeIrreflexive(d);
    forall k | k in front + [d] && Holds(store, k, b)
      ensures !Before(s.date, k)
    {
      if k != d {
        assert k in front;
        if Before(s0.date, d) && Before(d, k) {
          BeforeTransitive(s0.date, d, k);
        }
      }
    }
  }
}
