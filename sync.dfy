/**
 * The carry-over half of `synchronizeHistory`: from the scanned history, every
 * identity whose latest sighting lies before the viewed day, is incomplete and
 * is missing from the viewed partition gets a fresh record there, tagged with
 * its origin day; the partition is written only when something was added.
 */
module Sync {
  import opened Wrappers
  import opened DateKeys
  import opened Tasks
  import opened History

  /** The viewed partition as re-read by the pass: a missing or empty slot reads as no tasks. */
  function CurrentTasks(store: Store, viewed: DateKey): (r: seq<Task>)
    ensures forall t :: t in r ==> Holds(store, viewed, BaseText(t.text))
    ensures r != [] ==> viewed in store && store[viewed].Stored?
  {
    if viewed in store && store[viewed].Stored? then store[viewed].tasks else []
  }

  /** The three-part carry-over condition for identity `b`. */
  predicate ShouldCarry(h: Index, b: string, viewed: DateKey, present: set<string>)
    requires b in h.latest
    ensures ShouldCarry(h, b, viewed, present) ==> h.latest[b].date != viewed && b !in present
  {
    BeforeIrreflexive(viewed);
    Before(h.latest[b].date, viewed) && !h.latest[b].task.completed && b !in present
  }

  /**
   * The record synthesized for identity `b`: the latest record with a fresh
   * id, the viewed day, not completed, and the identity tagged with the
   * origin day as `dd/MM`.
   */
  function CarryOver(h: Index, b: string, viewed: DateKey, id: string): (t: Task)
    requires b in h.latest && b in h.origins
    ensures t.id == id && t.date == viewed && !t.completed && t.priority == h.latest[b].task.priority
    ensures IsIdentity(b) ==> BaseText(t.text) == b
  {
    var t := h.latest[b].task.(id := id, date := viewed, completed := false, text := Tag(b, DayMonth(h.origins[b])));
    if IsIdentity(b) then TagRoundTrip(b, DayMonth(h.origins[b])); t else t
  }

  /**
   * The records synthesized while walking the identities `bs` in order; the
   * record pushed when `n` records are already collected gets id `mint(n)`.
   */
  function Carried(h: Index, viewed: DateKey, present: set<string>, bs: seq<string>, mint: nat -> string): (r: seq<Task>)
    requires forall b :: b in bs ==> b in h.latest && b in h.origins
    ensures |r| <= |bs|
    ensures forall i :: 0 <= i < |r| ==> r[i].id == mint(i) && r[i].date == viewed && !r[i].completed
    decreases |bs|
  {
    if |bs| == 0 then []
    else
      var prev := Carried(h, viewed, present, bs[..|bs| - 1], mint);
      var b := bs[|bs| - 1];
      if ShouldCarry(h, b, viewed, present) then prev + [CarryOver(h, b, viewed, mint(|prev|))] else prev
  }

  /** Walking identity `bs[n]` appends its carry-over exactly when it meets the condition. */
  lemma CarriedStep(h: Index, viewed: DateKey, present: set<string>, bs: seq<string>, n: nat, mint: nat -> string)
    requires n < |bs| && forall b :: b in bs ==> b in h.latest && b in h.origins
    ensures var prev := Carried(h, viewed, present, bs[..n], mint);
      var b := bs[n];
      Carried(h, viewed, present, bs[..n + 1], mint) ==
        if Before(h.latest[b].date, viewed) && !h.latest[b].task.completed && b !in present
        then prev + [h.latest[b].task.(id := mint(|prev|), date := viewed, completed := false,
                                       text := Tag(b, DayMonth(h.origins[b])))]
        else prev
  {
    var walked := bs[..n + 1];
    assert walked[..n] == bs[..n] && walked[n] == bs[n];
    var prev := Carried(h, viewed, present, bs[..n], mint);
    var b := bs[n];
    var t := h.latest[b].task.(id := mint(|prev|), date := viewed, completed := false, text := Tag(b, DayMonth(h.origins[b])));
    assert CarryOver(h, b, viewed, mint(|prev|)) == t;
  }

  /** The records a pass adds to the viewed partition; none when the scan aborts. */
  function Added(store: Store, order: seq<DateKey>, viewed: DateKey, mint: nat -> string): (r: seq<Task>)
    requires forall k :: k in order ==> k in store
    ensures forall i :: 0 <= i < |r| ==> r[i].id == mint(i) && r[i].date == viewed && !r[i].completed
    ensures (exists k :: k in order && store[k].Corrupt?) ==> r == []
  {
    ResolveAborts(store, order);
    match Resolve(store, order)
    case None => []
    case Some(h) =>
      ResolveWellFormed(store, order);
      Carried(h, viewed, Bases(CurrentTasks(store, viewed)), h.idents, mint)
  }

  /**
   * The list a pass writes to the viewed partition, or `None` when it writes
   * nothing: the old partition followed by the added records.
   */
  function SyncPass(store: Store, order: seq<DateKey>, viewed: DateKey, mint: nat -> string): (r: Option<seq<Task>>)
    requires forall k :: k in order ==> k in store
    ensures r.Some? ==> |r.value| > |CurrentTasks(store, viewed)| && r.value[..|CurrentTasks(store, viewed)|] == CurrentTasks(store, viewed)
    ensures (exists k :: k in order && store[k].Corrupt?) ==> r.None?
  {
    ResolveAborts(store, order);
    var added := Added(store, order, viewed, mint);
    if |added| > 0 then Some(CurrentTasks(store, viewed) + added) else None
  }

  /** The store after one pass: only the viewed partition can change. */
  function Synchronized(store: Store, order: seq<DateKey>, viewed: DateKey, mint: nat -> string): (r: Store)
    requires forall k :: k in order ==> k in store
    ensures forall k :: k != viewed ==> (k in r <==> k in store) && (k in store ==> r[k] == store[k])
    ensures SyncPass(store, order, viewed, mint).None? ==> r == store
  {
    match SyncPass(store, order, viewed, mint)
    case None => store
    case Some(merged) => store[viewed := Stored(merged)]
  }

  /** A pass writes the current list followed by the synthesized records, or nothing when there are none. */
  lemma SynchronizedByAdded(store: Store, order: seq<DateKey>, viewed: DateKey, mint: nat -> string)
    requires forall k :: k in order ==> k in store
    ensures var added := Added(store, order, viewed, mint);
      Synchronized(store, order, viewed, mint) ==
        if |added| > 0 then store[viewed := Stored(CurrentTasks(store, viewed) + added)] else store
  {
    var added := Added(store, order, viewed, mint);
    if |added| > 0 {
      assert SyncPass(store, order, viewed, mint) == Some(CurrentTasks(store, viewed) + added);
    } else {
      assert SyncPass(store, order, viewed, mint).None?;
    }
  }

  // ---------------------------------------------------------------------
  // Order-free description of the history
  // ---------------------------------------------------------------------

  /** `d` is the earliest day whose partition holds identity `b`. */
  ghost predicate OriginIn(store: Store, b: string, d: DateKey) {
    Holds(store, d, b) && forall k: DateKey :: Holds(store, k, b) ==> !Before(k, d)
  }

  /** `s` is the latest day holding identity `b`, with the first record of `b` there. */
  ghost predicate LatestIn(store: Store, b: string, s: Sighting) {
    && Holds(store, s.date, b)
    && (forall k: DateKey :: Holds(store, k, b) ==> !Before(s.date, k))
    && (FirstIndexFound(store[s.date].tasks, b);
        s.task == store[s.date].tasks[FirstIndex(store[s.date].tasks, b)])
  }

  /**
   * Identity `b` must be carried to day `viewed`: its latest sighting is on an
   * earlier day and incomplete, and the viewed partition has no record of it.
   */
  ghost predicate MustCarry(store: Store, viewed: DateKey, b: string) {
    && !Holds(store, viewed, b)
    && exists s :: LatestIn(store, b, s) && Before(s.date, viewed) && !s.task.completed
  }

  /**
   * Record `t` is the carry-over of its identity with id `id`: the latest
   * record of the identity, re-dated to `viewed`, not completed, its text the
   * identity tagged with the origin day.
   */
  ghost predicate IsCarryOver(store: Store, viewed: DateKey, t: Task, id: string) {
    var b := BaseText(t.text);
    exists o :: OriginIn(store, b, o) &&
      exists s :: LatestIn(store, b, s) &&
        t == s.task.(id := id, date := viewed, completed := false, text := Tag(b, DayMonth(o)))
  }

  /** Only one origin day per identity. */
  lemma OriginUnique(store: Store, b: string, d1: DateKey, d2: DateKey)
    requires OriginIn(store, b, d1) && OriginIn(store, b, d2)
    ensures d1 == d2
  {
    SameDay(d1, d2);
  }

  /** Only one latest sighting per identity. */
  lemma LatestUnique(store: Store, b: string, s1: Sighting, s2: Sighting)
    requires LatestIn(store, b, s1) && LatestIn(store, b, s2)
    ensures s1 == s2
  {
    SameDay(s1.date, s2.date);
  }

  /**
   * Whatever the key enumeration order, the scan finds an identity exactly
   * when some partition holds it, with its origin and latest sighting.
   */
  lemma ResolveFinds(store: Store, order: seq<DateKey>, b: string)
    requires KeyOrder(store, order)
    requires Resolve(store, order).Some?
    ensures var h := Resolve(store, order).value;
      && (b in h.latest <==> exists k :: Holds(store, k, b))
      && (b in h.latest ==> b in h.origins && OriginIn(store, b, h.origins[b]) && LatestIn(store, b, h.latest[b]))
  {
    ResolveCharacterized(store, order, b);
    var h := Resolve(store, order).value;
    if exists k :: Holds(store, k, b) {
      var k :| Holds(store, k, b);
      assert k in order;
    }
  }

  const NewYear: DateKey := "2024-01-01"
  const FifthOfJanuary: DateKey := "2024-01-05"

  /**
   * Forward-only carry: an incomplete "Pay rent" recorded only on 1 January
   * is copied once to 5 January, tagged with its origin day.
   */
  lemma PayRentExample(mint: nat -> string)
    ensures var t := Task("a", "Pay rent", false, NewYear, Normal);
      Added(map[NewYear := Stored([t])], [NewYear], FifthOfJanuary, mint)
        == [Task(mint(0), "Pay rent (\U{1F4C5} 01/01)", false, FifthOfJanuary, Normal)]
  {
    var t := Task("a", "Pay rent", false, NewYear, Normal);
    var store: Store := map[NewYear := Stored([t])];
    var h := PayRentHistory(t);
    assert Bases(CurrentTasks(store, FifthOfJanuary)) == {};
    PayRentCarried(h, t, mint);
  }

  /** The scan of the example store. */
  lemma PayRentHistory(t: Task) returns (h: Index)
    requires t == Task("a", "Pay rent", false, NewYear, Normal)
    ensures Resolve(map[NewYear := Stored([t])], [NewYear]) == Some(h)
    ensures h == Index(map["Pay rent" := NewYear], map["Pay rent" := Sighting(NewYear, t)], ["Pay rent"])
  {
    var store: Store := map[NewYear := Stored([t])];
    PayRentIsIdentity();
    IdentityFixpoint("Pay rent");
    var k := NewYear;
    assert [k][..0] == [] && [t][..0] == [];
    assert Resolve(store, [k][..0]) == Some(NoHistory);
    assert NotePartition(NoHistory, k, [t]) == Note(NoHistory, k, t);
    h := Note(NoHistory, k, t);
  }

  /** The carry-over walk of the example history. */
  lemma PayRentCarried(h: Index, t: Task, mint: nat -> string)
    requires t == Task("a", "Pay rent", false, NewYear, Normal)
    requires h == Index(map["Pay rent" := NewYear], map["Pay rent" := Sighting(NewYear, t)], ["Pay rent"])
    ensures Carried(h, FifthOfJanuary, {}, ["Pay rent"], mint)
      == [Task(mint(0), "Pay rent (\U{1F4C5} 01/01)", false, FifthOfJanuary, Normal)]
  {
    PayRentDates();
    assert ["Pay rent"][..0] == [];
    assert ShouldCarry(h, "Pay rent", FifthOfJanuary, {});
    assert CarryOver(h, "Pay rent", FifthOfJanuary, mint(0)) == Task(mint(0), "Pay rent (\U{1F4C5} 01/01)", false, FifthOfJanuary, Normal);
  }

  /** The example's days: 1 January precedes 5 January and renders as `01/01`. */
  lemma PayRentDates()
    ensures Before(NewYear, FifthOfJanuary)
    ensures Tag("Pay rent", DayMonth(NewYear)) == "Pay rent (\U{1F4C5} 01/01)"
  {
    assert NewYear[..9] == FifthOfJanuary[..9];
    BeforeAt(NewYear, FifthOfJanuary, 9);
    assert DayMonth(NewYear) == "01/01";
  }

  lemma PayRentIsIdentity()
    ensures IsIdentity("Pay rent")
  {
    var k := "Pay rent";
    assert forall i :: 0 <= i < |k| ==> !MarkerAt(k, i);
  }

  // ---------------------------------------------------------------------
  // Properties of the synthesized records
  // ---------------------------------------------------------------------

  lemma BasesAppend(a: seq<Task>, c: seq<Task>)
    ensures Bases(a + c) == Bases(a) + Bases(c)
  {
    assert forall x :: x in a + c <==> x in a || x in c;
  }

  /** An identity is synthesized exactly when it is walked and meets the condition. */
  lemma {:induction false} CarriedBases(h: Index, viewed: DateKey, present: set<string>, bs: seq<string>, mint: nat -> string)
    requires forall b :: b in bs ==> b in h.latest && b in h.origins && IsIdentity(b)
    ensures forall b :: b in Bases(Carried(h, viewed, present, bs, mint)) <==> b in bs && ShouldCarry(h, b, viewed, present)
    decreases |bs|
  {
    if |bs| > 0 {
      var front, b := bs[..|bs| - 1], bs[|bs| - 1];
      assert bs == front + [b];
      CarriedBases(h, viewed, present, front, mint);
      var prev := Carried(h, viewed, present, front, mint);
      if ShouldCarry(h, b, viewed, present) {
        var t := CarryOver(h, b, viewed, mint(|prev|));
        TagRoundTrip(b, DayMonth(h.origins[b]));
        BasesSnoc(prev, t);
      }
    }
  }

  /** Each synthesized record is the carry-over of its own identity, which met the condition. */
  lemma {:induction false} CarriedRecords(h: Index, viewed: DateKey, present: set<string>, bs: seq<string>, mint: nat -> string)
    requires forall b :: b in bs ==> b in h.latest && b in h.origins && IsIdentity(b)
    ensures var r := Carried(h, viewed, present, bs, mint);
      forall i :: 0 <= i < |r| ==>
        var b := BaseText(r[i].text);
        b in h.latest && b in h.origins && r[i] == CarryOver(h, b, viewed, mint(i))
    decreases |bs|
  {
    if |bs| > 0 {
      var front, b := bs[..|bs| - 1], bs[|bs| - 1];
      CarriedRecords(h, viewed, present, front, mint);
      var prev := Carried(h, viewed, present, front, mint);
      if ShouldCarry(h, b, viewed, present) {
        var t := CarryOver(h, b, viewed, mint(|prev|));
        assert Carried(h, viewed, present, bs, mint) == prev + [t];
        TagRoundTrip(b, DayMonth(h.origins[b]));
        assert BaseText(t.text) == b;
      }
    }
  }

  /** No two records of `r` share an identity. */
  predicate OnePerIdentity(r: seq<Task>) {
    forall i, j :: 0 <= i < j < |r| ==> BaseText(r[i].text) != BaseText(r[j].text)
  }

  /** Walking distinct identities synthesizes at most one record per identity. */
  lemma {:induction false} CarriedDistinct(h: Index, viewed: DateKey, present: set<string>, bs: seq<string>, mint: nat -> string)
    requires forall b :: b in bs ==> b in h.latest && b in h.origins && IsIdentity(b)
    requires forall i, j :: 0 <= i < j < |bs| ==> bs[i] != bs[j]
    ensures OnePerIdentity(Carried(h, viewed, present, bs, mint))
    decreases |bs|
  {
    if |bs| > 0 {
      var front, b := bs[..|bs| - 1], bs[|bs| - 1];
      CarriedDistinct(h, viewed, present, front, mint);
      var prev := Carried(h, viewed, present, front, mint);
      if ShouldCarry(h, b, viewed, present) {
        assert b !in front;
        CarriedBases(h, viewed, present, front, mint);
        assert b !in Bases(prev);
        var t := CarryOver(h, b, viewed, mint(|prev|));
        TagRoundTrip(b, DayMonth(h.origins[b]));
        LastDistinct(prev, t);
        assert Carried(h, viewed, present, bs, mint) == prev + [t];
      }
    }
  }

  /** Appending a record whose identity is new keeps the identities distinct. */
  lemma LastDistinct(prev: seq<Task>, t: Task)
    requires OnePerIdentity(prev)
    requires BaseText(t.text) !in Bases(prev)
    ensures OnePerIdentity(prev + [t])
  {
    var r := prev + [t];
    forall i | 0 <= i < |prev| ensures BaseText(r[i].text) != BaseText(t.text) {
      assert r[i] == prev[i] && prev[i] in prev;
    }
  }

  /** A walk in which no identity meets the condition synthesizes nothing. */
  lemma {:induction false} CarriedNone(h: Index, viewed: DateKey, present: set<string>, bs: seq<string>, mint: nat -> string)
    requires forall b :: b in bs ==> b in h.latest && b in h.origins && IsIdentity(b)
    ensures Carried(h, viewed, present, bs, mint) == [] <==> forall b :: b in bs ==> !ShouldCarry(h, b, viewed, present)
  {
    var r := Carried(h, viewed, present, bs, mint);
    CarriedBases(h, viewed, present, bs, mint);
    if |r| > 0 {
      assert BaseText(r[0].text) in Bases(r);
    }
  }

  // ---------------------------------------------------------------------
  // The pass as a whole
  // ---------------------------------------------------------------------

  /** A partition that does not parse makes the whole pass a no-op. */
  lemma SyncAbortsOnCorrupt(store: Store, order: seq<DateKey>, viewed: DateKey, mint: nat -> string, k: DateKey)
    requires KeyOrder(store, order)
    requires k in store && store[k].Corrupt?
    ensures Added(store, order, viewed, mint) == []
    ensures Synchronized(store, order, viewed, mint) == store
  {
    assert k in order;
    ResolveAborts(store, order);
  }

  /**
   * With every partition readable, the pass adds one record for each identity
   * that must be carried and for no other, at most one per identity; the
   * `i`-th added record is the carry-over of its identity with id `mint(i)`.
   */
  lemma SyncAddsExactly(store: Store, order: seq<DateKey>, viewed: DateKey, mint: nat -> string)
    requires KeyOrder(store, order)
    requires forall k :: k in store ==> !store[k].Corrupt?
    ensures var added := Added(store, order, viewed, mint);
      && (forall b :: b in Bases(added) <==> MustCarry(store, viewed, b))
      && OnePerIdentity(added)
      && (forall i :: 0 <= i < |added| ==> IsCarryOver(store, viewed, added[i], mint(i)))
  {
    ResolveAborts(store, order);
    var h := Resolve(store, order).value;
    ResolveWellFormed(store, order);
    var present := Bases(CurrentTasks(store, viewed));
    var added := Added(store, order, viewed, mint);
    assert added == Carried(h, viewed, present, h.idents, mint);
    CarriedBases(h, viewed, present, h.idents, mint);
    CarriedRecords(h, viewed, present, h.idents, mint);
    CarriedDistinct(h, viewed, present, h.idents, mint);
    forall b ensures b in Bases(added) <==> MustCarry(store, viewed, b) {
      ResolveFinds(store, order, b);
      if b in Bases(added) {
        assert b in h.latest && ShouldCarry(h, b, viewed, present);
        assert LatestIn(store, b, h.latest[b]);
      }
      if MustCarry(store, viewed, b) {
        var s :| LatestIn(store, b, s) && Before(s.date, viewed) && !s.task.completed;
        assert b in h.latest;
        LatestUnique(store, b, s, h.latest[b]);
      }
    }
    forall i | 0 <= i < |added| ensures IsCarryOver(store, viewed, added[i], mint(i)) {
      var b := BaseText(added[i].text);
      ResolveFinds(store, order, b);
      assert OriginIn(store, b, h.origins[b]) && LatestIn(store, b, h.latest[b]);
    }
  }

  /** The pass writes exactly when every partition is readable and some identity must be carried. */
  lemma SyncWritesIff(store: Store, order: seq<DateKey>, viewed: DateKey, mint: nat -> string)
    requires KeyOrder(store, order)
    ensures SyncPass(store, order, viewed, mint).Some? <==>
      (forall k :: k in store ==> !store[k].Corrupt?) && exists b :: MustCarry(store, viewed, b)
  {
    if forall k :: k in store ==> !store[k].Corrupt? {
      SyncAddsExactly(store, order, viewed, mint);
      var added := Added(store, order, viewed, mint);
      assert SyncPass(store, order, viewed, mint).Some? <==> |added| > 0;
      if |added| > 0 {
        assert BaseText(added[0].text) in Bases(added);
        assert MustCarry(store, viewed, BaseText(added[0].text));
      } else {
        assert Bases(added) == {};
      }
    } else {
      var k :| k in store && store[k].Corrupt?;
      SyncAbortsOnCorrupt(store, order, viewed, mint, k);
    }
  }

  /**
   * After a pass has written its merge, another pass for the same day, with
   * any key enumeration order and any fresh ids, adds nothing and writes
   * nothing.
   */
  lemma SyncIdempotent(store: Store, order: seq<DateKey>, viewed: DateKey, mint: nat -> string,
                       order2: seq<DateKey>, mint2: nat -> string)
    requires KeyOrder(store, order)
    requires KeyOrder(Synchronized(store, order, viewed, mint), order2)
    ensures Added(Synchronized(store, order, viewed, mint), order2, viewed, mint2) == []
    ensures Synchronized(Synchronized(store, order, viewed, mint), order2, viewed, mint2) == Synchronized(store, order, viewed, mint)
  {
    var store' := Synchronized(store, order, viewed, mint);
    if k :| k in store && store[k].Corrupt? {
      SyncAbortsOnCorrupt(store, order, viewed, mint, k);
      SyncAbortsOnCorrupt(store', order2, viewed, mint2, k);
    } else {
      SyncSettled(store, order, viewed, mint, order2, mint2);
    }
  }

  /** The second pass of `SyncIdempotent` when every partition is readable. */
  lemma SyncSettled(store: Store, order: seq<DateKey>, viewed: DateKey, mint: nat -> string,
                    order2: seq<DateKey>, mint2: nat -> string)
    requires KeyOrder(store, order)
    requires forall k :: k in store ==> !store[k].Corrupt?
    requires KeyOrder(Synchronized(store, order, viewed, mint), order2)
    ensures Added(Synchronized(store, order, viewed, mint), order2, viewed, mint2) == []
  {
    var store' := Synchronized(store, order, viewed, mint);
    SynchronizedReadable(store, order, viewed, mint);
    forall b ensures !MustCarry(store', viewed, b) {
      NothingLeftToCarry(store, order, viewed, mint, b);
    }
    NothingToAdd(store', order2, viewed, mint2);
  }

  /** A pass over readable partitions leaves every partition readable. */
  lemma SynchronizedReadable(store: Store, order: seq<DateKey>, viewed: DateKey, mint: nat -> string)
    requires forall k :: k in order ==> k in store
    requires forall k :: k in store ==> !store[k].Corrupt?
    ensures var r := Synchronized(store, order, viewed, mint);
      forall k :: k in r ==> !r[k].Corrupt?
  {
    SynchronizedByAdded(store, order, viewed, mint);
    var added := Added(store, order, viewed, mint);
    if |added| > 0 {
      StoredKeepsReadable(store, viewed, CurrentTasks(store, viewed) + added);
    }
  }

  /** Storing a list under one key keeps a store of readable partitions readable. */
  lemma StoredKeepsReadable(store: Store, viewed: DateKey, ts: seq<Task>)
    requires forall k :: k in store ==> !store[k].Corrupt?
    ensures var r := store[viewed := Stored(ts)]; forall k :: k in r ==> !r[k].Corrupt?
  {
  }

  /** A pass over readable partitions where no identity must be carried adds nothing. */
  lemma NothingToAdd(store: Store, order: seq<DateKey>, viewed: DateKey, mint: nat -> string)
    requires KeyOrder(store, order)
    requires forall k :: k in store ==> !store[k].Corrupt?
    requires forall b :: !MustCarry(store, viewed, b)
    ensures Added(store, order, viewed, mint) == []
  {
    SyncAddsExactly(store, order, viewed, mint);
    var added := Added(store, order, viewed, mint);
    assert added != [] ==> BaseText(added[0].text) in Bases(added);
  }

  /** After a pass over readable partitions, no identity must be carried to the viewed day any more. */
  lemma NothingLeftToCarry(store: Store, order: seq<DateKey>, viewed: DateKey, mint: nat -> string, b: string)
    requires KeyOrder(store, order)
    requires forall k :: k in store ==> !store[k].Corrupt?
    ensures !MustCarry(Synchronized(store, order, viewed, mint), viewed, b)
  {
    SyncAddsExactly(store, order, viewed, mint);
    MustCarryBeforePass(store, order, viewed, mint, b);
  }

  /**
   * An identity that must be carried after a pass already had to be carried
   * before it, and the pass did not add it.
   */
  lemma MustCarryBeforePass(store: Store, order: seq<DateKey>, viewed: DateKey, mint: nat -> string, b: string)
    requires KeyOrder(store, order)
    ensures MustCarry(Synchronized(store, order, viewed, mint), viewed, b) ==>
      MustCarry(store, viewed, b) && b !in Bases(Added(store, order, viewed, mint))
  {
    SynchronizedByAdded(store, order, viewed, mint);
    var added := Added(store, order, viewed, mint);
    if |added| == 0 {
      assert Bases(added) == {};
    } else if MustCarry(store[viewed := Stored(CurrentTasks(store, viewed) + added)], viewed, b) {
      MustCarryAfterExtend(store, viewed, added, b);
    }
  }

  /**
   * Appending records to the viewed partition cannot create an identity that
   * must be carried: one that must be carried afterwards already had to be,
   * and was not among the appended records.
   */
  lemma MustCarryAfterExtend(store: Store, viewed: DateKey, extra: seq<Task>, b: string)
    requires MustCarry(store[viewed := Stored(CurrentTasks(store, viewed) + extra)], viewed, b)
    ensures MustCarry(store, viewed, b) && b !in Bases(extra)
  {
    var current := CurrentTasks(store, viewed);
    var store' := store[viewed := Stored(current + extra)];
    BasesAppend(current, extra);
    assert b !in Bases(current + extra);
    assert !Holds(store, viewed, b);
    var s :| LatestIn(store', b, s) && Before(s.date, viewed) && !s.task.completed;
    BeforeIrreflexive(viewed);
    LatestInOutsideViewed(store, viewed, Stored(current + extra), b, s);
  }

  /**
   * A latest sighting on another day survives undoing a write to the viewed
   * partition, provided the identity was not held there before the write.
   */
  lemma LatestInOutsideViewed(store: Store, viewed: DateKey, slot: Slot, b: string, s: Sighting)
    requires LatestIn(store[viewed := slot], b, s) && s.date != viewed
    requires !Holds(store, viewed, b)
    ensures LatestIn(store, b, s)
  {
    var store' := store[viewed := slot];
    var ts := store[s.date].tasks;
    assert store'[s.date] == store[s.date];
    assert Holds(store, s.date, b);
    NoLaterOutsideViewed(store, viewed, slot, b, s.date);
    FirstIndexFound(ts, b);
    assert s.task == ts[FirstIndex(ts, b)];
  }

  /** Undoing a write to the viewed partition adds no later day holding `b` when the viewed day did not hold it. */
  lemma NoLaterOutsideViewed(store: Store, viewed: DateKey, slot: Slot, b: string, d: DateKey)
    requires forall k: DateKey :: Holds(store[viewed := slot], k, b) ==> !Before(d, k)
    requires !Holds(store, viewed, b)
    ensures forall k: DateKey :: Holds(store, k, b) ==> !Before(d, k)
  {
    forall k: DateKey | Holds(store, k, b) ensures !Before(d, k) {
      HoldsOutsideViewed(store, viewed, slot, k, b);
    }
  }

  /** A write to the viewed partition leaves what other days hold unchanged. */
  lemma HoldsOutsideViewed(store: Store, viewed: DateKey, slot: Slot, k: DateKey, b: string)
    requires k != viewed
    ensures Holds(store[viewed := slot], k, b) <==> Holds(store, k, b)
  {
  }
}
