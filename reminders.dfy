/**
 * The reminders hook: the reminder list with its add and delete operations,
 * and the alert rule that turns the distance to each reminder's target day
 * into an alert of some urgency, listed nearest first.
 */
module Reminders {
  import opened Wrappers
  import Lists

  /** A reminder; `time` and `details` are optional fields. */
  datatype Reminder = Reminder(id: string, text: string, targetDate: string, time: Option<string>,
                               details: Option<string>, createdDate: string)

  datatype Urgency = High | Medium | Low

  /** An alert: the reminder, its distance in calendar days, and how urgent it is. */
  datatype Alert = Alert(reminder: Reminder, daysLeft: int, urgency: Urgency)

  function IdOf(r: Reminder): string {
    r.id
  }

  /** `addReminder`: one new reminder with id `id`, created at `now`, after the existing ones. */
  function AddReminder(reminders: seq<Reminder>, text: string, targetDate: string, time: Option<string>,
                       details: Option<string>, id: string, now: string): (r: seq<Reminder>)
    ensures |r| == |reminders| + 1 && r[..|reminders|] == reminders
    ensures r[|reminders|].id == id && r[|reminders|].text == text && r[|reminders|].targetDate == targetDate
    ensures r[|reminders|].time == time && r[|reminders|].details == details
    ensures r[|reminders|].createdDate == now
  {
    reminders + [Reminder(id, text, targetDate, time, details, now)]
  }

  /** `deleteReminder`: keeps the reminders whose id differs, in order. */
  function DeleteReminder(reminders: seq<Reminder>, id: string): (r: seq<Reminder>)
    ensures forall x :: x in r ==> x in reminders && x.id != id
    ensures (forall i :: 0 <= i < |reminders| ==> reminders[i].id != id) ==> r == reminders
  {
    Lists.Remove(reminders, IdOf, id)
  }

  /** Deleting a reminder just added with a fresh id restores the list. */
  lemma DeleteUndoesAddReminder(reminders: seq<Reminder>, text: string, targetDate: string, time: Option<string>,
                                details: Option<string>, id: string, now: string)
    requires forall x :: x in reminders ==> x.id != id
    ensures DeleteReminder(AddReminder(reminders, text, targetDate, time, details, id, now), id) == reminders
  {
    Lists.RemoveAppend(reminders, [Reminder(id, text, targetDate, time, details, now)], IdOf, id);
  }

  /** Deleting keeps every reminder with another id as often as it occurs, and deleting twice is deleting once. */
  lemma DeleteReminderKeepsOthers(reminders: seq<Reminder>, id: string, x: Reminder)
    ensures multiset(DeleteReminder(reminders, id))[x] == if x.id == id then 0 else multiset(reminders)[x]
    ensures DeleteReminder(DeleteReminder(reminders, id), id) == DeleteReminder(reminders, id)
  {
    Lists.RemoveCount(reminders, IdOf, id, x);
    Lists.RemoveIdempotent(reminders, IdOf, id);
  }

  // ---------------------------------------------------------------------
  // The alert rule
  // ---------------------------------------------------------------------

  /** The alert rule: 30 days ahead is low, 15 medium, 7 and the last six days (0..5) high, anything else none. */
  function AlertLevel(daysLeft: int): (u: Option<Urgency>)
    ensures u.Some? <==> daysLeft == 30 || daysLeft == 15 || daysLeft == 7 || 0 <= daysLeft <= 5
    ensures u == Some(Low) <==> daysLeft == 30
    ensures u == Some(Medium) <==> daysLeft == 15
    ensures u == Some(High) <==> daysLeft == 7 || 0 <= daysLeft <= 5
  {
    if daysLeft == 30 then Some(Low)
    else if daysLeft == 15 then Some(Medium)
    else if daysLeft == 7 then Some(High)
    else if daysLeft <= 5 && daysLeft >= 0 then Some(High)
    else None
  }

  /** Urgencies ranked from least to most urgent. */
  function Rank(u: Urgency): nat {
    match u
    case Low => 0
    case Medium => 1
    case High => 2
  }

  /** A nearer alert is never less urgent than a farther one. */
  lemma NearerIsMoreUrgent(d1: int, d2: int)
    requires d1 <= d2 && AlertLevel(d1).Some? && AlertLevel(d2).Some?
    ensures Rank(AlertLevel(d1).value) >= Rank(AlertLevel(d2).value)
  {
  }

  /**
   * The alerts pushed while walking the reminders in order; `daysUntil`
   * gives the calendar-day distance from the viewed day to a target date.
   */
  function Pending(reminders: seq<Reminder>, daysUntil: string -> int): (alerts: seq<Alert>)
    ensures |alerts| <= |reminders|
    ensures forall a :: a in alerts ==>
      && a.reminder in reminders
      && a.daysLeft == daysUntil(a.reminder.targetDate)
      && AlertLevel(a.daysLeft) == Some(a.urgency)
    decreases |reminders|
  {
    if |reminders| == 0 then []
    else
      var prev := Pending(reminders[..|reminders| - 1], daysUntil);
      var r := reminders[|reminders| - 1];
      var daysLeft := daysUntil(r.targetDate);
      match AlertLevel(daysLeft)
      case None => prev
      case Some(u) => prev + [Alert(r, daysLeft, u)]
  }

  /** The reminders the alerts are about, in order. */
  function Subjects(alerts: seq<Alert>): seq<Reminder> {
    seq(|alerts|, i requires 0 <= i < |alerts| => alerts[i].reminder)
  }

  /** Each reminder gives one alert for each of its occurrences when its distance alerts, and none otherwise. */
  lemma {:induction false} PendingCounts(reminders: seq<Reminder>, daysUntil: string -> int, x: Reminder)
    ensures multiset(Subjects(Pending(reminders, daysUntil)))[x] ==
      if AlertLevel(daysUntil(x.targetDate)).Some? then multiset(reminders)[x] else 0
    decreases |reminders|
  {
    if |reminders| > 0 {
      var front, r := reminders[..|reminders| - 1], reminders[|reminders| - 1];
      assert reminders == front + [r];
      PendingCounts(front, daysUntil, x);
      var prev := Pending(front, daysUntil);
      if AlertLevel(daysUntil(r.targetDate)).Some? {
        var a := Alert(r, daysUntil(r.targetDate), AlertLevel(daysUntil(r.targetDate)).value);
        assert Subjects(prev + [a]) == Subjects(prev) + [r];
      }
    }
  }

  // ---------------------------------------------------------------------
  // Ordering by distance
  // ---------------------------------------------------------------------

  function DaysLeftOf(a: Alert): int {
    a.daysLeft
  }

  predicate SortedByDays(alerts: seq<Alert>) {
    forall i, j :: 0 <= i < j < |alerts| ==> alerts[i].daysLeft <= alerts[j].daysLeft
  }

  /** Places `a` after every alert of `sorted` that is not farther away. */
  function Insert(sorted: seq<Alert>, a: Alert): (r: seq<Alert>)
    requires SortedByDays(sorted)
    ensures SortedByDays(r)
    ensures multiset(r) == multiset(sorted) + multiset{a}
    decreases |sorted|
  {
    if |sorted| == 0 || sorted[|sorted| - 1].daysLeft <= a.daysLeft then sorted + [a]
    else
      var front, last := sorted[..|sorted| - 1], sorted[|sorted| - 1];
      assert sorted == front + [last];
      var r := Insert(front, a);
      InsertBelow(front, a, r, last);
      r + [last]
  }

  /** An alert at least as far as every alert of `front` and as `a` may follow their insertion. */
  lemma InsertBelow(front: seq<Alert>, a: Alert, r: seq<Alert>, last: Alert)
    requires SortedByDays(r) && multiset(r) == multiset(front) + multiset{a}
    requires a.daysLeft <= last.daysLeft
    requires forall i :: 0 <= i < |front| ==> front[i].daysLeft <= last.daysLeft
    ensures SortedByDays(r + [last])
  {
    forall i | 0 <= i < |r| ensures r[i].daysLeft <= last.daysLeft {
      assert r[i] in multiset(r);
      if r[i] != a {
        assert r[i] in multiset(front);
        var j :| 0 <= j < |front| && front[j] == r[i];
      }
    }
  }

  /** `Array.prototype.sort` with the comparator `a.daysLeft - b.daysLeft`: a stable sort by distance. */
  function SortByDays(alerts: seq<Alert>): (r: seq<Alert>)
    ensures SortedByDays(r)
    ensures multiset(r) == multiset(alerts)
    decreases |alerts|
  {
    if |alerts| == 0 then []
    else
      var front := alerts[..|alerts| - 1];
      assert alerts == front + [alerts[|alerts| - 1]];
      Insert(SortByDays(front), alerts[|alerts| - 1])
  }

  /** Inserting keeps the alerts of each distance in their order, the new one last. */
  lemma {:induction false} InsertStable(sorted: seq<Alert>, a: Alert, d: int)
    requires SortedByDays(sorted)
    ensures Lists.Select(Insert(sorted, a), DaysLeftOf, d) == Lists.Select(sorted, DaysLeftOf, d) + Lists.Select([a], DaysLeftOf, d)
    decreases |sorted|
  {
    if |sorted| == 0 || sorted[|sorted| - 1].daysLeft <= a.daysLeft {
      Lists.SelectAppend(sorted, [a], DaysLeftOf, d);
    } else {
      var front, last := sorted[..|sorted| - 1], sorted[|sorted| - 1];
      assert sorted == front + [last];
      var r := Insert(front, a);
      assert Insert(sorted, a) == r + [last];
      InsertStable(front, a, d);
      Lists.SelectAppend(r, [last], DaysLeftOf, d);
      Lists.SelectAppend(front, [last], DaysLeftOf, d);
      SelectSwap(Lists.Select(front, DaysLeftOf, d), a, last, d);
    }
  }

  /** Alerts at different distances never both survive a selection by distance. */
  lemma SelectSwap(prefix: seq<Alert>, a: Alert, b: Alert, d: int)
    requires a.daysLeft != b.daysLeft
    ensures prefix + Lists.Select([a], DaysLeftOf, d) + Lists.Select([b], DaysLeftOf, d)
         == prefix + Lists.Select([b], DaysLeftOf, d) + Lists.Select([a], DaysLeftOf, d)
  {
    assert [a][1..] == [] && [b][1..] == [];
  }

  /** The sort is stable: alerts at the same distance keep their relative order. */
  lemma {:induction false} SortStable(alerts: seq<Alert>, d: int)
    ensures Lists.Select(SortByDays(alerts), DaysLeftOf, d) == Lists.Select(alerts, DaysLeftOf, d)
    decreases |alerts|
  {
    if |alerts| > 0 {
      var front, a := alerts[..|alerts| - 1], alerts[|alerts| - 1];
      assert alerts == front + [a];
      SortStable(front, d);
      InsertStable(SortByDays(front), a, d);
      Lists.SelectAppend(front, [a], DaysLeftOf, d);
    }
  }

  /**
   * `getActiveAlerts`: walks the reminders, classifies each distance with the
   * `shouldAlert`/`urgency` locals, pushes the alerts, then sorts them by
   * distance.
   */
  method ActiveAlerts(reminders: seq<Reminder>, daysUntil: string -> int) returns (alerts: seq<Alert>)
    ensures alerts == SortByDays(Pending(reminders, daysUntil))
  {
    var pushed: seq<Alert> := [];
    for n := 0 to |reminders|
      invariant pushed == Pending(reminders[..n], daysUntil)
    {
      var r := reminders[n];
      var daysLeft := daysUntil(r.targetDate);
      var shouldAlert := false;
      var urgency := Low;
      if daysLeft == 30 {
        shouldAlert, urgency := true, Low;
      } else if daysLeft == 15 {
        shouldAlert, urgency := true, Medium;
      } else if daysLeft == 7 {
        shouldAlert, urgency := true, High;
      } else if daysLeft <= 5 && daysLeft >= 0 {
        shouldAlert, urgency := true, High;
      }
      if shouldAlert {
        pushed := pushed + [Alert(r, daysLeft, urgency)];
      }
      assert reminders[..n + 1][..n] == reminders[..n];
    }
    assert reminders[..|reminders|] == reminders;
    alerts := SortByDays(pushed);
  }
}
