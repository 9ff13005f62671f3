# agenda-pro: task history, reminders, vault and contacts in Dafny

agenda-pro is a desktop agenda. It keeps one task list per calendar day in
local storage, under a key of the form `agenda_tasks_YYYY-MM-DD`. It also
keeps a reminder list, a password vault and a contact list.

This project models the agenda's core logic and proves properties of it:

- **Task identity.** `getBaseText` maps a task's text to its identity: the
  text before the first ` (📅` separator, trimmed.
- **History engine.** `synchronizeHistory` runs when a day is viewed:
  - It scans every day partition to find each identity's origin day (the
    earliest day holding it) and its latest sighting (the latest day holding
    it, with its first record there).
  - It copies every identity that is incomplete at its latest sighting, and
    was last seen before the viewed day, into the viewed day, unless that day
    already has it.
  - A copy gets a fresh id, the viewed date, `completed = false`, and the
    text `identity (📅 dd/MM)` of the origin day.
  - The partition is written only when something was added.
  - Any exception inside the pass (a partition that does not parse as a task
    list) makes the whole pass do nothing.
- **Per-day list handlers.** Add (skipped for blank text), toggle and
  delete.
- **The reminders hook.** Add and delete, and the alert rule:
  - 30 days ahead gives a low alert, 15 a medium one, and 7 or 0..5 a high
    one;
  - alerts are ordered by a stable sort on the distance.
- **The password and contact hooks.** Add, merge-update and delete by id.

Modules, in dependency order:

- `Wrappers`: `Option`.
- `Lists`: the order-preserving filter `Array.prototype.filter` uses for
  "delete by id".
- `Text`: JavaScript's `trim`.
- `DateKeys`: partition keys, day order and `dd/MM` formatting.
- `Tasks`: task records, identity, and the per-day list operations.
- `History`: the scan, as specification functions and lemmas.
- `Sync`: the carry-over and the whole pass, stated without reference to
  key order, with its theorems.
- `TaskManager`: the imperative pass, in loops, and the `TaskStore` class
  whose methods update the partitions.
- `Reminders`, `Passwords`, `Contacts`: the three hooks.

How the outside world enters the model:

- Local storage is the `TaskStore.partitions` map from day key to slot:
  - `Blank` is an empty string, which the scan skips;
  - `Corrupt` is a value whose parse or traversal throws;
  - `Stored(tasks)` is a task list.
- The order in which `Object.keys(localStorage)` lists the keys is the
  parameter `order`. `KeyOrder` says that it lists each key exactly once.
- `uuidv4()` is the parameter `mint`: the n-th record pushed by a pass gets
  `mint(n)`.
- `new Date().toISOString()` is the parameter `now`.
- `differenceInCalendarDays(parseISO(target), viewDate)` is the parameter
  `daysUntil`.
- Comparing two parsed `YYYY-MM-DD` keys is lexicographic string order
  (`DateKeys.Before`). For keys of that fixed-width form, it agrees with
  comparing the days they denote.

The pass (`Sync`, `History`) is specified in two layers:

1. Fold-left functions follow the code's loops step by step: `Note`,
   `NotePartition`, `Resolve`, `Carried`, `Added`, `SyncPass` and
   `Synchronized`.
2. Order-free predicates say what the code is for: `OriginIn`, `LatestIn`,
   `MustCarry` and `IsCarryOver`.

Lemmas connect the two layers:

- The scan finds each identity's true origin and latest sighting, whatever
  the key order.
- The pass adds exactly the identities that must be carried, once each, with
  the right content.
- The pass writes exactly when something must be carried.
- A second pass right after the first changes nothing.

The loop methods in `TaskManager` and `Reminders` are each proved equal to
these functions.

## Model

| member | source | states |
|---|---|---|
| Text.Trim | src/components/TaskManager.tsx:35 | the result is the input with exactly its leading and trailing JavaScript whitespace cut off (`TrimOf`): a slice whose ends are not whitespace and outside which there is only whitespace; it is empty exactly when the input is all whitespace |
| Text.TrimSlice | src/components/TaskManager.tsx:35 | trimming the slice `lo..hi` yields the part of it left after cutting off exactly its leading and trailing whitespace (`TrimOf`) |
| Text.TrimUnique | src/components/TaskManager.tsx:35 | only one string is the trim of a given slice, so `TrimOf` determines `Trim` and `TrimSlice` completely |
| Text.TrimFixpoint | src/components/TaskManager.tsx:35 | trimming a trimmed string changes nothing |
| Tasks.MarkerIndex | src/components/TaskManager.tsx:35 | the index where `split(' (📅')[0]` ends: the first separator position at or after `from`, or the end when there is none |
| Tasks.BaseText | src/components/TaskManager.tsx:34-36 | `getBaseText` returns the text before the first separator with exactly its leading and trailing whitespace cut off (`TrimOf` over `0..MarkerIndex(text, 0)`), and the result has no separator and nothing to trim (a valid identity) |
| Tasks.Tag | src/components/TaskManager.tsx:110 | the display text of a carried copy is exactly the identity, the separator ` (📅`, a space, the given `dd/MM` text and `)` |
| Tasks.IdentityFixpoint | src/components/TaskManager.tsx:34-36 | an identity is its own base text |
| Tasks.BaseTextIdempotent | src/components/TaskManager.tsx:34-36 | normalising twice is normalising once |
| Tasks.TagRoundTrip | src/components/TaskManager.tsx:108-110 | the tagged display text of a carried copy normalises back to the identity it was made from, so a copy is recognised as the same task |
| DateKeys.DayMonth | src/components/TaskManager.tsx:108-109 | `format(parseISO(k), 'dd/MM')` is five characters: the key's two day digits, a slash, then its two month digits |
| DateKeys.Before | src/components/TaskManager.tsx:68-74 | a key is before another only when the other is non-empty and its first character is not smaller; order, irreflexivity and totality are the lemmas below |
| DateKeys.BeforeIrreflexive | src/components/TaskManager.tsx:68-74 | no day is before itself, so a same-day sighting replaces neither the origin nor the latest sighting |
| DateKeys.BeforeTransitive | src/components/TaskManager.tsx:68-74 | the day order is transitive |
| DateKeys.BeforeTotal | src/components/TaskManager.tsx:68-74 | two different keys are ordered one way or the other |
| DateKeys.BeforeAt | src/components/TaskManager.tsx:68-74 | keys that agree up to a position where one has the smaller character are ordered |
| DateKeys.SameDay | src/components/TaskManager.tsx:68-74 | keys neither of which is before the other are the same key |
| Lists.Remove | src/components/TaskManager.tsx:176 | `filter(x => key(x) !== k)` keeps only elements of the input without that key and returns the input unchanged when none has it |
| Lists.RemoveAppend | src/components/TaskManager.tsx:176 | filtering a concatenation filters each part |
| Lists.RemoveCount | src/components/TaskManager.tsx:176 | filtering keeps every other element exactly as many times as it occurs and drops every matching one |
| Lists.RemoveIdempotent | src/components/TaskManager.tsx:176 | filtering twice by the same key is filtering once |
| Tasks.AddTask | src/components/TaskManager.tsx:151-167 | a whitespace-only text leaves the list unchanged; otherwise the list gains exactly one new incomplete task with the given id, raw text, day and priority, at the end |
| Tasks.ToggleTask | src/components/TaskManager.tsx:169-173 | tasks with that id have `completed` flipped, all other fields and all other tasks are unchanged |
| Tasks.ToggleTwice | src/components/TaskManager.tsx:169-173 | toggling the same id twice restores the list |
| Tasks.DeleteTask | src/components/TaskManager.tsx:175-177 | the result holds only tasks of the list with another id, and is the list itself when no task has that id |
| Tasks.DeleteTaskKeepsOthers | src/components/TaskManager.tsx:175-177 | every task with another id keeps its multiplicity, none with that id remains, and deleting twice is deleting once |
| Tasks.DeleteUndoesAdd | src/components/TaskManager.tsx:151-177 | deleting a task just added under a fresh id restores the list |
| History.Note | src/components/TaskManager.tsx:64-81 | one record's identity is present in both maps afterwards, and no identity is ever dropped from the latest map; what happens to each entry is `NoteAt` |
| History.NotePartition | src/components/TaskManager.tsx:64-81 | scanning a partition drops no identity from the latest map; the effect per identity is `NotePartitionAt` |
| History.Resolve | src/components/TaskManager.tsx:41-82 | a scan that returns maps met no unparsable partition (the `catch` at line 139 otherwise ends the pass); the converse and the content of the maps are `ResolveAborts` and `ResolveCharacterized` |
| History.FirstIndexFound | src/components/TaskManager.tsx:64-81 | a partition holds an identity exactly when it has a first record of it |
| History.NoteWellFormed | src/components/TaskManager.tsx:64-81 | scanning one record keeps the two maps over the same identities, listed once each in insertion order |
| History.NotePartitionWellFormed | src/components/TaskManager.tsx:64-81 | scanning one partition does the same |
| History.NoteAt | src/components/TaskManager.tsx:64-81 | one record moves its identity's origin back to the earlier day and its latest sighting forward to a strictly later day, and touches no other identity |
| History.NotePartitionAt | src/components/TaskManager.tsx:64-81 | after a whole partition, an identity it holds has origin the earlier day and latest sighting the later one with its first record in the partition; an identity it does not hold is untouched |
| History.ResolveWellFormed | src/components/TaskManager.tsx:56-82 | the maps built by the scan cover the same identities, each listed once, each a valid identity |
| History.ResolveAborts | src/components/TaskManager.tsx:41-61 | the scan fails exactly when some enumerated partition does not parse |
| History.ResolveCharacterized | src/components/TaskManager.tsx:56-82 | after scanning any prefix of the keys, an identity is known exactly when a scanned partition holds it; its origin is the earliest such day and its latest sighting is the latest such day with its first record there |
| Sync.OriginUnique | src/components/TaskManager.tsx:68-70 | an identity has only one origin day |
| Sync.LatestUnique | src/components/TaskManager.tsx:74-80 | an identity has only one latest sighting |
| Sync.ResolveFinds | src/components/TaskManager.tsx:46-82 | for any enumeration of all keys, the scan knows an identity exactly when some partition holds it, with its true origin and latest sighting, so the key order does not matter |
| Sync.CurrentTasks | src/components/TaskManager.tsx:88-89 | every task of the viewed list holds its identity on the viewed day, and a non-empty list comes from a stored partition of that day |
| Sync.ShouldCarry | src/components/TaskManager.tsx:105-106 | an identity that meets the carry condition was last seen on another day and is absent from the viewed day |
| Sync.CarryOver | src/components/TaskManager.tsx:108-118 | the synthesized record has the given fresh id, the viewed date, `completed = false`, the latest record's priority, and a text that normalises back to its identity |
| Sync.Carried | src/components/TaskManager.tsx:95-129 | there are no more pushed records than walked identities, and the i-th has id `mint(i)`, the viewed date and `completed = false` |
| Sync.CarriedBases | src/components/TaskManager.tsx:97-120 | an identity gets a record exactly when it is walked and its latest sighting is earlier than the viewed day, incomplete and absent from the viewed day |
| Sync.CarriedRecords | src/components/TaskManager.tsx:108-118 | each pushed record is the latest record of its identity with a fresh id, the viewed date, `completed = false` and the text tagged with the origin's `dd/MM` |
| Sync.CarriedDistinct | src/components/TaskManager.tsx:97-120 | no two pushed records share an identity |
| Sync.CarriedNone | src/components/TaskManager.tsx:97-131 | nothing is pushed exactly when no walked identity meets the carry condition |
| Sync.Added | src/components/TaskManager.tsx:95-129 | the i-th added record has id `mint(i)`, the viewed date and `completed = false`, and nothing is added when any enumerated partition does not parse |
| Sync.SyncPass | src/components/TaskManager.tsx:131-137 | when the pass writes, it writes the old viewed list followed by at least one new record; a partition that does not parse means no write |
| Sync.Synchronized | src/components/TaskManager.tsx:131-137 | only the viewed partition can change, and nothing changes when the pass writes nothing |
| Sync.SyncAbortsOnCorrupt | src/components/TaskManager.tsx:41-141 | one unparsable partition anywhere makes the pass add nothing and leaves the store unchanged |
| Sync.SyncAddsExactly | src/components/TaskManager.tsx:93-129 | with readable partitions, the pass adds a record for an identity exactly when that identity must be carried (latest sighting earlier, incomplete, absent today), once each, and the i-th record is that identity's carry-over with id `mint(i)` |
| Sync.SyncWritesIff | src/components/TaskManager.tsx:131-137 | the viewed partition is written exactly when every partition is readable and some identity must be carried |
| Sync.SyncIdempotent | src/components/TaskManager.tsx:93-137 | right after a pass, another pass for the same day, with any key order and any fresh ids, adds nothing and leaves the store unchanged |
| Sync.NothingLeftToCarry | src/components/TaskManager.tsx:93-137 | after a pass over readable partitions no identity must still be carried to the viewed day |
| Sync.MustCarryBeforePass | src/components/TaskManager.tsx:93-137 | for any store, an identity that must be carried after a pass already had to be carried before it and was not among the records the pass added |
| Sync.MustCarryAfterExtend | src/components/TaskManager.tsx:131-137 | appending records to the viewed list cannot make an identity need carrying: one that must be carried afterwards already had to be and was not appended |
| Sync.PayRentExample | src/components/TaskManager.tsx:97-118 | an incomplete "Pay rent" held only on 2024-01-01 is carried to 2024-01-05 as `Pay rent (📅 01/01)`, incomplete, with id `mint(0)` |
| TaskManager.ScanPartition | src/components/TaskManager.tsx:64-81 | the inner loop over one partition's records builds the same maps as the scan function `NotePartition` |
| TaskManager.ResolveHistory | src/components/TaskManager.tsx:56-82 | the outer scan loop returns the scan function `Resolve`: no result when a partition does not parse, the maps otherwise |
| TaskManager.CollectCarryOvers | src/components/TaskManager.tsx:95-129 | the loop over the latest map in insertion order pushes exactly `Carried` |
| TaskManager.TaskStore.SynchronizeHistory | src/components/TaskManager.tsx:40-142 | the store after the pass is `Synchronized` of the store before it, whose properties are the `Sync` lemmas above |
| TaskManager.TaskStore.AddTask | src/components/TaskManager.tsx:151-167 | a blank text writes nothing; otherwise the day's partition becomes its list with the new task appended |
| TaskManager.TaskStore.ToggleTask | src/components/TaskManager.tsx:169-173 | only the day's partition changes, to its list with the task toggled |
| TaskManager.TaskStore.DeleteTask | src/components/TaskManager.tsx:175-177 | only the day's partition changes, to its list without the task |
| Reminders.AddReminder | src/hooks/useReminders.ts:17-27 | the list gains exactly one reminder at the end, with the given id, text, target date, time and details, and the timestamp as its creation date |
| Reminders.DeleteReminder | src/hooks/useReminders.ts:29-31 | the result holds only reminders with another id, and is the list itself when none has that id |
| Reminders.DeleteReminderKeepsOthers | src/hooks/useReminders.ts:29-31 | reminders with another id keep their multiplicity, and deleting twice is deleting once |
| Reminders.DeleteUndoesAddReminder | src/hooks/useReminders.ts:17-31 | deleting a reminder just added under a fresh id restores the list |
| Reminders.AlertLevel | src/hooks/useReminders.ts:42-49 | a distance alerts exactly at 30 (low), 15 (medium), and 7 or 0..5 (high) |
| Reminders.NearerIsMoreUrgent | src/hooks/useReminders.ts:46-49 | between two alerting distances, the nearer is never less urgent |
| Reminders.Pending | src/hooks/useReminders.ts:38-54 | every pushed alert is about a listed reminder, carries that reminder's distance, and has the urgency the rule gives it |
| Reminders.PendingCounts | src/hooks/useReminders.ts:38-54 | each reminder yields one alert per occurrence when its distance alerts and none otherwise |
| Reminders.Insert | src/hooks/useReminders.ts:57 | inserting into a sorted list keeps it sorted by distance and adds exactly that alert |
| Reminders.SortByDays | src/hooks/useReminders.ts:57 | the sort returns the alerts sorted by distance, as a permutation of its input |
| Reminders.InsertStable | src/hooks/useReminders.ts:57 | inserting keeps the order of the alerts at each distance and puts the new one last among them |
| Reminders.SortStable | src/hooks/useReminders.ts:57 | the sort is stable: the alerts at each distance keep their input order |
| Reminders.ActiveAlerts | src/hooks/useReminders.ts:34-58 | `getActiveAlerts` returns the pushed alerts sorted by distance |
| Passwords.AddPassword | src/hooks/usePasswords.ts:17-24 | the vault gains exactly one entry at the end, with the caller's site, username, password, category and notes, the given id, and the timestamp as its update time |
| Passwords.Merge | src/hooks/usePasswords.ts:28 | `{ ...p, ...updates, updatedAt }` keeps the entry's id and sets the update time; an empty update changes nothing else |
| Passwords.UpdatePassword | src/hooks/usePasswords.ts:26-30 | length and ids are kept, entries with another id are unchanged, and matching entries get the new timestamp |
| Passwords.UpdateMerges | src/hooks/usePasswords.ts:26-30 | on a matching entry each supplied field takes the new value and each unsupplied field keeps the old one |
| Passwords.UpdateIdempotent | src/hooks/usePasswords.ts:26-30 | applying the same update twice at the same time is applying it once |
| Passwords.EmptyUpdateTouches | src/hooks/usePasswords.ts:26-30 | an empty update only refreshes the timestamps of the matching entries |
| Passwords.DeletePassword | src/hooks/usePasswords.ts:32-34 | the result holds only entries with another id, and is the vault itself when none has that id |
| Passwords.DeleteAfterUpdate | src/hooks/usePasswords.ts:26-34 | deleting an updated entry gives the same vault as deleting it without the update |
| Passwords.DeleteUndoesAddPassword | src/hooks/usePasswords.ts:17-34 | deleting an entry just added under a fresh id restores the vault |
| Passwords.DeletePasswordKeepsOthers | src/hooks/usePasswords.ts:32-34 | entries with another id keep their multiplicity, and deleting twice is deleting once |
| Contacts.AddContact | src/hooks/useContacts.ts:18-21 | the list gains exactly one contact at the end, with the given id and the caller's name, phone, email, company, notes, birthday and category |
| Contacts.Merge | src/hooks/useContacts.ts:24 | `{ ...c, ...updates }` keeps the id unless the update supplies one, and an empty update changes nothing |
| Contacts.UpdateContact | src/hooks/useContacts.ts:23-25 | the length is kept, contacts with another id are unchanged, and ids are kept unless the update supplies one |
| Contacts.UpdateMerges | src/hooks/useContacts.ts:23-25 | on a matching contact each supplied field, id included, takes the new value and each unsupplied field keeps the old one |
| Contacts.UpdateIdempotent | src/hooks/useContacts.ts:23-25 | applying the same update twice is applying it once, even when it changes the id |
| Contacts.UpdateMovesId | src/hooks/useContacts.ts:23-29 | an update that gives matching contacts a new id puts them out of reach of a delete by the old id |
| Contacts.DeleteContact | src/hooks/useContacts.ts:27-29 | the result holds only contacts with another id, and is the list itself when none has that id |
| Contacts.DeleteUndoesAddContact | src/hooks/useContacts.ts:18-29 | deleting a contact just added under a fresh id restores the list |
| Contacts.DeleteContactKeepsOthers | src/hooks/useContacts.ts:27-29 | contacts with another id keep their multiplicity, and deleting twice is deleting once |

## Left out

- **The outside world.** Local storage, JSON parsing and the browser are
  the `Store` map and its three slot kinds. Which JSON values parse into
  which slot is not modelled.
- **Write-back.** The `useLocalStorage` hook writes the viewed day's list
  back through `setTasks`, and the model treats that as a direct update of
  the map. When stored data does not parse, the hook falls back to its
  initial value `[]` (src/components/TaskManager.tsx:22), and the model's
  per-day handlers read such a day as that same `[]`; how the hook detects
  the parse failure is not modelled.
- **Ids and timestamps.** `uuidv4()` and `new Date()` are the parameters
  `mint`, `id` and `now`. Fresh ids are assumed distinct from existing
  ones (the requires of the `DeleteUndoesAdd…` lemmas). Nothing is proved
  about the randomness of uuids.
- **Date arithmetic.** `date-fns` parsing, formatting and
  `differenceInCalendarDays` stand in as follows:
  - `Before` orders days;
  - `DayMonth` reads the day and month fields of the key;
  - the parameter `daysUntil` gives the distance in days.
- **Timezones.** Timezone effects of `parseISO` on local midnight are not
  modelled.
- **Invalid keys.** Partition keys whose date part is not a real calendar
  day (`Invalid Date`) are outside the `DateKey` type. The source does not
  guard them: comparisons with an invalid date are always false. The model
  does not reproduce that behaviour.
- **Extra fields.** A stored record is a `Task` with exactly its five
  fields. Extra JSON properties, which the source's spread operator would
  copy into a carried record, are not modelled.
- **Undefined properties.** `Partial<…>` updates are modelled as
  `Option` per field: `None` means the key is absent. An update that
  explicitly sets a required field to `undefined` is not modelled. The
  optional fields are a password entry's `notes` and a contact's
  `birthday`; for them, `Some(None)` clears the field. A contact's `notes`
  is a required string, so its update is a plain `Option<string>`.
- **Redundant guard.** The `JSON.stringify(merged) !== JSON.stringify(currentTasks)`
  guard at src/components/TaskManager.tsx:133 is modelled as always true:
  `merged` is strictly longer than `currentTasks` whenever it is evaluated.
- **Not part of this model.** Rendering and the other UI code are not
  modelled: `renderTaskText`, the forms, `RemindersManager`,
  `CalendarView`, `DailyLog`, `PasswordsView`, `ContactsView` and `App`.
  Neither are the Electron main process and `useLocalStorage` itself.
- **React scheduling.** When `synchronizeHistory` runs (on every change of
  the viewed day), concurrent renders and stale closures are outside the
  model. Each operation is a single step on the current state.
- **Characters.** Strings are sequences of Unicode scalar values, so `📅`
  is one character where JavaScript's UTF-16 uses two code units. This
  makes no difference to splitting on ` (📅` or trimming.
- **Behaviour the model shares with the source.** A carried copy is
  re-carried after the user deletes it. The copy's deletion removes the
  latest sighting on the viewed day, and the next pass finds the older
  incomplete sighting again. Nothing in the model prevents this, as
  nothing in the source does.
- **One exception ends the pass.** The whole of `synchronizeHistory` sits
  in one `try`/`catch` (src/components/TaskManager.tsx:41 and 139). A
  partition whose stored value does not parse, or whose parsed value cannot
  be traversed as a task list, throws inside the scan, and the `catch`
  abandons the pass before anything is written: later partitions are not
  scanned and nothing is carried. The model does the same: `Resolve`
  returns `None` and `SyncAbortsOnCorrupt` states the consequence.
- **Sorting.** `Array.prototype.sort` is modelled as a stable insertion
  sort on a sequence (`SortByDays`), specified by sortedness, permutation
  and stability. It is not modelled as an in-place array algorithm. Since
  ECMAScript 2019 the sort is required to be stable, so its result is
  determined and is the one modelled.
