/**
 * The password vault hook: entries are appended with a fresh id and a
 * timestamp, updated by id through a field merge that refreshes the
 * timestamp, and deleted by id.
 */
module Passwords {
  import opened Wrappers
  import Lists

  datatype Category = Work | Personal | Social | Finance | Other

  /** A vault entry; `notes` is an optional field. */
  datatype PasswordEntry = PasswordEntry(id: string, site: string, username: string, password: string,
                                         category: Category, notes: Option<string>, updatedAt: string)

  /** The fields a caller supplies for a new entry: everything but the id and the timestamp. */
  datatype NewPassword = NewPassword(site: string, username: string, password: string,
                                     category: Category, notes: Option<string>)

  /**
   * A partial update: `None` leaves a field alone, `Some(v)` overwrites it
   * with `v`; for the optional `notes`, `Some(None)` clears it.
   */
  datatype PasswordUpdates = PasswordUpdates(site: Option<string>, username: Option<string>, password: Option<string>,
                                             category: Option<Category>, notes: Option<Option<string>>)

  const NoUpdates := PasswordUpdates(None, None, None, None, None)

  function IdOf(p: PasswordEntry): string {
    p.id
  }

  /** `addPassword`: the supplied fields with id `id` and timestamp `now`, after the existing entries. */
  function AddPassword(passwords: seq<PasswordEntry>, entry: NewPassword, id: string, now: string): (r: seq<PasswordEntry>)
    ensures |r| == |passwords| + 1 && r[..|passwords|] == passwords
    ensures r[|passwords|].id == id && r[|passwords|].updatedAt == now
    ensures var e := r[|passwords|];
      && e.site == entry.site && e.username == entry.username && e.password == entry.password
      && e.category == entry.category && e.notes == entry.notes
  {
    passwords + [PasswordEntry(id, entry.site, entry.username, entry.password, entry.category, entry.notes, now)]
  }

  /** `{...p, ...updates, updatedAt}`: supplied fields win, the rest are kept, the timestamp is refreshed. */
  function Merge(p: PasswordEntry, u: PasswordUpdates, now: string): (r: PasswordEntry)
    ensures r.id == p.id && r.updatedAt == now
    ensures u == NoUpdates ==> r == p.(updatedAt := now)
  {
    PasswordEntry(p.id, u.site.GetOr(p.site), u.username.GetOr(p.username), u.password.GetOr(p.password),
                  u.category.GetOr(p.category), u.notes.GetOr(p.notes), now)
  }

  /** `updatePassword`: merges the updates into every entry with that id and leaves the others alone. */
  function UpdatePassword(passwords: seq<PasswordEntry>, id: string, u: PasswordUpdates, now: string): (r: seq<PasswordEntry>)
    ensures |r| == |passwords|
    ensures forall i :: 0 <= i < |r| ==> r[i].id == passwords[i].id
    ensures forall i :: 0 <= i < |r| && passwords[i].id != id ==> r[i] == passwords[i]
    ensures forall i :: 0 <= i < |r| && passwords[i].id == id ==> r[i].updatedAt == now
  {
    seq(|passwords|, i requires 0 <= i < |passwords| =>
      if passwords[i].id == id then Merge(passwords[i], u, now) else passwords[i])
  }

  /** `deletePassword`: keeps the entries whose id differs, in order. */
  function DeletePassword(passwords: seq<PasswordEntry>, id: string): (r: seq<PasswordEntry>)
    ensures forall x :: x in r ==> x in passwords && x.id != id
    ensures (forall i :: 0 <= i < |passwords| ==> passwords[i].id != id) ==> r == passwords
  {
    Lists.Remove(passwords, IdOf, id)
  }

  /**
   * On the matching entry a supplied field takes the supplied value and an
   * unsupplied one keeps the old value.
   */
  lemma UpdateMerges(passwords: seq<PasswordEntry>, id: string, u: PasswordUpdates, now: string, i: int)
    requires 0 <= i < |passwords| && passwords[i].id == id
    ensures var p, q := passwords[i], UpdatePassword(passwords, id, u, now)[i];
      && (if u.site.Some? then q.site == u.site.value else q.site == p.site)
      && (if u.username.Some? then q.username == u.username.value else q.username == p.username)
      && (if u.password.Some? then q.password == u.password.value else q.password == p.password)
      && (if u.category.Some? then q.category == u.category.value else q.category == p.category)
      && (if u.notes.Some? then q.notes == u.notes.value else q.notes == p.notes)
  {
  }

  /** Applying the same update twice, at the same time, is applying it once. */
  lemma UpdateIdempotent(passwords: seq<PasswordEntry>, id: string, u: PasswordUpdates, now: string)
    ensures UpdatePassword(UpdatePassword(passwords, id, u, now), id, u, now) == UpdatePassword(passwords, id, u, now)
  {
  }

  /** An empty update only refreshes the timestamp of the matching entries. */
  lemma EmptyUpdateTouches(passwords: seq<PasswordEntry>, id: string, now: string)
    ensures UpdatePassword(passwords, id, NoUpdates, now) ==
      seq(|passwords|, i requires 0 <= i < |passwords| =>
        if passwords[i].id == id then passwords[i].(updatedAt := now) else passwords[i])
  {
  }

  /** Deleting an updated entry leaves the same list as deleting it without the update. */
  lemma {:induction false} DeleteAfterUpdate(passwords: seq<PasswordEntry>, id: string, u: PasswordUpdates, now: string)
    ensures DeletePassword(UpdatePassword(passwords, id, u, now), id) == DeletePassword(passwords, id)
    decreases |passwords|
  {
    if |passwords| > 0 {
      var r := UpdatePassword(passwords, id, u, now);
      assert r[1..] == UpdatePassword(passwords[1..], id, u, now);
      DeleteAfterUpdate(passwords[1..], id, u, now);
    }
  }

  /** Deleting an entry just added with a fresh id restores the list. */
  lemma DeleteUndoesAddPassword(passwords: seq<PasswordEntry>, entry: NewPassword, id: string, now: string)
    requires forall x :: x in passwords ==> x.id != id
    ensures DeletePassword(AddPassword(passwords, entry, id, now), id) == passwords
  {
    var added := PasswordEntry(id, entry.site, entry.username, entry.password, entry.category, entry.notes, now);
    Lists.RemoveAppend(passwords, [added], IdOf, id);
  }

  /** Deleting keeps every entry with another id as often as it occurs, and deleting twice is deleting once. */
  lemma DeletePasswordKeepsOthers(passwords: seq<PasswordEntry>, id: string, x: PasswordEntry)
    ensures multiset(DeletePassword(passwords, id))[x] == if x.id == id then 0 else multiset(passwords)[x]
    ensures DeletePassword(DeletePassword(passwords, id), id) == DeletePassword(passwords, id)
  {
    Lists.RemoveCount(passwords, IdOf, id, x);
    Lists.RemoveIdempotent(passwords, IdOf, id);
  }
}
