/**
 * The contacts hook: contacts are appended with a fresh id, updated by id
 * through a field merge that may overwrite the id itself, and deleted by id.
 */
module Contacts {
  import opened Wrappers
  import Lists

  datatype ContactCategory = PersonalContact | WorkContact | Vip | OtherContact

  /** A contact; `birthday` is an optional field. */
  datatype Contact = Contact(id: string, name: string, phone: string, email: string, company: string,
                             notes: string, birthday: Option<string>, category: ContactCategory)

  /** The fields a caller supplies for a new contact: everything but the id. */
  datatype NewContact = NewContact(name: string, phone: string, email: string, company: string,
                                   notes: string, birthday: Option<string>, category: ContactCategory)

  /**
   * A partial contact: `None` leaves a field alone, `Some(v)` overwrites it;
   * the id is among the fields, and `Some(None)` clears the birthday.
   */
  datatype ContactUpdates = ContactUpdates(id: Option<string>, name: Option<string>, phone: Option<string>,
                                           email: Option<string>, company: Option<string>, notes: Option<string>,
                                           birthday: Option<Option<string>>, category: Option<ContactCategory>)

  const NoContactUpdates := ContactUpdates(None, None, None, None, None, None, None, None)

  function IdOf(c: Contact): string {
    c.id
  }

  /** `addContact`: the supplied fields with id `id`, after the existing contacts. */
  function AddContact(contacts: seq<Contact>, contact: NewContact, id: string): (r: seq<Contact>)
    ensures |r| == |contacts| + 1 && r[..|contacts|] == contacts && r[|contacts|].id == id
    ensures var c := r[|contacts|];
      && c.name == contact.name && c.phone == contact.phone && c.email == contact.email
      && c.company == contact.company && c.notes == contact.notes && c.birthday == contact.birthday
      && c.category == contact.category
  {
    contacts + [Contact(id, contact.name, contact.phone, contact.email, contact.company,
                        contact.notes, contact.birthday, contact.category)]
  }

  /** `{...c, ...updatedContact}`: supplied fields win, the rest are kept. */
  function Merge(c: Contact, u: ContactUpdates): (r: Contact)
    ensures u.id.None? ==> r.id == c.id
    ensures u == NoContactUpdates ==> r == c
  {
    Contact(u.id.GetOr(c.id), u.name.GetOr(c.name), u.phone.GetOr(c.phone), u.email.GetOr(c.email),
            u.company.GetOr(c.company), u.notes.GetOr(c.notes), u.birthday.GetOr(c.birthday),
            u.category.GetOr(c.category))
  }

  /** `updateContact`: merges the updates into every contact with that id and leaves the others alone. */
  function UpdateContact(contacts: seq<Contact>, id: string, u: ContactUpdates): (r: seq<Contact>)
    ensures |r| == |contacts|
    ensures forall i :: 0 <= i < |r| && contacts[i].id != id ==> r[i] == contacts[i]
    ensures u.id.None? ==> forall i :: 0 <= i < |r| ==> r[i].id == contacts[i].id
  {
    seq(|contacts|, i requires 0 <= i < |contacts| =>
      if contacts[i].id == id then Merge(contacts[i], u) else contacts[i])
  }

  /** `deleteContact`: keeps the contacts whose id differs, in order. */
  function DeleteContact(contacts: seq<Contact>, id: string): (r: seq<Contact>)
    ensures forall x :: x in r ==> x in contacts && x.id != id
    ensures (forall i :: 0 <= i < |contacts| ==> contacts[i].id != id) ==> r == contacts
  {
    Lists.Remove(contacts, IdOf, id)
  }

  /**
   * On a matching contact a supplied field, the id included, takes the
   * supplied value and an unsupplied one keeps the old value.
   */
  lemma UpdateMerges(contacts: seq<Contact>, id: string, u: ContactUpdates, i: int)
    requires 0 <= i < |contacts| && contacts[i].id == id
    ensures var c, d := contacts[i], UpdateContact(contacts, id, u)[i];
      && (if u.id.Some? then d.id == u.id.value else d.id == c.id)
      && (if u.name.Some? then d.name == u.name.value else d.name == c.name)
      && (if u.phone.Some? then d.phone == u.phone.value else d.phone == c.phone)
      && (if u.email.Some? then d.email == u.email.value else d.email == c.email)
      && (if u.company.Some? then d.company == u.company.value else d.company == c.company)
      && (if u.notes.Some? then d.notes == u.notes.value else d.notes == c.notes)
      && (if u.birthday.Some? then d.birthday == u.birthday.value else d.birthday == c.birthday)
      && (if u.category.Some? then d.category == u.category.value else d.category == c.category)
  {
  }

  /**
   * Applying the same update twice is applying it once, even when it moves
   * the contacts to another id: after the first, either no contact has the
   * old id any more or the id was kept and the merge is already in place.
   */
  lemma UpdateIdempotent(contacts: seq<Contact>, id: string, u: ContactUpdates)
    ensures UpdateContact(UpdateContact(contacts, id, u), id, u) == UpdateContact(contacts, id, u)
  {
  }

  /** An update that moves a contact to a new id takes it out of reach of a delete by the old id. */
  lemma UpdateMovesId(contacts: seq<Contact>, id: string, u: ContactUpdates)
    requires u.id.Some? && u.id.value != id
    ensures DeleteContact(UpdateContact(contacts, id, u), id) == UpdateContact(contacts, id, u)
  {
  }

  /** Deleting a contact just added with a fresh id restores the list. */
  lemma DeleteUndoesAddContact(contacts: seq<Contact>, contact: NewContact, id: string)
    requires forall x :: x in contacts ==> x.id != id
    ensures DeleteContact(AddContact(contacts, contact, id), id) == contacts
  {
    var added := Contact(id, contact.name, contact.phone, contact.email, contact.company,
                         contact.notes, contact.birthday, contact.category);
    Lists.RemoveAppend(contacts, [added], IdOf, id);
  }

  /** Deleting keeps every contact with another id as often as it occurs, and deleting twice is deleting once. */
  lemma DeleteContactKeepsOthers(contacts: seq<Contact>, id: string, x: Contact)
    ensures multiset(DeleteContact(contacts, id))[x] == if x.id == id then 0 else multiset(contacts)[x]
    ensures DeleteContact(DeleteContact(contacts, id), id) == DeleteContact(contacts, id)
  {
    Lists.RemoveCount(contacts, IdOf, id, x);
    Lists.RemoveIdempotent(contacts, IdOf, id);
  }
}
