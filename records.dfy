/** The shapes of the contact service: the stored row of the "contacts" table,
    the create and update request bodies, the error outcomes of the handlers,
    and the partial update that copies only the fields a caller supplied. */
module Records {

  /** An abstract clock reading; the handlers are given it as a parameter. */
  type Time = nat

  datatype Option<T> = None | Some(value: T)

  /** The outcomes a handler reports instead of a contact. */
  datatype Error =
    | NotFound        // the id names no row
    | EmailConflict   // create was given an email some row already holds
    | IntegrityError  // the unique index on email refused a commit

  function Status(e: Error): int
  {
    match e
    case NotFound => 404
    case EmailConflict => 400
    case IntegrityError => 500
  }

  function Detail(e: Error): string
  {
    match e
    case NotFound => "Contact not found"
    case EmailConflict => "Email already registered"
    case IntegrityError => "Internal Server Error"
  }

  datatype Result<T> = Ok(value: T) | Err(error: Error)

  /** A row of the "contacts" table. Every column but the key is nullable. */
  datatype Contact = Contact(
    id: int,
    name: Option<string>,
    email: Option<string>,
    phone: Option<string>,
    company: Option<string>,
    createdAt: Time,
    updatedAt: Time)

  /** Body of a create request: name and email are required. */
  datatype ContactCreate = ContactCreate(
    name: string,
    email: string,
    phone: Option<string>,
    company: Option<string>)

  /** One field of an update body: left out by the caller, or given a value
      (which may be an explicit null). */
  datatype Patch<T> = Unset | SetTo(value: T)

  /** Body of an update request: every field may be left out. */
  datatype ContactUpdate = ContactUpdate(
    name: Patch<Option<string>>,
    email: Patch<Option<string>>,
    phone: Patch<Option<string>>,
    company: Patch<Option<string>>)

  const NoChanges := ContactUpdate(Unset, Unset, Unset, Unset)

  /** The columns an update may write. */
  datatype Field = Name | Email | Phone | Company

  /** Reads one updatable column of a row. */
  function FieldOf(c: Contact, f: Field): Option<string>
  {
    match f
    case Name => c.name
    case Email => c.email
    case Phone => c.phone
    case Company => c.company
  }

  /** What the update body says about one field. */
  function Requested(u: ContactUpdate, f: Field): Patch<Option<string>>
  {
    match f
    case Name => u.name
    case Email => u.email
    case Phone => u.phone
    case Company => u.company
  }

  /** Two rows that agree on the key, the timestamps and every updatable
      column are the same row. */
  lemma SameColumnsSameRow(a: Contact, b: Contact)
    requires a.id == b.id && a.createdAt == b.createdAt && a.updatedAt == b.updatedAt
    requires forall f :: FieldOf(a, f) == FieldOf(b, f)
    ensures a == b
  {
    assert FieldOf(a, Name) == FieldOf(b, Name);
    assert FieldOf(a, Email) == FieldOf(b, Email);
    assert FieldOf(a, Phone) == FieldOf(b, Phone);
    assert FieldOf(a, Company) == FieldOf(b, Company);
  }

  /** Writes one updatable column of a row and nothing else. */
  function WithField(c: Contact, f: Field, v: Option<string>): (r: Contact)
    ensures FieldOf(r, f) == v
    ensures forall g :: g != f ==> FieldOf(r, g) == FieldOf(c, g)
    ensures r.id == c.id && r.createdAt == c.createdAt && r.updatedAt == c.updatedAt
  {
    match f
    case Name => c.(name := v)
    case Email => c.(email := v)
    case Phone => c.(phone := v)
    case Company => c.(company := v)
  }

  /** The fields the caller supplied, keyed by field, with their values. */
  function ExcludeUnset(u: ContactUpdate): (d: map<Field, Option<string>>)
    ensures forall f :: f in d <==> Requested(u, f).SetTo?
    ensures forall f :: f in d ==> d[f] == Requested(u, f).value
  {
    map f | f in {Name, Email, Phone, Company} && Requested(u, f).SetTo? :: Requested(u, f).value
  }

  /** Copies each supplied field onto the row, one at a time; columns that
      are not in `data`, the key and the timestamps keep their values. */
  method ApplyFields(c: Contact, data: map<Field, Option<string>>) returns (r: Contact)
    ensures forall f :: FieldOf(r, f) == (if f in data then data[f] else FieldOf(c, f))
    ensures r.id == c.id && r.createdAt == c.createdAt && r.updatedAt == c.updatedAt
  {
    r := c;
    var pending := data.Keys;
    while pending != {}
      invariant pending <= data.Keys
      invariant forall f :: FieldOf(r, f) == (if f in data && f !in pending then data[f] else FieldOf(c, f))
      invariant r.id == c.id && r.createdAt == c.createdAt && r.updatedAt == c.updatedAt
      decreases pending
    {
      var f :| f in pending;
      r := WithField(r, f, data[f]);
      pending := pending - {f};
    }
  }

  function Pick(d: map<Field, Option<string>>, f: Field, otherwise: Option<string>): Option<string>
  {
    if f in d then d[f] else otherwise
  }

  /** The row after a partial update at time `now`: supplied fields take the
      supplied value, every other column keeps its value, and updated_at
      becomes `now`. */
  function Patched(c: Contact, u: ContactUpdate, now: Time): (r: Contact)
    ensures forall f :: FieldOf(r, f) == (if Requested(u, f).SetTo? then Requested(u, f).value else FieldOf(c, f))
    ensures r.id == c.id && r.createdAt == c.createdAt && r.updatedAt == now
  {
    var d := ExcludeUnset(u);
    Contact(c.id, Pick(d, Name, c.name), Pick(d, Email, c.email), Pick(d, Phone, c.phone),
            Pick(d, Company, c.company), c.createdAt, now)
  }

  /** An update that supplies no field only refreshes updated_at. */
  lemma EmptyUpdateOnlyRefreshes(c: Contact, now: Time)
    ensures Patched(c, NoChanges, now) == c.(updatedAt := now)
  {
  }

  /** The row a create request inserts under key `id` at time `now`. */
  function NewRow(id: int, input: ContactCreate, now: Time): Contact
  {
    Contact(id, Some(input.name), Some(input.email), input.phone, input.company, now, now)
  }
}
