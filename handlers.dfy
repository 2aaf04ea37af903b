/** The request handlers of the contact service over one store object: the
    "contacts" table (a map from id to row) and the id allocator. Queries are
    functions of the store's state; create, update and delete are methods that
    change it, and on every failure they leave it as it was. */
module Handlers {
  import opened Records
  import opened Text
  import opened Table

  /** Defaults of the list endpoint's query parameters. */
  const DefaultSkip := 0
  const DefaultLimit := 100

  /** The static metadata served at the root path. */
  datatype RootInfo = RootInfo(message: string, version: string, endpoints: seq<string>)

  function ReadRoot(): (r: RootInfo)
    ensures r.version == "1.0.0"
    ensures r.endpoints == ["/contacts", "/contacts/{id}"]
  {
    RootInfo("CRM API is running", "1.0.0", ["/contacts", "/contacts/{id}"])
  }

  /** The confirmation a successful delete returns. */
  function DeleteMessage(id: int): string
  {
    "Contact " + IntToString(id) + " deleted successfully"
  }

  /** The delete confirmation names the deleted id: it reads back as that id
      between the fixed prefix and suffix. */
  lemma DeleteMessageNamesId(id: int)
    requires id >= 0
    ensures var m := DeleteMessage(id);
      && |m| > 29
      && m[..8] == "Contact "
      && m[|m| - 21..] == " deleted successfully"
      && IsDigits(m[8..|m| - 21])
      && DigitsValue(m[8..|m| - 21]) == id
  {
    var m := DeleteMessage(id);
    assert m[8..|m| - 21] == NatToString(id);
    NatToStringRoundTrip(id);
  }

  class ContactStore {
    /** The rows of the table, keyed by id. */
    var rows: Rows
    /** The id allocator: every id in use lies below it. */
    var nextId: int

    ghost predicate Valid()
      reads this
    {
      && 1 <= nextId
      && (forall id :: id in rows ==> 1 <= id < nextId)
      && KeyedById(rows)
      && EmailsUnique(rows)
    }

    constructor ()
      ensures Valid() && rows == map[]
    {
      rows := map[];
      nextId := 1;
    }

    /** The rows in primary-key order, the order a table scan returns. */
    function Ordered(): (r: seq<Contact>)
      reads this
      requires Valid()
      ensures forall c :: c in r <==> Stored(rows, c)
      ensures IdsIncreasing(r)
      ensures |r| == |rows|
    {
      ScanExact(rows, 1, nextId);
      assert KeysIn(rows, 1, nextId) == rows.Keys;
      Scan(rows, 1, nextId)
    }

    /** GET /contacts/{id}: the row stored under `id`, or NotFound. */
    function GetContact(id: int): (r: Result<Contact>)
      reads this
      requires Valid()
      ensures r.Ok? <==> id in rows
      ensures r.Ok? ==> Stored(rows, r.value) && r.value.id == id
      ensures r.Err? ==> r.error == NotFound && Status(r.error) == 404 && Detail(r.error) == "Contact not found"
    {
      if id in rows then Ok(rows[id]) else Err(NotFound)
    }

    /** GET /contacts?skip=&limit=: a window of the rows in primary-key order. */
    function GetContacts(skip: int, limit: int): (r: seq<Contact>)
      reads this
      requires Valid()
      ensures limit >= 0 ==> |r| <= limit
      ensures skip >= |rows| ==> r == []
      ensures Offset(skip, |rows|) + |r| <= |rows|
      ensures r == Ordered()[Offset(skip, |rows|)..Offset(skip, |rows|) + |r|]
      ensures (limit < 0 || |r| < limit) ==> Offset(skip, |rows|) + |r| == |rows|
      ensures forall c :: c in r ==> Stored(rows, c)
      ensures IdsIncreasing(r)
    {
      var all := Ordered();
      var r := Window(all, skip, limit);
      SliceIdsIncreasing(all, Offset(skip, |all|), Offset(skip, |all|) + |r|);
      r
    }

    /** The list endpoint without query parameters returns the first 100 rows
        in primary-key order, or all of them when there are fewer. */
    lemma DefaultPage()
      requires Valid()
      ensures var r := GetContacts(DefaultSkip, DefaultLimit);
        && |r| == (if |rows| < 100 then |rows| else 100)
        && r == Ordered()[..|r|]
    {
    }

    /** GET /contacts/search/{query}: the rows whose name, email or company
        holds the query, ignoring ASCII letter case, in primary-key order. */
    function SearchContacts(q: string): (r: seq<Contact>)
      reads this
      requires Valid()
      ensures forall c :: c in r <==> Stored(rows, c) && Matches(c, q)
      ensures IdsIncreasing(r)
    {
      Filter(Ordered(), q)
    }

    /** POST /contacts: rejects an email some row holds; otherwise inserts a
        row built from the input under an id not in use. */
    method CreateContact(input: ContactCreate, now: Time) returns (r: Result<Contact>)
      requires Valid()
      modifies this
      ensures Valid()
      ensures r.Err? <==> old(HoldsEmail(rows, input.email))
      ensures r.Err? ==> r.error == EmailConflict && rows == old(rows) && nextId == old(nextId)
      ensures r.Ok? ==>
        && r.value.id !in old(rows) && r.value.id >= 1
        && r.value.name == Some(input.name) && r.value.email == Some(input.email)
        && r.value.phone == input.phone && r.value.company == input.company
        && r.value.createdAt == now && r.value.updatedAt == now
        && rows == old(rows)[r.value.id := r.value]
    {
      if HoldsEmail(rows, input.email) {
        return Err(EmailConflict);
      }
      var c := NewRow(nextId, input, now);
      InsertKeepsEmailsUnique(rows, c);
      rows := rows[nextId := c];
      nextId := nextId + 1;
      r := Ok(c);
    }

    /** PUT /contacts/{id}: NotFound for an absent id; otherwise the supplied
        fields are copied onto the row and updated_at is set to `now`. The
        handler does not check the new email; the unique index on email does,
        and a clash fails the commit, which leaves the table as it was. */
    method UpdateContact(id: int, u: ContactUpdate, now: Time) returns (r: Result<Contact>)
      requires Valid()
      modifies this
      ensures Valid()
      ensures id !in old(rows) ==> r == Err(NotFound) && rows == old(rows) && nextId == old(nextId)
      ensures id in old(rows) ==>
        var p := Patched(old(rows)[id], u, now);
        if p.email.Some? && EmailClash(old(rows), id, p.email.value)
        then r == Err(IntegrityError) && rows == old(rows) && nextId == old(nextId)
        else r == Ok(p) && rows == old(rows)[id := p]
    {
      if id !in rows {
        return Err(NotFound);
      }
      var row := ApplyFields(rows[id], ExcludeUnset(u));
      row := row.(updatedAt := now);
      SameColumnsSameRow(row, Patched(rows[id], u, now));
      if row.email.Some? && EmailClash(rows, id, row.email.value) {
        return Err(IntegrityError);
      }
      ReplaceKeepsEmailsUnique(rows, id, row);
      rows := rows[id := row];
      r := Ok(row);
    }

    /** DELETE /contacts/{id}: NotFound for an absent id; otherwise removes
        exactly that row and confirms with a message naming the id. */
    method DeleteContact(id: int) returns (r: Result<string>)
      requires Valid()
      modifies this
      ensures Valid()
      ensures id !in old(rows) ==> r == Err(NotFound) && rows == old(rows) && nextId == old(nextId)
      ensures id in old(rows) ==> r == Ok(DeleteMessage(id)) && rows == old(rows) - {id}
    {
      if id !in rows {
        return Err(NotFound);
      }
      rows := rows - {id};
      r := Ok(DeleteMessage(id));
    }
  }
}
