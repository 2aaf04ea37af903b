# Contact store of the CRM API, modelled in Dafny

The CRM API keeps contact records in one SQLite table, "contacts". Each row
has an integer id (the primary key), a name, an email (under a unique
index), an optional phone and company, and `created_at`/`updated_at`
timestamps. The HTTP handlers work on that table:

- create a contact, refused with 400 "Email already registered" when some
  row already holds the email;
- read one contact by id, 404 "Contact not found" when it is absent;
- list an offset/limit window of the rows (defaults 0 and 100);
- partially update a contact, copying only the fields the caller supplied
  and setting `updated_at`;
- delete a contact, confirmed by "Contact {id} deleted successfully";
- search name, email and company for a case-insensitive substring.

The model has these modules:

- `Text` (`text.dfy`): ASCII lower-casing, a substring test proved equal to
  its reference definition, and decimal rendering of integers with a
  read-back round trip.
- `Records` (`records.dfy`): the row, the create and update bodies, the
  error outcomes, and the partial update. `ExcludeUnset` turns an update
  body into the map of supplied fields. `ApplyFields` is the
  `setattr` loop over that map, proved equal field by field to the
  reference `Patched`.
- `Table` (`table.dfy`): the table as a `map<int, Contact>` value. It holds
  the primary-key scan, the offset/limit window, the search filter and the
  email-uniqueness lemmas.
- `Handlers` (`handlers.dfy`): class `ContactStore` with two fields: the
  row map and the id allocator. The queries are functions of its state.
  Create, update and delete are methods whose contracts give the whole new
  table, for success and for each error. The object invariant `Valid()`
  includes "no two rows share a non-null email".
- `Scenario` (`scenario.dfy`): client methods that derive a session's
  responses from the contracts alone.

Time is an abstract natural number passed to the handlers that need it.

Behaviour that follows the code where one might expect otherwise:

- Update does not check the new email against other rows, unlike create.
  Only the unique index on the email column stops a duplicate. The commit
  then fails and the session is rolled back, so the caller gets an
  unhandled 500 and the table is unchanged. `UpdateContact` models this as
  `IntegrityError`. `PatchCanBreakEmailsUnique` shows that the handler's
  own logic, without the index, would let two rows share an email.
- An update body may set any field, name and email included, to an
  explicit null, and that null is written. So stored rows have nullable
  name and email. Search never matches a null column, so the empty query
  matches only rows with at least one non-null name, email or company.
  (The search route cannot carry an empty query, because a path segment
  needs at least one character. The lemma states what the filter itself
  does.)
- The create body takes any string as name, the empty one included.
- Ids are promised only to be unused at insertion. SQLite may reuse the
  id of a deleted highest row, because the key is declared without
  AUTOINCREMENT.
- Within SQLite's 64-bit integer range, a negative `skip` counts as 0 and
  a negative `limit` means no bound. These are SQLite's rules for OFFSET
  and LIMIT. Values outside that range are listed under "Left out".
- The list and search queries have no ORDER BY. SQL does not promise an
  order here. The model uses ascending id, the order SQLite's scan of a
  rowid table returns.
- The constructor models the first start, with an empty table.
  `create_all` keeps the rows already in the database file, so a later
  start resumes with those rows.
- Nothing forces successive clock readings to increase. So
  `updated_at >= created_at` holds only when the caller's clock does not go
  backwards.

## Model

| member | source | states |
|---|---|---|
| `Text.Lower` | main.py:174-176 | ASCII lower-casing: same length, each character lowered, and no upper-case letter left in the result |
| `Text.LowerIdempotent` | main.py:174-176 | lower-casing an already lower-cased string changes nothing |
| `Text.Contains` | main.py:174-176 | the `%q%` pattern test holds exactly when `q` occurs at some position of the string |
| `Text.NatToString` | main.py:165 | an integer's f-string rendering is a non-empty digit string with no leading zero |
| `Text.NatToStringRoundTrip` | main.py:165 | reading the decimal rendering back gives the number |
| `Records.WithField` | main.py:146 | `setattr` of one field writes that column and leaves every other column, the id and both timestamps alone |
| `Records.ExcludeUnset` | main.py:144 | `dict(exclude_unset=True)` holds exactly the supplied fields, with their supplied values (an explicit null included) |
| `Records.ApplyFields` | main.py:145-146 | after the loop over the supplied fields, each supplied column holds its value and every other column, the id and the timestamps are unchanged |
| `Records.Patched` | main.py:143-148 | a partial update changes exactly the supplied fields, keeps id and created_at, and sets updated_at to the clock reading |
| `Records.EmptyUpdateOnlyRefreshes` | main.py:143-148 | an update with no supplied field changes only updated_at |
| `Table.ScanExact` | main.py:102 | a primary-key scan returns every stored row in the id range, and nothing else, once each, in strictly ascending id order, as many as there are keys |
| `Table.Window` | main.py:97-103 | `.offset(skip).limit(limit)` returns a contiguous run starting at the clamped offset, no longer than a non-negative limit, running to the end when it is shorter, and empty when skip is past the end |
| `Table.Filter` | main.py:173-177 | the search filter keeps exactly the rows that match and never returns more rows than it was given; an id-ordered input gives an id-ordered result |
| `Table.MatchesIgnoresQueryCase` | main.py:174-176 | lower-casing the query does not change which rows match |
| `Table.EmptyQueryMatches` | main.py:173-177 | the empty query matches a row exactly when its name, email or company is non-null |
| `Table.InsertKeepsEmailsUnique` | main.py:122-129 | inserting a row under a fresh id keeps emails unique exactly when no row already holds its email |
| `Table.ReplaceKeepsEmailsUnique` | main.py:26 | rewriting a row keeps emails unique exactly when its new email is null or held by no other row |
| `Table.PatchCanBreakEmailsUnique` | main.py:143-146 | without the unique index, an update giving one row another row's email leaves two rows sharing it |
| `Handlers.ReadRoot` | main.py:87-94 | the root endpoint reports version "1.0.0" and the two contact endpoints, without reading the table |
| `Handlers.DeleteMessageNamesId` | main.py:165 | the delete confirmation is "Contact ", the id's digits, then " deleted successfully", and the digits read back as the id |
| `Handlers.ContactStore.constructor` | main.py:54-55 | on first start the store holds an empty table and satisfies the invariant |
| `Handlers.ContactStore.Ordered` | main.py:102 | the table in scan order holds exactly the stored rows, one per key, in ascending id order (SQLite's rowid scan order; the query has no ORDER BY) |
| `Handlers.ContactStore.GetContact` | main.py:105-114 | get succeeds exactly when the id is stored, returning that row; otherwise it is NotFound, 404 "Contact not found" |
| `Handlers.ContactStore.GetContacts` | main.py:96-103 | the list is the window of the id-ordered table at the clamped offset: at most `limit` rows, empty when skip is at least the row count, all stored, ascending |
| `Handlers.ContactStore.DefaultPage` | main.py:97 | with the default skip 0 and limit 100, the list is the first min(100, row count) rows in id order |
| `Handlers.ContactStore.SearchContacts` | main.py:167-178 | search returns exactly the stored rows whose name, email or company holds the query ignoring ASCII case, in ascending id order |
| `Handlers.ContactStore.CreateContact` | main.py:116-131 | create fails with EmailConflict exactly when some row holds the email, changing neither the table nor the id allocator; otherwise it adds one row under an unused id, with the input's fields and created_at == updated_at == now, and every other row unchanged; the invariant (including unique emails) is kept |
| `Handlers.ContactStore.UpdateContact` | main.py:133-151 | an absent id gives NotFound and no change to the table or the id allocator; otherwise the row becomes the partial update of itself unless its new email is held by another row, in which case the commit fails (IntegrityError) and nothing changes; other rows never change |
| `Handlers.ContactStore.DeleteContact` | main.py:153-165 | an absent id gives NotFound and no change to the table or the id allocator; otherwise exactly that row is removed and the confirmation names the id |

## Left out

- The web application object, route decorators, CORS middleware and
  server entry point (main.py:58-71, main.py:180-182): transport plumbing.
- Engine and session setup, the per-request session, `commit`, `refresh`
  and `close` (main.py:11-14, main.py:74-83). Their effect on the table
  is modelled; a failed commit is a rollback that leaves the table
  unchanged.
- Request-body validation and its 422 responses: inputs are typed records.
  Response-model validation is also left out. Once an update has set a
  row's name or email to null, the commit goes through but the response
  fails with a 500. From then on `GET /contacts/{id}` for that row also
  fails with a 500. So does `GET /contacts` for every window that contains
  the row, and the whole page is lost, not just that row. The search
  endpoint has no response model and is unaffected. The model returns the
  stored rows.
- The wall clock `datetime.utcnow`: a `Time` parameter stands for it.
- Handlers.ContactStore.CreateContact: promises only an unused id of at
  least 1, not SQLite's "largest id plus one" rule nor its random fallback
  at the largest 64-bit id. It stamps both timestamps with one clock
  reading, whereas the column defaults read the clock once per column.
- `ilike` treats `%` and `_` in the query as wildcards and case-folds by the
  database's rules; the model matches the query literally with ASCII
  lower-casing, which is what SQLite's `lower()` does.
- Handlers.ContactStore.GetContact, Handlers.ContactStore.GetContacts,
  Handlers.ContactStore.UpdateContact, Handlers.ContactStore.DeleteContact:
  SQLite integers are 64-bit and the model's are unbounded. In the source, an
  id, `skip` or `limit` outside [-2^63, 2^63-1] makes the database driver
  raise OverflowError when it binds the parameter. The client then gets
  a 500. The model accepts every integer instead: such an id gives
  NotFound, and such a `skip` or `limit` is clamped as above.
- The check-then-insert race between concurrent creates, and every storage
  failure other than the unique index on email: concurrency and I/O are
  outside a sequential model.
