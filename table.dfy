/** The "contacts" table as a value: a map from id to row. The functions here
    are what the handlers' queries compute over it, and the lemmas state the
    email-uniqueness facts that create and update depend on. */
module Table {
  import opened Records
  import opened Text

  type Rows = map<int, Contact>

  /** Every row is stored under its own id. */
  ghost predicate KeyedById(rows: Rows)
  {
    forall id :: id in rows ==> rows[id].id == id
  }

  /** `c` is the row the table holds under `c.id`. */
  ghost predicate Stored(rows: Rows, c: Contact)
  {
    c.id in rows && rows[c.id] == c
  }

  /** Strictly ascending ids: the order of a primary-key scan. */
  ghost predicate IdsIncreasing(s: seq<Contact>)
  {
    forall i, j :: 0 <= i < j < |s| ==> s[i].id < s[j].id
  }

  // ---------------------------------------------------------------- listing

  /** The rows with ids in [lo, hi), in ascending id order. */
  function Scan(rows: Rows, lo: int, hi: int): seq<Contact>
    decreases hi - lo
  {
    if hi <= lo then [] else (if lo in rows then [rows[lo]] else []) + Scan(rows, lo + 1, hi)
  }

  ghost function KeysIn(rows: Rows, lo: int, hi: int): set<int>
  {
    set id | id in rows.Keys && lo <= id < hi
  }

  /** A scan yields exactly the stored rows whose ids lie in [lo, hi), each
      once, in ascending id order. */
  lemma {:induction false} ScanExact(rows: Rows, lo: int, hi: int)
    requires KeyedById(rows)
    ensures forall c :: c in Scan(rows, lo, hi) <==> lo <= c.id < hi && Stored(rows, c)
    ensures IdsIncreasing(Scan(rows, lo, hi))
    ensures |Scan(rows, lo, hi)| == |KeysIn(rows, lo, hi)|
    decreases hi - lo
  {
    if lo < hi {
      ScanExact(rows, lo + 1, hi);
      var head := if lo in rows then [rows[lo]] else [];
      var rest := Scan(rows, lo + 1, hi);
      assert Scan(rows, lo, hi) == head + rest;
      assert forall c :: c in rest ==> lo < c.id;
      var here := if lo in rows then {lo} else {};
      assert KeysIn(rows, lo, hi) == here + KeysIn(rows, lo + 1, hi);
      assert here !! KeysIn(rows, lo + 1, hi);
    } else {
      assert KeysIn(rows, lo, hi) == {};
    }
  }

  /** Where an offset of `skip` starts in a sequence of length `n`: a negative
      offset counts as zero and one past the end stops at the end. */
  function Offset(skip: int, n: nat): (k: nat)
    ensures k <= n
    ensures 0 <= skip <= n ==> k == skip
    ensures skip > n ==> k == n
  {
    if skip < 0 then 0 else if skip > n then n else skip
  }

  /** The `.offset(skip).limit(limit)` window of `s`; a negative limit puts no
      bound on the number of rows. */
  function Window<T>(s: seq<T>, skip: int, limit: int): (r: seq<T>)
    ensures Offset(skip, |s|) + |r| <= |s|
    ensures r == s[Offset(skip, |s|)..Offset(skip, |s|) + |r|]
    ensures limit >= 0 ==> |r| <= limit
    ensures (limit < 0 || |r| < limit) ==> Offset(skip, |s|) + |r| == |s|
    ensures skip >= |s| ==> r == []
  {
    var start := Offset(skip, |s|);
    var end := if limit < 0 || limit >= |s| - start then |s| else start + limit;
    s[start..end]
  }

  /** A contiguous piece of an ascending sequence is ascending. */
  lemma SliceIdsIncreasing(s: seq<Contact>, a: int, b: int)
    requires 0 <= a <= b <= |s| && IdsIncreasing(s)
    ensures IdsIncreasing(s[a..b])
  {
  }

  // ---------------------------------------------------------------- search

  /** A nullable column matches when it holds the query as a substring,
      both compared in lower case; a null column matches nothing. */
  predicate FieldMatches(field: Option<string>, q: string)
  {
    field.Some? && Contains(Lower(field.value), Lower(q))
  }

  /** The search filter: name, email or company matches. */
  predicate Matches(c: Contact, q: string)
  {
    FieldMatches(c.name, q) || FieldMatches(c.email, q) || FieldMatches(c.company, q)
  }

  /** The rows of `s` that match `q`, in the order of `s`. */
  function Filter(s: seq<Contact>, q: string): (r: seq<Contact>)
    ensures forall c :: c in r <==> c in s && Matches(c, q)
    ensures |r| <= |s|
    ensures IdsIncreasing(s) ==> IdsIncreasing(r)
  {
    if s == [] then []
    else
      var rest := Filter(s[1..], q);
      assert IdsIncreasing(s) ==> forall c :: c in rest ==> s[0].id < c.id by {
        if IdsIncreasing(s) {
          forall c | c in rest ensures s[0].id < c.id {
            var k :| 0 <= k < |s[1..]| && s[1..][k] == c;
            assert s[k + 1] == c;
          }
        }
      }
      (if Matches(s[0], q) then [s[0]] else []) + rest
  }

  /** The query's letter case does not change which rows match. */
  lemma MatchesIgnoresQueryCase(c: Contact, q: string)
    ensures Matches(c, q) <==> Matches(c, Lower(q))
  {
    LowerIdempotent(q);
  }

  /** The empty query matches every row with a non-null name, email or
      company. */
  lemma EmptyQueryMatches(c: Contact)
    ensures Matches(c, "") <==> c.name.Some? || c.email.Some? || c.company.Some?
  {
  }

  // ---------------------------------------------------------- email uniqueness

  /** No two rows hold the same non-null email (the unique index on email;
      like SQL, it does not compare nulls). */
  ghost predicate EmailsUnique(rows: Rows)
  {
    forall a, b :: a in rows && b in rows && a != b && rows[a].email.Some? ==> rows[a].email != rows[b].email
  }

  /** Some row holds email `e`: create's duplicate check. */
  predicate HoldsEmail(rows: Rows, e: string)
  {
    exists k :: k in rows && rows[k].email == Some(e)
  }

  /** Some row other than `id` holds email `e`: what the unique index
      refuses when row `id` is rewritten with email `e`. */
  predicate EmailClash(rows: Rows, id: int, e: string)
  {
    exists k :: k in rows && k != id && rows[k].email == Some(e)
  }

  /** Inserting a new row under a fresh id keeps emails unique exactly when
      no row already holds its email. */
  lemma InsertKeepsEmailsUnique(rows: Rows, c: Contact)
    requires EmailsUnique(rows) && c.id !in rows && c.email.Some?
    ensures EmailsUnique(rows[c.id := c]) <==> !HoldsEmail(rows, c.email.value)
  {
    if HoldsEmail(rows, c.email.value) {
      var k :| k in rows && rows[k].email == c.email;
      assert rows[c.id := c][c.id].email == rows[c.id := c][k].email;
    }
  }

  /** Rewriting row `id` keeps emails unique exactly when its new email is
      null or held by no other row. */
  lemma ReplaceKeepsEmailsUnique(rows: Rows, id: int, c: Contact)
    requires EmailsUnique(rows) && id in rows
    ensures EmailsUnique(rows[id := c]) <==> !(c.email.Some? && EmailClash(rows, id, c.email.value))
  {
    if c.email.Some? && EmailClash(rows, id, c.email.value) {
      var k :| k in rows && k != id && rows[k].email == c.email;
      assert rows[id := c][id].email == rows[id := c][k].email;
    }
  }

  /** The update handler's own logic does not protect uniqueness: patching
      row `a` with the email of another row `b` leaves two rows sharing it. */
  lemma PatchCanBreakEmailsUnique(rows: Rows, a: int, b: int, now: Time)
    requires EmailsUnique(rows) && a in rows && b in rows && a != b && rows[b].email.Some?
    ensures !EmailsUnique(rows[a := Patched(rows[a], ContactUpdate(Unset, SetTo(rows[b].email), Unset, Unset), now)])
  {
    var u := ContactUpdate(Unset, SetTo(rows[b].email), Unset, Unset);
    var after := rows[a := Patched(rows[a], u, now)];
    assert FieldOf(after[a], Email) == rows[b].email;
    assert after[a].email == after[b].email;
  }
}
