/** Clients of the store that walk through short sessions of requests and
    check, from the handlers' contracts alone, what each of them returns. */
module Scenario {
  import opened Records
  import opened Text
  import opened Table
  import opened Handlers

  /** Create, duplicate create, read, partial update, delete, read again. */
  method Lifecycle()
  {
    var store := new ContactStore();
    var ann := ContactCreate("Ann", "a@x.com", None, None);

    // A first create succeeds and stamps both timestamps with the same time.
    var created := store.CreateContact(ann, 10);
    assert !HoldsEmail(map[], "a@x.com");
    assert created.Ok?;
    var id := created.value.id;
    assert created.value.createdAt == created.value.updatedAt;

    // The same email again is refused with 400 and changes nothing.
    var again := store.CreateContact(ann, 11);
    assert again == Err(EmailConflict) && Status(again.error) == 400;
    assert store.GetContact(id) == Ok(created.value);

    // A partial update sets the company and moves updated_at forward only.
    var acme := ContactUpdate(Unset, Unset, Unset, SetTo(Some("Acme")));
    assert FieldOf(Patched(created.value, acme, 12), Email) == Some("a@x.com");
    assert !EmailClash(map[id := created.value], id, "a@x.com");
    var updated := store.UpdateContact(id, acme, 12);
    assert updated.Ok?;
    assert FieldOf(updated.value, Company) == Some("Acme");
    assert FieldOf(updated.value, Name) == Some("Ann");
    assert updated.value.updatedAt > updated.value.createdAt;

    // Deleting confirms by id, and the row is gone afterwards.
    var deleted := store.DeleteContact(id);
    assert deleted == Ok(DeleteMessage(id));
    assert store.GetContact(id) == Err(NotFound);
  }

  /** An update that takes over another contact's email passes the handler
      and fails at the unique index, leaving the table as it was. */
  method EmailTakeover(ann: Contact, bob: Contact)
    requires ann.id == 1 && bob.id == 2
    requires ann.email == Some("a@x.com") && bob.email == Some("b@x.com")
  {
    var store := new ContactStore();
    store.rows, store.nextId := map[1 := ann, 2 := bob], 3;
    assert store.Valid();
    var steal := ContactUpdate(Unset, SetTo(Some("a@x.com")), Unset, Unset);
    assert FieldOf(Patched(bob, steal, 14), Email) == Some("a@x.com");
    assert EmailClash(store.rows, 2, "a@x.com") by {
      assert 1 in store.rows && store.rows[1].email == Some("a@x.com");
    }
    var stolen := store.UpdateContact(2, steal, 14);
    assert stolen == Err(IntegrityError) && Status(stolen.error) == 500;
    assert store.rows == map[1 := ann, 2 := bob];
  }

  /** Search matches the company column whatever the letter case. */
  method SearchByCompany(store: ContactStore, c: Contact)
    requires store.Valid() && Stored(store.rows, c)
    requires c.company == Some("Initech")
  {
    assert Contains(Lower("Initech"), Lower("INIT")) by {
      assert Lower("Initech")[..4] == Lower("INIT");
      assert OccursAt(Lower("Initech"), Lower("INIT"), 0);
    }
    assert c in store.SearchContacts("INIT");
  }
}
