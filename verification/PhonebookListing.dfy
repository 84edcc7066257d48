/** Counting and listing the contacts of a phonebook, with or without a search. */
module PhonebookListing {
  import opened Wrappers
  import opened FirstOccurrences
  import opened ContactRows
  import opened ContactStore
  import opened PhonebookContacts

  /** How the database compares a value with the search pattern. */
  type Search = Option<string -> bool>

  predicate Shows(db: Database, u: Uuid, like: string -> bool) {
    exists r | r in db.rows :: r.uuid == u && like(r.value)
  }

  /** `_query_contacts`: the contacts of the phonebook that pass `contact_search_filter`. */
  function Searched(db: Database, p: Uuid, search: Search): set<Uuid> {
    set u | u in db.contacts && db.contacts[u].owner == Phonebook(p) && (search.None? || Shows(db, u, search.value))
  }

  /** `_query_contact_fields`: all the rows of these contacts, and not only the rows that match. */
  function SearchedRows(db: Database, p: Uuid, search: Search): set<Row> {
    set r | r in db.rows && r.uuid in Searched(db, p, search)
  }

  /** `count` */
  function Count(db: Database, p: Uuid, search: Search): nat {
    |Searched(db, p, search)|
  }

  /** These are the fields of a contact of the search. */
  ghost predicate IsFound(db: Database, p: Uuid, search: Search, fields: Fields) {
    exists u | u in Searched(db, p, search) :: fields == Stored(u, db.contacts[u])
  }

  /** The listed contacts: those of the search that have a row. */
  lemma Listed(db: Database, p: Uuid, search: Search, listing: seq<Row>)
    requires Inv(db) && Elements(listing) == SearchedRows(db, p, search)
    ensures forall u :: u in Distinct(Uuids(listing)) <==> u in Searched(db, p, search) && RowsOf(db.rows, u) != {}
  {
    var uuids := Uuids(listing);
    DistinctElements(uuids);
    forall u | u in Distinct(uuids) ensures u in Searched(db, p, search) && RowsOf(db.rows, u) != {} {
      var i :| 0 <= i < |uuids| && uuids[i] == u;
      assert listing[i] in Elements(listing);
      assert listing[i] in RowsOf(db.rows, u);
    }
    forall u | u in Searched(db, p, search) && RowsOf(db.rows, u) != {} ensures u in Distinct(uuids) {
      var r :| r in RowsOf(db.rows, u);
      assert r in Elements(listing);
      var i :| 0 <= i < |listing| && listing[i] == r;
      assert uuids[i] == u;
    }
  }

  /** Each contact of the list is whole: all its fields, and not just those that match. */
  lemma ListedContactsAreWhole(db: Database, p: Uuid, search: Search, listing: seq<Row>)
    requires Inv(db) && Elements(listing) == SearchedRows(db, p, search)
    ensures var list := FieldsList(listing, Distinct(Uuids(listing)));
      && (forall i | 0 <= i < |list| :: IsFound(db, p, search, list[i]))
      && (forall u | u in Searched(db, p, search) && RowsOf(db.rows, u) != {} :: Stored(u, db.contacts[u]) in list)
  {
    var us := Distinct(Uuids(listing));
    var list := FieldsList(listing, us);
    Listed(db, p, search, listing);
    forall u | u in Searched(db, p, search) ensures FieldsOf(listing, u) == Stored(u, db.contacts[u]) {
      assert RowsOf(Elements(listing), u) == RowsOf(db.rows, u);
      ContactReadsBack(db, u, listing);
    }
    forall i | 0 <= i < |list| ensures IsFound(db, p, search, list[i]) {
      assert us[i] in us;
      assert list[i] == FieldsOf(listing, us[i]);
    }
    forall u | u in Searched(db, p, search) && RowsOf(db.rows, u) != {} ensures Stored(u, db.contacts[u]) in list {
      var i :| 0 <= i < |us| && us[i] == u;
      assert list[i] == FieldsOf(listing, u);
    }
  }

  /** The contact has no row exactly when its body had no other key than `id`. */
  lemma RowlessIff(db: Database, u: Uuid)
    requires Inv(db) && u in db.contacts
    ensures RowsOf(db.rows, u) == {} <==> db.contacts[u].owner.Phonebook? && db.contacts[u].hash == map[]
  {
    var fields := Stored(u, db.contacts[u]);
    assert Kept(db, u);
    SpellDeterminesRows(fields, u, db.rows);
    if fields != map[] {
      assert "id" in fields;
      assert Row(u, "id", fields["id"]) in RowsOf(db.rows, u);
    }
  }

  lemma AllHaveRows(db: Database, p: Uuid, search: Search, u: Uuid)
    requires Inv(db) && u in Searched(db, p, search)
    requires search.Some? || map[] !in Hashes(db, Phonebook(p))
    ensures RowsOf(db.rows, u) != {}
  {
    if search.Some? {
      var r :| r in db.rows && r.uuid == u && search.value(r.value);
      assert r in RowsOf(db.rows, u);
    } else {
      assert db.contacts[u].hash in Hashes(db, Phonebook(p));
      RowlessIff(db, u);
    }
  }

  lemma Smaller<T>(a: set<T>, b: set<T>, e: T)
    requires a <= b && e in b && e !in a
    ensures |a| < |b|
  {
    SubsetSize(a, b - {e});
  }

  /** `count` is the length of `list` for every search; without a search, unless a contact has no field at all. */
  lemma ListedContactsAreCounted(db: Database, p: Uuid, search: Search, listing: seq<Row>)
    requires Inv(db) && Elements(listing) == SearchedRows(db, p, search)
    ensures |Distinct(Uuids(listing))| == Count(db, p, search) <==> search.Some? || map[] !in Hashes(db, Phonebook(p))
  {
    var us, found := Distinct(Uuids(listing)), Searched(db, p, search);
    Listed(db, p, search, listing);
    DistinctElements(Uuids(listing));
    DistinctSize(us);
    assert Elements(us) <= found;
    if search.Some? || map[] !in Hashes(db, Phonebook(p)) {
      forall u | u in found ensures u in Elements(us) {
        AllHaveRows(db, p, search, u);
      }
      assert Elements(us) == found;
    } else {
      var u :| u in db.contacts && db.contacts[u].owner == Phonebook(p) && db.contacts[u].hash == map[];
      RowlessIff(db, u);
      assert u in found && u !in Elements(us);
      Smaller(Elements(us), found, u);
    }
  }

  /** `list`, on the rows as the database happens to return them. */
  method List(db: Database, p: Uuid, search: Search, listing: seq<Row>) returns (result: seq<Fields>)
    requires Inv(db) && Elements(listing) == SearchedRows(db, p, search)
    ensures forall i | 0 <= i < |result| :: IsFound(db, p, search, result[i])
    ensures forall u | u in Searched(db, p, search) && RowsOf(db.rows, u) != {} :: Stored(u, db.contacts[u]) in result
    ensures |result| == Count(db, p, search) <==> search.Some? || map[] !in Hashes(db, Phonebook(p))
  {
    result := GroupFields(listing);
    ListedContactsAreWhole(db, p, search, listing);
    ListedContactsAreCounted(db, p, search, listing);
  }

  /** `get`, on the rows of the contact. */
  method Get(db: Database, p: Uuid, id: Uuid, listing: seq<Row>) returns (reply: Reply)
    requires Inv(db)
    requires Elements(listing)
          == set r | r in RowsOf(db.rows, id) && r.uuid in db.contacts && db.contacts[r.uuid].owner == Phonebook(p)
    ensures reply == if id in db.contacts && db.contacts[id].owner == Phonebook(p) && db.contacts[id].hash != map[]
                     then Saved(Stored(id, db.contacts[id])) else NoSuchContact
  {
    if listing == [] {
      if id in db.contacts {
        RowlessIff(db, id);
        assert db.contacts[id].owner == Phonebook(p) ==> RowsOf(db.rows, id) == Elements(listing);
      }
      return NoSuchContact;
    }
    assert forall i | 0 <= i < |listing| :: listing[i] in Elements(listing);
    assert listing[0].uuid == id;
    assert RowsOf(Elements(listing), id) == RowsOf(db.rows, id);
    ContactReadsBack(db, id, listing);
    RowlessIff(db, id);
    var fields := GroupFields(listing);
    OneGroup(listing, id);
    reply := Saved(fields[0]);
  }

  // ---------- A body whose only key is `id` ----------

  /**
   Validation accepts such a body, and its contact has no row: `count` sees it, `list` does not,
   and neither does `get`, which reads the rows.
   */
  lemma BareContact(p: Uuid, u: Uuid, x: string)
    requires u != ""
    ensures var body, empty := map["id" := x], Database(map[], {});
      var after := Database(map[u := Contact(Phonebook(p), map[])], {});
      && Inv(empty) && Inv(after) && Valid(body)
      && CreatedOne(empty, p, body, NoFault, Saved(map[]), after)
      && Count(after, p, None) == 1 && SearchedRows(after, p, None) == {}
  {
    var body, empty, after := map["id" := x], Database(map[], {}), Database(map[u := Contact(Phonebook(p), map[])], {});
    var o, h := Phonebook(p), HashOf(body);
    assert h == map[];
    assert "" !in body && "id" in body;
    assert FieldRows(map[], u) == {};
    InsertGrows(empty, u, Contact(o, h), {});
    assert after == Insert(empty, u, Contact(o, h), {});
    GrowsKeepsInv(empty, after, o, {h});
    assert Reads(after, o, h, map[], u);
    assert Searched(after, p, None) == {u};
  }

  /** Among the bodies that validation accepts, only those whose one key is `id` have no content. */
  lemma BareBodies(body: Fields)
    requires Valid(body)
    ensures HashOf(body) == map[] <==> body.Keys == {"id"}
  {
    if HashOf(body) == map[] {
      forall n | n in body ensures n == "id" {
        assert n != "id" ==> n in HashOf(body);
      }
      var n :| n in body;
    }
  }
}
