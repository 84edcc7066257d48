/**
 The contact tables: what they hold, what every operation on them keeps
 (`wazo_dird/database/models.py`, `wazo_dird/database/queries/base.py`).

 A contact hash stands for the content it is computed from: the body without its `id`.
 The rows are kept as a set; a query lists them in any order and repeats them at will.
 */
module ContactStore {
  import opened Wrappers
  import opened FirstOccurrences
  import opened ContactRows

  datatype Owner = User(user: Uuid) | Phonebook(phonebook: Uuid)

  type Hash = Fields

  datatype Contact = Contact(owner: Owner, hash: Hash)

  datatype Database = Database(contacts: map<Uuid, Contact>, rows: set<Row>)

  /** The end of `new_session`: commit, or roll back when an exception passes. */
  function AfterSession(committed: Database, work: Database, commit: bool): Database {
    if commit then work else committed
  }

  /** `compute_contact_hash` */
  function HashOf(body: Fields): Hash {
    body - {"id"}
  }

  /** The fields of a contact. A phonebook contact gets one `id` row for each field, hence none when it has no field. */
  function Stored(u: Uuid, c: Contact): Fields {
    if c.owner.Phonebook? && c.hash == map[] then map[] else c.hash["id" := u]
  }

  function RowsOf(rows: set<Row>, u: Uuid): set<Row> {
    set r | r in rows && r.uuid == u
  }

  function FieldRows(fields: Fields, u: Uuid): set<Row> {
    set n | n in fields :: Row(u, n, fields[n])
  }

  lemma FieldRowsSpell(fields: Fields, u: Uuid, rows: set<Row>)
    requires RowsOf(rows, u) == FieldRows(fields, u)
    ensures Spell(rows, u, fields)
  {
    forall r | r in rows && r.uuid == u ensures r.name in fields && fields[r.name] == r.value {
      assert r in RowsOf(rows, u);
    }
    forall n | n in fields ensures Row(u, n, fields[n]) in rows {
      assert Row(u, n, fields[n]) in FieldRows(fields, u);
    }
  }

  lemma SpellDeterminesRows(fields: Fields, u: Uuid, rows: set<Row>)
    requires Spell(rows, u, fields)
    ensures RowsOf(rows, u) == FieldRows(fields, u)
  {
    forall r ensures r in RowsOf(rows, u) <==> r in FieldRows(fields, u) {
      if r in RowsOf(rows, u) {
        assert r == Row(u, r.name, fields[r.name]);
      }
    }
  }

  // ---------- The invariant ----------

  /** One contact is well kept: its rows spell exactly its hashed content, plus its own uuid as `id`. */
  ghost predicate Kept(db: Database, u: Uuid)
    requires u in db.contacts
  {
    u != "" && "id" !in db.contacts[u].hash && Spell(db.rows, u, Stored(u, db.contacts[u]))
  }

  ghost predicate Inv(db: Database) {
    && (forall r | r in db.rows :: r.uuid in db.contacts)
    && (forall u | u in db.contacts :: Kept(db, u))
    && (forall u, v | u in db.contacts && v in db.contacts :: db.contacts[u] == db.contacts[v] ==> u == v)
  }

  /** What the invariant is for: any listing of the rows regroups to the content that was hashed, plus the `id`. */
  lemma ContactReadsBack(db: Database, u: Uuid, listing: seq<Row>)
    requires Inv(db) && u in db.contacts
    requires RowsOf(Elements(listing), u) == RowsOf(db.rows, u)
    ensures FieldsOf(listing, u) == Stored(u, db.contacts[u])
    ensures HashOf(FieldsOf(listing, u)) == db.contacts[u].hash
    ensures !(db.contacts[u].owner.Phonebook? && db.contacts[u].hash == map[]) ==>
      FieldsOf(listing, u) == ContactOf(listing, u) && FieldsOf(listing, u)["id"] == u
  {
    var c := db.contacts[u];
    assert Kept(db, u);
    SpellDeterminesRows(Stored(u, c), u, db.rows);
    FieldRowsSpell(Stored(u, c), u, Elements(listing));
    RegroupGivesFields(listing, u, Stored(u, c));
    assert c.hash["id" := u] - {"id"} == c.hash;
  }

  /** Two bodies have one hash exactly when they differ in their `id` at most. */
  lemma SameHashIff(a: Fields, b: Fields)
    ensures HashOf(a) == HashOf(b)
       <==> forall n | n != "id" :: (n in a <==> n in b) && (n in a ==> a[n] == b[n])
  {
    if HashOf(a) == HashOf(b) {
      forall n | n != "id" ensures (n in a <==> n in b) && (n in a ==> a[n] == b[n]) {
        assert n in a <==> n in HashOf(a);
        assert n in b <==> n in HashOf(b);
      }
    }
  }

  /** What was saved is what is read: the body with its contact's uuid, unless a phonebook's body has no other key. */
  lemma SavedBodyReadsBack(db: Database, u: Uuid, o: Owner, body: Fields, listing: seq<Row>)
    requires Inv(db) && u in db.contacts && db.contacts[u] == Contact(o, HashOf(body))
    requires RowsOf(Elements(listing), u) == RowsOf(db.rows, u)
    ensures FieldsOf(listing, u) == if o.Phonebook? && body.Keys <= {"id"} then map[] else body["id" := u]
  {
    ContactReadsBack(db, u, listing);
    assert forall n :: n in HashOf(body) <==> n in body && n != "id";
    assert HashOf(body)["id" := u] == body["id" := u];
    if HashOf(body) != map[] {
      var n :| n in HashOf(body);
      assert n in body && n !in {"id"};
    } else {
      forall n | n in body ensures n in {"id"} {
        assert n != "id" ==> n in HashOf(body);
      }
    }
  }

  /** A listing of all the rows of some contacts. */
  predicate IsListing(db: Database, us: set<Uuid>, listing: seq<Row>) {
    us <= db.contacts.Keys && Elements(listing) == set r | r in db.rows && r.uuid in us
  }

  lemma ListedRowIsStored(db: Database, us: set<Uuid>, listing: seq<Row>, row: Row)
    requires Inv(db) && IsListing(db, us, listing) && row in listing
    ensures row.uuid in us && row in db.rows
    ensures ContactOf(listing, row.uuid) == Stored(row.uuid, db.contacts[row.uuid])
    ensures row.name in Stored(row.uuid, db.contacts[row.uuid])
    ensures Stored(row.uuid, db.contacts[row.uuid])[row.name] == row.value
  {
    assert row in Elements(listing);
    assert RowsOf(Elements(listing), row.uuid) == RowsOf(db.rows, row.uuid);
    ContactReadsBack(db, row.uuid, listing);
    assert Kept(db, row.uuid);
  }

  /** The stored contact shows the extension in a match column. */
  predicate ShowsExten(db: Database, u: Uuid, columns: seq<string>, e: Exten)
    requires u in db.contacts
  {
    var fields := Stored(u, db.contacts[u]);
    exists c | c in columns :: c in fields && fields[c] == e
  }

  /**
   The contacts that a batch of extensions finds in the rows of some contacts, in any order: each is a stored
   contact, complete, that shows the extension in a match column.
   */
  lemma ExtenMapGivesStored(db: Database, us: set<Uuid>, listing: seq<Row>, extens: seq<Exten>, columns: seq<string>,
                            e: Exten)
    returns (u: Uuid)
    requires Inv(db) && IsListing(db, us, listing) && e in TwoPass(listing, extens, columns)
    ensures u in us && TwoPass(listing, extens, columns)[e] == Stored(u, db.contacts[u])
    ensures ShowsExten(db, u, columns, e)
  {
    FirstOwnerIs(listing, columns, e);
    var i: nat :| IsFirstMatch(listing, columns, e, i);
    u := listing[i].uuid;
    ListedRowIsStored(db, us, listing, listing[i]);
  }

  /** The contents an owner has. */
  function Hashes(db: Database, o: Owner): set<Hash> {
    set u | u in db.contacts && db.contacts[u].owner == o :: db.contacts[u].hash
  }

  /** Which contact of the owner has a content. */
  function Ids(db: Database, o: Owner): (m: map<Hash, Uuid>)
    requires forall u, v | u in db.contacts && v in db.contacts :: db.contacts[u] == db.contacts[v] ==> u == v
    ensures m.Keys == Hashes(db, o)
    ensures forall h | h in m :: m[h] in db.contacts && db.contacts[m[h]] == Contact(o, h)
  {
    map u | u in db.contacts && db.contacts[u].owner == o :: db.contacts[u].hash := u
  }

  // ---------- Adding contacts ----------

  ghost predicate Extends(db: Database, grown: Database) {
    && (forall u | u in db.contacts :: u in grown.contacts && grown.contacts[u] == db.contacts[u])
    && (forall r: Row | r.uuid in db.contacts :: r in grown.rows <==> r in db.rows)
    && (forall r | r in grown.rows :: r.uuid in grown.contacts)
  }

  /** `grown` is `db` with exactly one more contact of the owner for each wanted content it did not have. */
  ghost predicate Grows(db: Database, grown: Database, o: Owner, wanted: set<Hash>) {
    && Extends(db, grown)
    && (forall u | u in grown.contacts && u !in db.contacts ::
          Kept(grown, u) && grown.contacts[u].owner == o && grown.contacts[u].hash in wanted - Hashes(db, o))
    && (forall u, v | u in grown.contacts && v in grown.contacts && u !in db.contacts && v !in db.contacts ::
          grown.contacts[u] == grown.contacts[v] ==> u == v)
    && (forall h | h in wanted :: h in Hashes(grown, o))
  }

  lemma KeptByExtension(db: Database, grown: Database, u: Uuid)
    requires Extends(db, grown) && u in db.contacts && Kept(db, u)
    ensures Kept(grown, u)
  {
    var fields := Stored(u, db.contacts[u]);
    assert forall r: Row | r.uuid == u :: r in grown.rows <==> r in db.rows;
    assert forall n | n in fields :: Row(u, n, fields[n]).uuid == u;
  }

  lemma HashesGrow(db: Database, grown: Database, o: Owner, wanted: set<Hash>)
    requires Grows(db, grown, o, wanted)
    ensures Hashes(grown, o) == Hashes(db, o) + wanted
  {
    forall h | h in Hashes(db, o) ensures h in Hashes(grown, o) {
      var u :| u in db.contacts && db.contacts[u].owner == o && db.contacts[u].hash == h;
      assert grown.contacts[u] == db.contacts[u];
    }
    forall h | h in Hashes(grown, o) ensures h in Hashes(db, o) + wanted {
      var u :| u in grown.contacts && grown.contacts[u].owner == o && grown.contacts[u].hash == h;
      if u in db.contacts {
        assert db.contacts[u].hash in Hashes(db, o);
      }
    }
  }

  lemma GrowsKeepsInv(db: Database, grown: Database, o: Owner, wanted: set<Hash>)
    requires Inv(db) && Grows(db, grown, o, wanted)
    ensures Inv(grown)
    ensures Hashes(grown, o) == Hashes(db, o) + wanted
  {
    forall u | u in grown.contacts ensures Kept(grown, u) {
      if u in db.contacts {
        KeptByExtension(db, grown, u);
      }
    }
    assert forall u | u in db.contacts && db.contacts[u].owner == o :: db.contacts[u].hash in Hashes(db, o);
    HashesGrow(db, grown, o, wanted);
  }

  lemma GrowsNothing(db: Database, o: Owner, wanted: set<Hash>)
    requires Inv(db) && wanted <= Hashes(db, o)
    ensures Grows(db, db, o, wanted)
  {
  }

  /** Wanting again what the owner has changes nothing at all. */
  lemma GrowsNothingOnly(db: Database, grown: Database, o: Owner, wanted: set<Hash>)
    requires Grows(db, grown, o, wanted) && wanted <= Hashes(db, o) && Inv(db)
    ensures grown == db
  {
    assert forall u | u in grown.contacts :: u in db.contacts;
    assert grown.contacts == db.contacts;
    assert grown.rows == db.rows;
  }

  lemma ExtendsTwice(db: Database, mid: Database, end: Database)
    requires Extends(db, mid) && Extends(mid, end)
    ensures Extends(db, end)
  {
  }

  /** The contacts added by either growth. */
  lemma AddedTwice(db: Database, mid: Database, end: Database, o: Owner, first: set<Hash>, second: set<Hash>, u: Uuid)
    requires Grows(db, mid, o, first) && Grows(mid, end, o, second) && u in end.contacts && u !in db.contacts
    ensures Kept(end, u) && end.contacts[u].owner == o && end.contacts[u].hash in first + second - Hashes(db, o)
  {
    if u in mid.contacts {
      KeptByExtension(mid, end, u);
    } else {
      HashesGrow(db, mid, o, first);
    }
  }

  /** No two of them are equal. */
  lemma NoTwinsAdded(db: Database, mid: Database, end: Database, o: Owner, first: set<Hash>, second: set<Hash>)
    requires Grows(db, mid, o, first) && Grows(mid, end, o, second)
    ensures forall u, v | u in end.contacts && v in end.contacts && u !in db.contacts && v !in db.contacts ::
      end.contacts[u] == end.contacts[v] ==> u == v
  {
    assert forall u | u in mid.contacts && mid.contacts[u].owner == o :: mid.contacts[u].hash in Hashes(mid, o);
  }

  lemma GrowsTwice(db: Database, mid: Database, end: Database, o: Owner, first: set<Hash>, second: set<Hash>)
    requires Inv(db) && Grows(db, mid, o, first) && Grows(mid, end, o, second)
    ensures Grows(db, end, o, first + second)
  {
    ExtendsTwice(db, mid, end);
    HashesGrow(mid, end, o, second);
    forall u | u in end.contacts && u !in db.contacts
      ensures Kept(end, u) && end.contacts[u].owner == o && end.contacts[u].hash in first + second - Hashes(db, o)
    {
      AddedTwice(db, mid, end, o, first, second, u);
    }
    NoTwinsAdded(db, mid, end, o, first, second);
  }

  /** INSERT of one contact with its rows. */
  function Insert(db: Database, u: Uuid, c: Contact, rows: set<Row>): Database {
    Database(db.contacts[u := c], db.rows + rows)
  }

  lemma InsertGrows(db: Database, u: Uuid, c: Contact, rows: set<Row>)
    requires Inv(db) && u !in db.contacts && u != "" && "id" !in c.hash && c.hash !in Hashes(db, c.owner)
    requires rows == FieldRows(Stored(u, c), u)
    ensures Grows(db, Insert(db, u, c, rows), c.owner, {c.hash})
  {
    var grown := Insert(db, u, c, rows);
    assert RowsOf(grown.rows, u) == rows;
    FieldRowsSpell(Stored(u, c), u, grown.rows);
    assert grown.contacts[u] == c;
    assert c.hash in Hashes(grown, c.owner);
  }

  // ---------- Removing and replacing contacts ----------

  /** DELETE of contacts, the foreign key taking their rows with them. */
  function Remove(db: Database, us: set<Uuid>): Database {
    Database(map u | u in db.contacts && u !in us :: db.contacts[u], set r | r in db.rows && r.uuid !in us)
  }

  lemma RemoveKeepsInv(db: Database, us: set<Uuid>)
    requires Inv(db)
    ensures Inv(Remove(db, us))
  {
    var left := Remove(db, us);
    forall u | u in left.contacts ensures Kept(left, u) {
      assert Kept(db, u);
      assert forall r: Row | r.uuid == u :: r in left.rows <==> r in db.rows;
    }
  }

  /** `changed` is `db` with the content of one contact replaced, its uuid and its owner staying. */
  ghost predicate Replaced(db: Database, changed: Database, u: Uuid, h: Hash)
    requires u in db.contacts
  {
    && changed.contacts == db.contacts[u := Contact(db.contacts[u].owner, h)]
    && (forall r: Row | r.uuid != u :: r in changed.rows <==> r in db.rows)
    && Spell(changed.rows, u, Stored(u, changed.contacts[u]))
  }

  /** Another contact of the same owner already has this content. */
  ghost predicate TakenByAnother(db: Database, u: Uuid, h: Hash)
    requires u in db.contacts
  {
    exists v | v in db.contacts :: v != u && db.contacts[v] == Contact(db.contacts[u].owner, h)
  }

  lemma ReplacedKeepsInv(db: Database, changed: Database, u: Uuid, h: Hash)
    requires Inv(db) && u in db.contacts && "id" !in h && !TakenByAnother(db, u, h)
    requires Replaced(db, changed, u, h)
    ensures Inv(changed)
  {
    forall v | v in changed.contacts ensures Kept(changed, v) {
      assert Kept(db, v);
      if v != u {
        assert forall r: Row | r.uuid == v :: r in changed.rows <==> r in db.rows;
      }
    }
  }

  /** Replacing a contact by its own content changes nothing. */
  lemma ReplacedByItself(db: Database, changed: Database, u: Uuid)
    requires Inv(db) && u in db.contacts && Replaced(db, changed, u, db.contacts[u].hash)
    ensures changed == db
  {
    var c := db.contacts[u];
    assert Kept(db, u);
    assert changed.contacts == db.contacts;
    SpellDeterminesRows(Stored(u, c), u, db.rows);
    SpellDeterminesRows(Stored(u, c), u, changed.rows);
    forall r ensures r in changed.rows <==> r in db.rows {
      if r.uuid == u {
        assert r in RowsOf(changed.rows, u) <==> r in RowsOf(db.rows, u);
      }
    }
  }

  // ---------- One owner does not see the others ----------

  /** Everything stored for an owner: contacts and rows. */
  function View(db: Database, o: Owner): Database {
    Database(map u | u in db.contacts && db.contacts[u].owner == o :: db.contacts[u],
             set r | r in db.rows && r.uuid in db.contacts && db.contacts[r.uuid].owner == o)
  }

  lemma GrowsElsewhere(db: Database, grown: Database, o: Owner, wanted: set<Hash>, other: Owner)
    requires Grows(db, grown, o, wanted) && other != o
    ensures View(grown, other) == View(db, other)
  {
    assert View(grown, other).contacts == View(db, other).contacts;
    forall r ensures r in View(grown, other).rows <==> r in View(db, other).rows {
    }
  }

  lemma RemoveElsewhere(db: Database, us: set<Uuid>, other: Owner)
    requires forall u | u in us && u in db.contacts :: db.contacts[u].owner != other
    ensures View(Remove(db, us), other) == View(db, other)
  {
    assert View(Remove(db, us), other).contacts == View(db, other).contacts;
  }

  lemma ReplacedElsewhere(db: Database, changed: Database, u: Uuid, h: Hash, other: Owner)
    requires u in db.contacts && Replaced(db, changed, u, h) && db.contacts[u].owner != other
    ensures View(changed, other) == View(db, other)
  {
    assert View(changed, other).contacts == View(db, other).contacts;
    forall r ensures r in View(changed, other).rows <==> r in View(db, other).rows {
    }
  }

  // ---------- Bulk creation, whatever the iteration order and the generated uuids ----------

  /** The contents an owner's rows spell, identifiers aside. */
  function Contents(db: Database, o: Owner, listing: seq<Row>): set<Fields> {
    set u | u in db.contacts && db.contacts[u].owner == o :: HashOf(FieldsOf(listing, u))
  }

  lemma ContentsAreHashes(db: Database, o: Owner, listing: seq<Row>)
    requires Inv(db) && Elements(listing) == db.rows
    ensures Contents(db, o, listing) == Hashes(db, o)
  {
    forall u | u in db.contacts ensures HashOf(FieldsOf(listing, u)) == db.contacts[u].hash {
      ContactReadsBack(db, u, listing);
    }
  }

  lemma HashesOfView(db: Database, o: Owner)
    ensures Hashes(View(db, o), o) == Hashes(db, o)
  {
    forall h ensures h in Hashes(View(db, o), o) <==> h in Hashes(db, o) {
      if h in Hashes(db, o) {
        var u :| u in db.contacts && db.contacts[u].owner == o && db.contacts[u].hash == h;
        assert u in View(db, o).contacts;
      }
    }
  }

  function Added(db: Database, grown: Database): set<Uuid> {
    grown.contacts.Keys - db.contacts.Keys
  }

  function HashesIn(db: Database, us: set<Uuid>): set<Hash>
    requires us <= db.contacts.Keys
  {
    set u | u in us :: db.contacts[u].hash
  }

  lemma AddedHashes(db: Database, grown: Database, o: Owner, wanted: set<Hash>)
    requires Grows(db, grown, o, wanted)
    ensures HashesIn(grown, Added(db, grown)) == wanted - Hashes(db, o)
  {
    forall h | h in wanted && h !in Hashes(db, o) ensures h in HashesIn(grown, Added(db, grown)) {
      assert h in Hashes(grown, o);
      var u :| u in grown.contacts && grown.contacts[u].owner == o && grown.contacts[u].hash == h;
      assert u in db.contacts ==> db.contacts[u].hash in Hashes(db, o);
      assert u in Added(db, grown);
    }
  }

  lemma {:induction false} SameSize(db: Database, us: set<Uuid>)
    requires us <= db.contacts.Keys
    requires forall u, v | u in us && v in us :: db.contacts[u].hash == db.contacts[v].hash ==> u == v
    ensures |HashesIn(db, us)| == |us|
  {
    if us != {} {
      var u :| u in us;
      SameSize(db, us - {u});
      assert HashesIn(db, us) == HashesIn(db, us - {u}) + {db.contacts[u].hash};
      assert db.contacts[u].hash !in HashesIn(db, us - {u});
    }
  }

  lemma AddedDiffer(db: Database, grown: Database, o: Owner, wanted: set<Hash>)
    requires Grows(db, grown, o, wanted)
    ensures |HashesIn(grown, Added(db, grown))| == |Added(db, grown)|
  {
    var added := Added(db, grown);
    forall u, v | u in added && v in added && grown.contacts[u].hash == grown.contacts[v].hash ensures u == v {
      assert grown.contacts[u].owner == grown.contacts[v].owner == o;
    }
    SameSize(grown, added);
  }

  lemma KeySum<T, U>(small: map<T, U>, large: map<T, U>)
    requires small.Keys <= large.Keys
    ensures |large| == |small| + |large.Keys - small.Keys|
  {
    assert large.Keys == small.Keys + (large.Keys - small.Keys);
    assert |small.Keys| == |small| && |large.Keys| == |large|;
  }

  /** One contact more for each new content. */
  lemma NumberOfContacts(db: Database, grown: Database, o: Owner, wanted: set<Hash>)
    requires Grows(db, grown, o, wanted)
    ensures |grown.contacts| == |db.contacts| + |wanted - Hashes(db, o)|
  {
    AddedHashes(db, grown, o, wanted);
    AddedDiffer(db, grown, o, wanted);
    KeySum(db.contacts, grown.contacts);
  }

  /** Two outcomes of the same bulk creation hold the same contents, for every owner. */
  lemma GrowthIsUniqueUpToIds(db: Database, one: Database, two: Database, o: Owner, wanted: set<Hash>,
                              listing1: seq<Row>, listing2: seq<Row>, any: Owner)
    requires Inv(db) && Grows(db, one, o, wanted) && Grows(db, two, o, wanted)
    requires Elements(listing1) == one.rows && Elements(listing2) == two.rows
    ensures Contents(one, any, listing1) == Contents(two, any, listing2)
    ensures |one.contacts| == |two.contacts|
  {
    GrowsKeepsInv(db, one, o, wanted);
    GrowsKeepsInv(db, two, o, wanted);
    ContentsAreHashes(one, any, listing1);
    ContentsAreHashes(two, any, listing2);
    if any != o {
      GrowsElsewhere(db, one, o, wanted, any);
      GrowsElsewhere(db, two, o, wanted, any);
      HashesOfView(one, any);
      HashesOfView(two, any);
    }
    NumberOfContacts(db, one, o, wanted);
    NumberOfContacts(db, two, o, wanted);
  }
}
