/**
 Phonebook contacts: validation, creation, import under savepoints, editing, deletion, count and list
 (`wazo_dird/database/queries/phonebook.py`, `wazo_dird/plugins/phonebook_service/plugin.py`).
 */
module PhonebookContacts {
  import opened Wrappers
  import opened FirstOccurrences
  import opened ContactRows
  import opened ContactStore

  // ---------- Validation ----------

  /** What `_validate_contact` accepts; the `id` is dropped after the test for emptiness. */
  predicate Valid(body: Fields) {
    body != map[] && "" !in body
  }

  /** `_validate_contact`, which drops the `id` of the body. */
  method Validate(body: Fields) returns (validated: Option<Fields>)
    ensures validated == if Valid(body) then Some(HashOf(body)) else None
  {
    if body == map[] || "" in body {
      return None;
    }
    validated := Some(body - {"id"});
  }

  function InvalidPositions(bodies: seq<Fields>, n: nat): seq<nat>
    requires n <= |bodies|
  {
    if n == 0 then [] else InvalidPositions(bodies, n - 1) + if Valid(bodies[n - 1]) then [] else [n - 1]
  }

  function ContentsOf(bodies: seq<Fields>): seq<Hash> {
    seq(|bodies|, i requires 0 <= i < |bodies| => HashOf(bodies[i]))
  }

  lemma ContentsTwice(bodies: seq<Fields>)
    ensures ContentsOf(ContentsOf(bodies)) == ContentsOf(bodies)
  {
    forall i | 0 <= i < |bodies| ensures HashOf(HashOf(bodies[i])) == HashOf(bodies[i]) {
    }
  }

  // ---------- Import: what it promises ----------

  /** How the database treats one statement group, apart from duplicates. */
  datatype Fault =
    | NoFault
    | ContactRejected // another constraint than uniqueness, on the contact
    | FieldsRejected // a constraint on its fields
    | Lost // the connection, or any other exception

  datatype Import =
    | Imported(created: seq<Fields>)
    | Invalid(errors: seq<nat>)
    | Failed(errors: seq<nat>)
    | Unavailable

  predicate AnyLost(faults: seq<Fault>) {
    exists i | 0 <= i < |faults| :: faults[i] == Lost
  }

  /** The contents that are in the phonebook once the first `n` entries are dealt with. */
  function Landed(hashes: seq<Hash>, faults: seq<Fault>, n: nat): set<Hash>
    requires n <= |hashes| == |faults|
  {
    set i | 0 <= i < n && faults[i] == NoFault :: hashes[i]
  }

  /** An entry fails, duplicates of the phonebook and of earlier successful entries being skipped. */
  predicate Fails(had: set<Hash>, hashes: seq<Hash>, faults: seq<Fault>, i: nat)
    requires i < |hashes| == |faults|
  {
    faults[i] != NoFault && hashes[i] !in had && hashes[i] !in Landed(hashes, faults, i)
  }

  function Failures(had: set<Hash>, hashes: seq<Hash>, faults: seq<Fault>, n: nat): seq<nat>
    requires n <= |hashes| == |faults|
  {
    if n == 0 then []
    else Failures(had, hashes, faults, n - 1) + if Fails(had, hashes, faults, n - 1) then [n - 1] else []
  }

  function Without(hashes: seq<Hash>, had: set<Hash>): seq<Hash> {
    if hashes == [] then []
    else Without(hashes[..|hashes| - 1], had) + if hashes[|hashes| - 1] in had then [] else [hashes[|hashes| - 1]]
  }

  /** The contents the phonebook did not have, at their first occurrence. */
  function NewContents(had: set<Hash>, hashes: seq<Hash>): seq<Hash> {
    Without(Distinct(hashes), had)
  }

  /** These fields are those of the owner's contact with this content. */
  predicate Reads(db: Database, o: Owner, h: Hash, fields: Fields, u: Uuid) {
    u in db.contacts && db.contacts[u] == Contact(o, h) && fields == Stored(u, db.contacts[u])
  }

  ghost predicate ReadBack(db: Database, o: Owner, h: Hash, fields: Fields) {
    exists u :: Reads(db, o, h, fields, u)
  }

  /** The created contacts, as read back: one for each of these contents, in this order. */
  ghost predicate Reported(db: Database, o: Owner, contents: seq<Hash>, created: seq<Fields>) {
    && |created| == |contents|
    && (forall k | 0 <= k < |created| :: ReadBack(db, o, contents[k], created[k]))
  }

  /** `create_many` */
  ghost predicate CreatedMany(before: Database, p: Uuid, bodies: seq<Fields>, faults: seq<Fault>, outcome: Import,
                              after: Database)
    requires |faults| == |bodies|
  {
    var o, hashes := Phonebook(p), ContentsOf(bodies);
    var had := Hashes(before, o);
    if AnyLost(faults) then outcome == Unavailable && after == before
    else if Failures(had, hashes, faults, |hashes|) != [] then
      outcome == Failed(Failures(had, hashes, faults, |hashes|)) && after == before
    else
      && outcome.Imported?
      && Grows(before, after, o, Elements(hashes))
      && Reported(after, o, NewContents(had, hashes), outcome.created)
  }

  /** `import_contacts` */
  ghost predicate ImportedContacts(before: Database, p: Uuid, bodies: seq<Fields>, faults: seq<Fault>,
                                   outcome: Import, after: Database)
    requires |faults| == |bodies|
  {
    if InvalidPositions(bodies, |bodies|) != [] then
      outcome == Invalid(InvalidPositions(bodies, |bodies|)) && after == before
    else
      CreatedMany(before, p, bodies, faults, outcome, after)
  }

  datatype Reply =
    | Saved(fields: Fields)
    | Gone
    | AlreadyThere
    | Refused
    | Unmapped // a constraint violation at the commit, passed on as it is
    | ServiceDown
    | NoSuchContact
    | InvalidBody

  ghost predicate CreatedOne(before: Database, p: Uuid, body: Fields, fault: Fault, reply: Reply, after: Database) {
    var o, h := Phonebook(p), HashOf(body);
    if !Valid(body) then reply == InvalidBody && after == before
    else if fault == Lost then reply == ServiceDown && after == before
    else if h in Hashes(before, o) then reply == AlreadyThere && after == before
    else if fault != NoFault then reply == Refused && after == before
    else reply.Saved? && Grows(before, after, o, {h}) && ReadBack(after, o, h, reply.fields)
  }

  ghost predicate EditedOne(before: Database, p: Uuid, id: Uuid, body: Fields, fault: Fault, reply: Reply,
                            after: Database) {
    if !Valid(body) then reply == InvalidBody && after == before
    else if fault == Lost then reply == ServiceDown && after == before
    else if !(id in before.contacts && before.contacts[id].owner == Phonebook(p)) then
      reply == NoSuchContact && after == before
    else if TakenByAnother(before, id, HashOf(body)) then reply == AlreadyThere && after == before
    else if fault == ContactRejected then reply == Refused && after == before
    else if fault == FieldsRejected then reply == Unmapped && after == before
    else
      && Replaced(before, after, id, HashOf(body))
      && reply == Saved(Stored(id, Contact(Phonebook(p), HashOf(body))))
  }

  ghost predicate DeletedOne(before: Database, p: Uuid, id: Uuid, fault: Fault, reply: Reply, after: Database) {
    if fault == Lost then reply == ServiceDown && after == before
    else if !(id in before.contacts && before.contacts[id].owner == Phonebook(p)) then
      reply == NoSuchContact && after == before
    else reply == Gone && after == Remove(before, {id})
  }

  // ---------- The reported positions, without recursion ----------

  predicate Ascending(s: seq<nat>) {
    forall i, j | 0 <= i < j < |s| :: s[i] < s[j]
  }

  /** The errors of the first phase are the positions of the invalid bodies, in order. */
  lemma {:induction false} InvalidPositionsIff(bodies: seq<Fields>, n: nat)
    requires n <= |bodies|
    ensures forall i: nat :: i in InvalidPositions(bodies, n) <==> i < n && !Valid(bodies[i])
    ensures Ascending(InvalidPositions(bodies, n))
  {
    if n > 0 {
      InvalidPositionsIff(bodies, n - 1);
      var before := InvalidPositions(bodies, n - 1);
      assert forall k | 0 <= k < |before| :: before[k] in before;
    }
  }

  /** The errors of the second phase are the positions that fail and repeat no earlier success, in order. */
  lemma {:induction false} FailuresIff(had: set<Hash>, hashes: seq<Hash>, faults: seq<Fault>, n: nat)
    requires n <= |hashes| == |faults|
    ensures forall i: nat :: i in Failures(had, hashes, faults, n) <==> i < n && Fails(had, hashes, faults, i)
    ensures Ascending(Failures(had, hashes, faults, n))
  {
    if n > 0 {
      FailuresIff(had, hashes, faults, n - 1);
      var before := Failures(had, hashes, faults, n - 1);
      assert forall k | 0 <= k < |before| :: before[k] in before;
    }
  }

  lemma NoFailureBefore(had: set<Hash>, hashes: seq<Hash>, faults: seq<Fault>, n: nat)
    requires n < |hashes| == |faults| && Failures(had, hashes, faults, n + 1) == []
    ensures Failures(had, hashes, faults, n) == [] && !Fails(had, hashes, faults, n)
  {
  }

  lemma LandedStep(hashes: seq<Hash>, faults: seq<Fault>, n: nat)
    requires n < |hashes| == |faults|
    ensures Landed(hashes, faults, n + 1)
         == Landed(hashes, faults, n) + if faults[n] == NoFault then {hashes[n]} else {}
  {
  }

  /** Without failures everything asked for has landed or was there. */
  lemma {:induction false} NoFailureLandsAll(had: set<Hash>, hashes: seq<Hash>, faults: seq<Fault>, n: nat)
    requires n <= |hashes| == |faults| && Failures(had, hashes, faults, n) == []
    ensures forall h | h in hashes[..n] :: h in had || h in Landed(hashes, faults, n)
    ensures forall h | h in Landed(hashes, faults, n) :: h in hashes[..n]
  {
    if n > 0 {
      NoFailureBefore(had, hashes, faults, n - 1);
      NoFailureLandsAll(had, hashes, faults, n - 1);
      LandedStep(hashes, faults, n - 1);
      assert hashes[..n] == hashes[..n - 1] + [hashes[n - 1]];
    }
  }

  lemma NewContentsStep(had: set<Hash>, hashes: seq<Hash>, n: nat)
    requires n < |hashes|
    ensures NewContents(had, hashes[..n + 1])
         == NewContents(had, hashes[..n])
            + if hashes[n] in had || hashes[n] in hashes[..n] then [] else [hashes[n]]
  {
    assert hashes[..n + 1][..n] == hashes[..n];
    var d := Distinct(hashes[..n]);
    assert (d + [hashes[n]])[..|d|] == d;
  }

  /** The created contents are those of the body that the phonebook did not have, each once. */
  lemma {:induction false} WithoutElements(hashes: seq<Hash>, had: set<Hash>)
    requires forall i, j | 0 <= i < j < |hashes| :: hashes[i] != hashes[j]
    ensures forall h :: h in Without(hashes, had) <==> h in hashes && h !in had
    ensures forall i, j | 0 <= i < j < |Without(hashes, had)| :: Without(hashes, had)[i] != Without(hashes, had)[j]
  {
    if hashes != [] {
      var init, last := hashes[..|hashes| - 1], hashes[|hashes| - 1];
      assert hashes == init + [last];
      WithoutElements(init, had);
      var rest := Without(init, had);
      assert last !in init;
      assert forall k | 0 <= k < |rest| :: rest[k] in rest;
    }
  }

  // ---------- The operations ----------

  datatype Entry =
    | Created(fields: Fields)
    | Duplicate
    | Rejected
    | Aborted

  /** The rows `_set_contact_fields` gives a contact: one for each field, and one `id` row for each field. */
  function PhonebookRows(body: Fields, u: Uuid): set<Row> {
    FieldRows(body, u) + set n | n in body :: Row(u, "id", u)
  }

  lemma PhonebookRowsAreStored(p: Uuid, u: Uuid, h: Hash)
    requires "id" !in h
    ensures PhonebookRows(h, u) == FieldRows(Stored(u, Contact(Phonebook(p), h)), u)
  {
    var fields := Stored(u, Contact(Phonebook(p), h));
    forall r | r in PhonebookRows(h, u) ensures r in FieldRows(fields, u) {
      assert h != map[];
      if r.name != "id" {
        assert r == Row(u, r.name, fields[r.name]);
      } else {
        assert r == Row(u, "id", fields["id"]);
      }
    }
    forall r | r in FieldRows(fields, u) ensures r in PhonebookRows(h, u) {
      if r.name == "id" {
        var n :| n in h;
        assert r == Row(u, "id", u);
      } else {
        assert r == Row(u, r.name, h[r.name]);
      }
    }
  }

  predicate FreshUuid(db: Database, u: Uuid) {
    u != "" && u !in db.contacts
  }

  /** What the entry of an import does to the tables when it is created. */
  predicate Inserted(before: Database, p: Uuid, h: Hash, u: Uuid, entry: Entry, after: Database) {
    && after == Insert(before, u, Contact(Phonebook(p), h), PhonebookRows(h, u))
    && entry == Created(Stored(u, Contact(Phonebook(p), h)))
  }

  lemma InsertedGrows(before: Database, p: Uuid, h: Hash, u: Uuid, entry: Entry, after: Database)
    requires Inv(before) && "id" !in h && FreshUuid(before, u) && h !in Hashes(before, Phonebook(p))
    requires Inserted(before, p, h, u, entry, after)
    ensures Grows(before, after, Phonebook(p), {h}) && Inv(after)
  {
    PhonebookRowsAreStored(p, u, h);
    InsertGrows(before, u, Contact(Phonebook(p), h), PhonebookRows(h, u));
    GrowsKeepsInv(before, after, Phonebook(p), {h});
  }

  lemma LandOne(start: Database, db: Database, grown: Database, o: Owner, hashes: seq<Hash>, faults: seq<Fault>, i: nat)
    requires i < |hashes| == |faults| && Inv(start) && Grows(start, db, o, Landed(hashes, faults, i))
    requires faults[i] == NoFault && Grows(db, grown, o, {hashes[i]})
    ensures Grows(start, grown, o, Landed(hashes, faults, i + 1))
  {
    LandedStep(hashes, faults, i);
    GrowsTwice(start, db, grown, o, Landed(hashes, faults, i), {hashes[i]});
  }

  lemma LandNothing(start: Database, db: Database, o: Owner, hashes: seq<Hash>, faults: seq<Fault>, i: nat)
    requires i < |hashes| == |faults| && Inv(start) && Inv(db) && Grows(start, db, o, Landed(hashes, faults, i))
    requires faults[i] != NoFault || hashes[i] in Hashes(db, o)
    ensures Grows(start, db, o, Landed(hashes, faults, i + 1))
  {
    LandedStep(hashes, faults, i);
    if faults[i] == NoFault {
      GrowsNothing(db, o, {hashes[i]});
      GrowsTwice(start, db, db, o, Landed(hashes, faults, i), {hashes[i]});
    }
  }

  lemma GrowsAlike(start: Database, db: Database, o: Owner, one: set<Hash>, two: set<Hash>)
    requires Grows(start, db, o, one)
    requires one <= two && forall h | h in two :: h in Hashes(start, o) || h in one
    ensures Grows(start, db, o, two)
  {
    HashesGrow(start, db, o, one);
  }

  lemma ReportedStays(db: Database, grown: Database, o: Owner, contents: seq<Hash>, created: seq<Fields>)
    requires Extends(db, grown) && Reported(db, o, contents, created)
    ensures Reported(grown, o, contents, created)
  {
    forall k | 0 <= k < |created|
      ensures ReadBack(grown, o, contents[k], created[k])
    {
      assert ReadBack(db, o, contents[k], created[k]);
      var u :| Reads(db, o, contents[k], created[k], u);
      assert Reads(grown, o, contents[k], created[k], u);
    }
  }

  lemma ReportedOneMore(db: Database, o: Owner, contents: seq<Hash>, created: seq<Fields>, u: Uuid)
    requires Reported(db, o, contents, created) && u in db.contacts && db.contacts[u].owner == o
    ensures Reported(db, o, contents + [db.contacts[u].hash], created + [Stored(u, db.contacts[u])])
  {
    assert Reads(db, o, db.contacts[u].hash, Stored(u, db.contacts[u]), u);
  }

  /** The report while no entry has failed. */
  ghost predicate Reporting(had: set<Hash>, db: Database, o: Owner, hashes: seq<Hash>, i: nat, good: seq<Fields>)
    requires i <= |hashes|
  {
    Reported(db, o, NewContents(had, hashes[..i]), good)
  }

  /** Before a failure, an entry is a duplicate exactly when its content was there or came earlier. */
  lemma DuplicateIff(start: Database, db: Database, o: Owner, hashes: seq<Hash>, faults: seq<Fault>, i: nat)
    requires i < |hashes| == |faults| && Grows(start, db, o, Landed(hashes, faults, i))
    ensures hashes[i] in Hashes(db, o) <==> hashes[i] in Hashes(start, o) || hashes[i] in Landed(hashes, faults, i)
    ensures Failures(Hashes(start, o), hashes, faults, i) == [] ==>
      (hashes[i] in Hashes(db, o) <==> hashes[i] in Hashes(start, o) || hashes[i] in hashes[..i])
  {
    HashesGrow(start, db, o, Landed(hashes, faults, i));
    if Failures(Hashes(start, o), hashes, faults, i) == [] {
      NoFailureLandsAll(Hashes(start, o), hashes, faults, i);
    }
  }

  lemma ReportStep(had: set<Hash>, db: Database, grown: Database, o: Owner, hashes: seq<Hash>, i: nat,
                   good: seq<Fields>, u: Uuid)
    requires i < |hashes| && Reporting(had, db, o, hashes, i, good) && Extends(db, grown)
    requires hashes[i] !in had && hashes[i] !in hashes[..i]
    requires u in grown.contacts && grown.contacts[u] == Contact(o, hashes[i])
    ensures Reporting(had, grown, o, hashes, i + 1, good + [Stored(u, grown.contacts[u])])
  {
    NewContentsStep(had, hashes, i);
    ReportedStays(db, grown, o, NewContents(had, hashes[..i]), good);
    ReportedOneMore(grown, o, NewContents(had, hashes[..i]), good, u);
  }

  lemma ReportNothing(had: set<Hash>, db: Database, o: Owner, hashes: seq<Hash>, i: nat, good: seq<Fields>)
    requires i < |hashes| && Reporting(had, db, o, hashes, i, good)
    requires hashes[i] in had || hashes[i] in hashes[..i]
    ensures Reporting(had, db, o, hashes, i + 1, good)
  {
    NewContentsStep(had, hashes, i);
    assert NewContents(had, hashes[..i + 1]) == NewContents(had, hashes[..i]);
  }

  /** The import after its first `i` entries. */
  ghost predicate Importing(start: Database, db: Database, o: Owner, hashes: seq<Hash>, faults: seq<Fault>, i: nat,
                            errors: seq<nat>, good: seq<Fields>)
    requires i <= |hashes| == |faults|
  {
    && Inv(db)
    && Grows(start, db, o, Landed(hashes, faults, i))
    && errors == Failures(Hashes(start, o), hashes, faults, i)
    && (errors == [] ==> Reporting(Hashes(start, o), db, o, hashes, i, good))
  }

  lemma EntryCreated(start: Database, db: Database, p: Uuid, hashes: seq<Hash>, faults: seq<Fault>, i: nat,
                     errors: seq<nat>, good: seq<Fields>, u: Uuid, entry: Entry, grown: Database)
    requires i < |hashes| == |faults| && Inv(start)
    requires Importing(start, db, Phonebook(p), hashes, faults, i, errors, good)
    requires faults[i] == NoFault && hashes[i] !in Hashes(db, Phonebook(p)) && "id" !in hashes[i] && FreshUuid(db, u)
    requires Inserted(db, p, hashes[i], u, entry, grown)
    ensures Importing(start, grown, Phonebook(p), hashes, faults, i + 1, errors, good + [entry.fields])
  {
    var o := Phonebook(p);
    DuplicateIff(start, db, o, hashes, faults, i);
    InsertedGrows(db, p, hashes[i], u, entry, grown);
    LandOne(start, db, grown, o, hashes, faults, i);
    if errors == [] {
      ReportStep(Hashes(start, o), db, grown, o, hashes, i, good, u);
    }
  }

  /** The uuids that remain for the entries from `i` on. */
  predicate Awaiting(db: Database, supply: seq<Uuid>, i: nat) {
    && (forall j | i <= j < |supply| :: FreshUuid(db, supply[j]))
    && (forall j, k | 0 <= j < k < |supply| :: supply[j] != supply[k])
  }

  lemma StillAwaiting(db: Database, p: Uuid, h: Hash, entry: Entry, grown: Database, supply: seq<Uuid>, i: nat)
    requires i < |supply| && Awaiting(db, supply, i) && Inserted(db, p, h, supply[i], entry, grown)
    ensures Awaiting(grown, supply, i + 1)
  {
  }

  /** What the loop of `create_many` keeps. */
  ghost predicate Entering(start: Database, db: Database, p: Uuid, bodies: seq<Fields>, faults: seq<Fault>,
                           supply: seq<Uuid>, i: nat, errors: seq<nat>, good: seq<Fields>)
    requires i <= |bodies| == |faults| == |supply|
  {
    && Importing(start, db, Phonebook(p), ContentsOf(bodies), faults, i, errors, good)
    && (forall j | 0 <= j < i :: faults[j] != Lost)
    && Awaiting(db, supply, i)
  }

  lemma EnterCreated(start: Database, before: Database, p: Uuid, bodies: seq<Fields>, faults: seq<Fault>,
                     supply: seq<Uuid>, i: nat, errors: seq<nat>, good: seq<Fields>, entry: Entry, after: Database)
    requires i < |bodies| == |faults| == |supply| && Inv(start) && "id" !in bodies[i]
    requires Entering(start, before, p, bodies, faults, supply, i, errors, good)
    requires faults[i] == NoFault && bodies[i] !in Hashes(before, Phonebook(p))
    requires Inserted(before, p, bodies[i], supply[i], entry, after)
    ensures Entering(start, after, p, bodies, faults, supply, i + 1, errors, good + [entry.fields])
  {
    var hashes := ContentsOf(bodies);
    assert hashes[i] == bodies[i];
    assert FreshUuid(before, supply[i]);
    EntryCreated(start, before, p, hashes, faults, i, errors, good, supply[i], entry, after);
    StillAwaiting(before, p, bodies[i], entry, after, supply, i);
  }

  lemma EntrySkipped(start: Database, db: Database, o: Owner, hashes: seq<Hash>, faults: seq<Fault>, i: nat,
                     errors: seq<nat>, good: seq<Fields>)
    requires i < |hashes| == |faults| && Inv(start)
    requires Importing(start, db, o, hashes, faults, i, errors, good)
    requires faults[i] != NoFault || hashes[i] in Hashes(db, o)
    ensures Importing(start, db, o, hashes, faults, i + 1,
                      if hashes[i] in Hashes(db, o) then errors else errors + [i], good)
  {
    DuplicateIff(start, db, o, hashes, faults, i);
    LandNothing(start, db, o, hashes, faults, i);
    if errors == [] && hashes[i] in Hashes(db, o) {
      ReportNothing(Hashes(start, o), db, o, hashes, i, good);
    }
  }

  lemma EnterSkipped(start: Database, db: Database, p: Uuid, bodies: seq<Fields>, faults: seq<Fault>,
                     supply: seq<Uuid>, i: nat, errors: seq<nat>, good: seq<Fields>)
    requires i < |bodies| == |faults| == |supply| && Inv(start) && "id" !in bodies[i] && faults[i] != Lost
    requires Entering(start, db, p, bodies, faults, supply, i, errors, good)
    requires faults[i] != NoFault || bodies[i] in Hashes(db, Phonebook(p))
    ensures Entering(start, db, p, bodies, faults, supply, i + 1,
                     if bodies[i] in Hashes(db, Phonebook(p)) then errors else errors + [i], good)
  {
    assert ContentsOf(bodies)[i] == bodies[i];
    EntrySkipped(start, db, Phonebook(p), ContentsOf(bodies), faults, i, errors, good);
  }

  lemma ImportEnds(start: Database, db: Database, p: Uuid, bodies: seq<Fields>, faults: seq<Fault>, good: seq<Fields>)
    requires |faults| == |bodies| && !AnyLost(faults)
    requires var o, hashes := Phonebook(p), ContentsOf(bodies);
      && Grows(start, db, o, Landed(hashes, faults, |hashes|))
      && Failures(Hashes(start, o), hashes, faults, |hashes|) == []
      && Reporting(Hashes(start, o), db, o, hashes, |hashes|, good)
    ensures CreatedMany(start, p, bodies, faults, Imported(good), db)
  {
    var o, hashes := Phonebook(p), ContentsOf(bodies);
    NoFailureLandsAll(Hashes(start, o), hashes, faults, |hashes|);
    assert hashes[..|hashes|] == hashes;
    GrowsAlike(start, db, o, Landed(hashes, faults, |hashes|), Elements(hashes));
  }

  lemma TakenAfterUpdate(db: Database, p: Uuid, id: Uuid, h: Hash)
    requires id in db.contacts && db.contacts[id].owner == Phonebook(p)
    ensures var contacts := db.contacts[id := Contact(Phonebook(p), h)];
      (exists v | v in contacts :: v != id && contacts[v] == Contact(Phonebook(p), h)) <==> TakenByAnother(db, id, h)
  {
    var contacts := db.contacts[id := Contact(Phonebook(p), h)];
    if TakenByAnother(db, id, h) {
      var v :| v in db.contacts && v != id && db.contacts[v] == Contact(db.contacts[id].owner, h);
      assert v in contacts && contacts[v] == Contact(Phonebook(p), h);
    }
    if v :| v in contacts && v != id && contacts[v] == Contact(Phonebook(p), h) {
      assert v in db.contacts && db.contacts[v] == Contact(db.contacts[id].owner, h);
    }
  }

  lemma FieldsReplaced(before: Database, p: Uuid, id: Uuid, h: Hash, after: Database)
    requires id in before.contacts && before.contacts[id].owner == Phonebook(p) && "id" !in h
    requires after.contacts == before.contacts[id := Contact(Phonebook(p), h)]
    requires after.rows == (set r | r in before.rows && r.uuid != id) + PhonebookRows(h, id)
    ensures Replaced(before, after, id, h)
  {
    PhonebookRowsAreStored(p, id, h);
    assert RowsOf(after.rows, id) == FieldRows(Stored(id, after.contacts[id]), id);
    FieldRowsSpell(Stored(id, after.contacts[id]), id, after.rows);
  }

  /** What `_create_one` does; on an error the session is left to the savepoint or the rollback. */
  predicate EntryOutcome(before: Database, p: Uuid, h: Hash, fault: Fault, u: Uuid, entry: Entry, after: Database) {
    if fault == Lost then entry == Aborted
    else if h in Hashes(before, Phonebook(p)) then entry == Duplicate
    else if fault != NoFault then entry == Rejected
    else Inserted(before, p, h, u, entry, after)
  }

  lemma ImportBegins(start: Database, p: Uuid, bodies: seq<Fields>, faults: seq<Fault>, supply: seq<Uuid>)
    requires |bodies| == |faults| == |supply| && Inv(start) && Awaiting(start, supply, 0)
    ensures Entering(start, start, p, bodies, faults, supply, 0, [], [])
  {
    GrowsNothing(start, Phonebook(p), Landed(ContentsOf(bodies), faults, 0));
  }

  /** `PhonebookContactCRUD` under `_PhonebookService`, with the committed tables and the session's working copy. */
  class PhonebookContactCRUD {
    var committed: Database
    var work: Database

    constructor (db: Database)
      requires Inv(db)
      ensures committed == db && work == db
    {
      committed, work := db, db;
    }

    /** `_create_one`; what it leaves in the session when it raises is undone by the caller. */
    method CreateOne(p: Uuid, body: Fields, fault: Fault, u: Uuid) returns (entry: Entry)
      requires "id" !in body
      modifies this`work
      ensures EntryOutcome(old(work), p, body, fault, u, entry, work)
    {
      var hash := HashOf(body);
      assert hash == body;
      if fault == Lost {
        return Aborted;
      }
      if hash in Hashes(work, Phonebook(p)) {
        return Duplicate;
      }
      if fault == ContactRejected {
        return Rejected;
      }
      ghost var before := work;
      var contact := Contact(Phonebook(p), hash);
      work := Insert(work, u, contact, {});
      if fault == FieldsRejected {
        return Rejected;
      }
      work := work.(rows := work.rows + PhonebookRows(body, u));
      assert work == Insert(before, u, contact, PhonebookRows(hash, u));
      entry := Created(Stored(u, contact));
    }

    /** The loop of `create_many`: one savepoint for each entry. */
    method CreateEntries(p: Uuid, bodies: seq<Fields>, faults: seq<Fault>, supply: seq<Uuid>)
      returns (aborted: bool, errors: seq<nat>, good: seq<Fields>)
      requires Inv(work) && Awaiting(work, supply, 0) && |faults| == |supply| == |bodies|
      requires forall i | 0 <= i < |bodies| :: "id" !in bodies[i]
      modifies this`work
      ensures aborted <==> AnyLost(faults)
      ensures !aborted ==>
        Importing(old(work), work, Phonebook(p), ContentsOf(bodies), faults, |bodies|, errors, good)
    {
      ghost var start := work;
      aborted, good, errors := false, [], [];
      ImportBegins(start, p, bodies, faults, supply);
      for i := 0 to |bodies|
        invariant Entering(start, work, p, bodies, faults, supply, i, errors, good)
      {
        aborted, errors, good := CreateEntry(p, bodies, faults, supply, i, errors, good, start);
        if aborted {
          return;
        }
      }
      assert !AnyLost(faults);
    }

    /** One entry of `create_many`, under its savepoint. */
    method CreateEntry(p: Uuid, bodies: seq<Fields>, faults: seq<Fault>, supply: seq<Uuid>, i: nat,
                       errorsBefore: seq<nat>, goodBefore: seq<Fields>, ghost start: Database)
      returns (aborted: bool, errors: seq<nat>, good: seq<Fields>)
      requires i < |bodies| == |faults| == |supply| && Inv(start) && "id" !in bodies[i]
      requires Entering(start, work, p, bodies, faults, supply, i, errorsBefore, goodBefore)
      modifies this`work
      ensures aborted <==> faults[i] == Lost
      ensures !aborted ==> Entering(start, work, p, bodies, faults, supply, i + 1, errors, good)
    {
      errors, good := errorsBefore, goodBefore;
      var savepoint := work;
      var entry := CreateOne(p, bodies[i], faults[i], supply[i]);
      aborted := entry == Aborted;
      if entry.Created? {
        EnterCreated(start, savepoint, p, bodies, faults, supply, i, errors, good, entry, work);
        good := good + [entry.fields];
      } else if !aborted {
        work := savepoint;
        EnterSkipped(start, work, p, bodies, faults, supply, i, errors, good);
        if entry == Rejected {
          errors := errors + [i];
        }
      }
    }

    /** `create_many`: one commit for all the entries, unless one of them failed. */
    method CreateMany(p: Uuid, bodies: seq<Fields>, faults: seq<Fault>, supply: seq<Uuid>) returns (outcome: Import)
      requires Inv(committed) && Awaiting(committed, supply, 0) && |faults| == |supply| == |bodies|
      requires forall i | 0 <= i < |bodies| :: "id" !in bodies[i]
      modifies this
      ensures CreatedMany(old(committed), p, bodies, faults, outcome, committed) && work == committed
    {
      work := committed;
      var aborted, errors, good := CreateEntries(p, bodies, faults, supply);
      if aborted {
        outcome := Unavailable;
      } else if errors != [] {
        outcome := Failed(errors);
      } else {
        ImportEnds(committed, work, p, bodies, faults, good);
        outcome := Imported(good);
      }
      committed := AfterSession(committed, work, outcome.Imported?);
      work := committed;
    }

    /** `import_contacts` */
    method ImportContacts(p: Uuid, bodies: seq<Fields>, faults: seq<Fault>, supply: seq<Uuid>) returns (outcome: Import)
      requires Inv(committed) && Awaiting(committed, supply, 0) && |faults| == |supply| == |bodies|
      modifies this
      ensures ImportedContacts(old(committed), p, bodies, faults, outcome, committed)
    {
      var toAdd: seq<Fields>, errors: seq<nat> := [], [];
      for i := 0 to |bodies|
        invariant committed == old(committed)
        invariant errors == InvalidPositions(bodies, i)
        invariant errors == [] ==> toAdd == ContentsOf(bodies[..i])
      {
        assert errors == [] ==> ContentsOf(bodies[..i + 1]) == ContentsOf(bodies[..i]) + [HashOf(bodies[i])];
        var validated := Validate(bodies[i]);
        match validated {
          case Some(contact) => toAdd := toAdd + [contact];
          case None => errors := errors + [i];
        }
      }
      if errors != [] {
        return Invalid(errors);
      }
      assert bodies[..|bodies|] == bodies;
      ContentsTwice(bodies);
      outcome := CreateMany(p, toAdd, faults, supply);
    }

    /** `create_contact` */
    method Create(p: Uuid, body: Fields, fault: Fault, u: Uuid) returns (reply: Reply)
      requires Inv(committed) && FreshUuid(committed, u)
      modifies this
      ensures CreatedOne(old(committed), p, body, fault, reply, committed)
    {
      var validated := Validate(body);
      if validated.None? {
        return InvalidBody;
      }
      work := committed;
      var entry := CreateOne(p, validated.value, fault, u);
      match entry {
        case Created(fields) =>
          InsertedGrows(committed, p, HashOf(body), u, entry, work);
          assert Reads(work, Phonebook(p), HashOf(body), fields, u);
          reply := Saved(fields);
        case Duplicate => reply := AlreadyThere;
        case Rejected => reply := Refused;
        case Aborted => reply := ServiceDown;
      }
      committed := AfterSession(committed, work, reply.Saved?);
      work := committed;
    }

    /** `edit_contact` */
    method Edit(p: Uuid, id: Uuid, body: Fields, fault: Fault) returns (reply: Reply)
      requires Inv(committed)
      modifies this
      ensures EditedOne(old(committed), p, id, body, fault, reply, committed)
    {
      var validated := Validate(body);
      if validated.None? {
        return InvalidBody;
      }
      work := committed;
      if fault == Lost {
        reply := ServiceDown;
      } else if !(id in work.contacts && work.contacts[id].owner == Phonebook(p)) {
        reply := NoSuchContact;
      } else {
        var hash := HashOf(validated.value);
        assert hash == HashOf(body);
        work := work.(contacts := work.contacts[id := Contact(Phonebook(p), hash)]);
        var taken := exists v | v in work.contacts :: v != id && work.contacts[v] == Contact(Phonebook(p), hash);
        TakenAfterUpdate(committed, p, id, hash);
        if taken {
          reply := AlreadyThere;
        } else if fault == ContactRejected {
          reply := Refused;
        } else if fault == FieldsRejected {
          reply := Unmapped;
        } else {
          work := work.(rows := (set r | r in work.rows && r.uuid != id) + PhonebookRows(validated.value, id));
          FieldsReplaced(committed, p, id, hash, work);
          reply := Saved(Stored(id, work.contacts[id]));
        }
      }
      committed := AfterSession(committed, work, reply.Saved?);
      work := committed;
    }

    /** `delete_contact` */
    method Delete(p: Uuid, id: Uuid, fault: Fault) returns (reply: Reply)
      requires Inv(committed)
      modifies this
      ensures DeletedOne(old(committed), p, id, fault, reply, committed)
    {
      work := committed;
      if fault == Lost {
        reply := ServiceDown;
      } else if !(id in work.contacts && work.contacts[id].owner == Phonebook(p)) {
        reply := NoSuchContact;
      } else {
        work := Remove(work, {id});
        reply := Gone;
      }
      committed := AfterSession(committed, work, reply.Gone?);
      work := committed;
    }
  }
}
