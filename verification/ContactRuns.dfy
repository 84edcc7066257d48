/**
 Runs of the contact tables: any number of operations on any number of owners, successful or not,
 one session after the other (`wazo_dird/database/queries/personal.py`, `wazo_dird/database/queries/phonebook.py`).
 */
module ContactRuns {
  import opened Wrappers
  import opened FirstOccurrences
  import opened ContactRows
  import opened ContactStore
  import Personal = PersonalContacts
  import opened PhonebookContacts
  import Listing = PhonebookListing

  datatype Event =
    | PersonalCreate(user: Uuid, bodies: seq<Fields>, failOnDuplicate: bool, outcome: Personal.Outcome)
    | PersonalEdit(user: Uuid, id: Uuid, body: Fields, outcome: Personal.Outcome)
    | PersonalDelete(user: Uuid, only: Option<Uuid>, outcome: Personal.Outcome)
    | PhonebookImport(phonebook: Uuid, bodies: seq<Fields>, faults: seq<Fault>, result: Import)
    | PhonebookCreate(phonebook: Uuid, body: Fields, fault: Fault, reply: Reply)
    | PhonebookEdit(phonebook: Uuid, id: Uuid, body: Fields, fault: Fault, reply: Reply)
    | PhonebookDelete(phonebook: Uuid, id: Uuid, fault: Fault, reply: Reply)

  function OwnerOf(e: Event): Owner {
    match e
    case PersonalCreate(user, _, _, _) => User(user)
    case PersonalEdit(user, _, _, _) => User(user)
    case PersonalDelete(user, _, _) => User(user)
    case PhonebookImport(phonebook, _, _, _) => Phonebook(phonebook)
    case PhonebookCreate(phonebook, _, _, _) => Phonebook(phonebook)
    case PhonebookEdit(phonebook, _, _, _, _) => Phonebook(phonebook)
    case PhonebookDelete(phonebook, _, _, _) => Phonebook(phonebook)
  }

  /** The operation takes the tables from `before` to `after`, as its method promises. */
  ghost predicate Step(before: Database, e: Event, after: Database) {
    match e
    case PersonalCreate(user, bodies, failOnDuplicate, outcome) =>
      Personal.Created(before, user, bodies, failOnDuplicate, outcome, after)
    case PersonalEdit(user, id, body, outcome) => Personal.Edited(before, user, id, body, outcome, after)
    case PersonalDelete(user, only, outcome) => Personal.Removed(before, user, only, outcome, after)
    case PhonebookImport(p, bodies, faults, result) =>
      |faults| == |bodies| && ImportedContacts(before, p, bodies, faults, result, after)
    case PhonebookCreate(p, body, fault, reply) => CreatedOne(before, p, body, fault, reply, after)
    case PhonebookEdit(p, id, body, fault, reply) => EditedOne(before, p, id, body, fault, reply, after)
    case PhonebookDelete(p, id, fault, reply) => DeletedOne(before, p, id, fault, reply, after)
  }

  ghost predicate Run(states: seq<Database>, events: seq<Event>) {
    && |states| == |events| + 1
    && (forall i | 0 <= i < |events| :: Step(states[i], events[i], states[i + 1]))
  }

  // ---------- One step ----------

  /** What an operation for an owner keeps. */
  ghost predicate Keeps(before: Database, o: Owner, after: Database) {
    Inv(after) && forall other | other != o :: View(after, other) == View(before, other)
  }

  lemma GrowthKeeps(before: Database, o: Owner, wanted: set<Hash>, after: Database)
    requires Inv(before) && Grows(before, after, o, wanted)
    ensures Keeps(before, o, after)
  {
    GrowsKeepsInv(before, after, o, wanted);
    forall other | other != o ensures View(after, other) == View(before, other) {
      GrowsElsewhere(before, after, o, wanted, other);
    }
  }

  lemma ReplacementKeeps(before: Database, u: Uuid, h: Hash, after: Database)
    requires Inv(before) && u in before.contacts && "id" !in h && !TakenByAnother(before, u, h)
    requires Replaced(before, after, u, h)
    ensures Keeps(before, before.contacts[u].owner, after)
  {
    ReplacedKeepsInv(before, after, u, h);
    forall other | other != before.contacts[u].owner ensures View(after, other) == View(before, other) {
      ReplacedElsewhere(before, after, u, h, other);
    }
  }

  lemma RemovalKeeps(before: Database, us: set<Uuid>, o: Owner)
    requires Inv(before) && forall u | u in us && u in before.contacts :: before.contacts[u].owner == o
    ensures Keeps(before, o, Remove(before, us))
  {
    RemoveKeepsInv(before, us);
    forall other | other != o ensures View(Remove(before, us), other) == View(before, other) {
      RemoveElsewhere(before, us, other);
    }
  }

  lemma PersonalStepKeeps(before: Database, e: Event, after: Database)
    requires Inv(before) && Step(before, e, after) && OwnerOf(e).User?
    ensures Keeps(before, OwnerOf(e), after)
  {
    if after != before {
      match e
      case PersonalCreate(user, bodies, _, _) => GrowthKeeps(before, User(user), Personal.Wanted(bodies), after);
      case PersonalEdit(user, id, body, _) => ReplacementKeeps(before, id, HashOf(body), after);
      case PersonalDelete(user, only, _) => RemovalKeeps(before, Personal.Targets(before, user, only), User(user));
    }
  }

  lemma PhonebookStepKeeps(before: Database, e: Event, after: Database)
    requires Inv(before) && Step(before, e, after) && OwnerOf(e).Phonebook?
    ensures Keeps(before, OwnerOf(e), after)
  {
    if after != before {
      match e
      case PhonebookImport(p, bodies, _, _) => GrowthKeeps(before, Phonebook(p), Elements(ContentsOf(bodies)), after);
      case PhonebookCreate(p, body, _, _) => GrowthKeeps(before, Phonebook(p), {HashOf(body)}, after);
      case PhonebookEdit(p, id, body, _, _) => ReplacementKeeps(before, id, HashOf(body), after);
      case PhonebookDelete(p, id, _, _) => RemovalKeeps(before, {id}, Phonebook(p));
    }
  }

  /** An operation that fails leaves the tables as they were. */
  predicate Succeeded(e: Event) {
    match e
    case PersonalCreate(_, _, _, outcome) => outcome.Done?
    case PersonalEdit(_, _, _, outcome) => outcome.Done?
    case PersonalDelete(_, _, outcome) => outcome.Deleted?
    case PhonebookImport(_, _, _, result) => result.Imported?
    case PhonebookCreate(_, _, _, reply) => reply.Saved?
    case PhonebookEdit(_, _, _, _, reply) => reply.Saved?
    case PhonebookDelete(_, _, _, reply) => reply.Gone?
  }

  // ---------- Whole runs ----------

  /**
   In every run, whatever fails: each contact's rows spell exactly its hashed content plus its uuid,
   no owner has a content twice, and an owner that no successful operation names keeps everything.
   */
  lemma {:induction false} RunKeeps(states: seq<Database>, events: seq<Event>, n: nat)
    requires Run(states, events) && Inv(states[0]) && n <= |events|
    ensures Inv(states[n])
    ensures forall o | (forall i | 0 <= i < n :: Succeeded(events[i]) ==> OwnerOf(events[i]) != o) ::
      View(states[n], o) == View(states[0], o)
  {
    if n > 0 {
      RunKeeps(states, events, n - 1);
      var e := events[n - 1];
      assert Step(states[n - 1], e, states[n]);
      if OwnerOf(e).User? {
        PersonalStepKeeps(states[n - 1], e, states[n]);
      } else {
        PhonebookStepKeeps(states[n - 1], e, states[n]);
      }
      assert !Succeeded(e) ==> states[n] == states[n - 1];
    }
  }

  /** A contact read back in any reachable state, from any listing of the rows. */
  lemma ReachableContactReadsBack(states: seq<Database>, events: seq<Event>, n: nat, u: Uuid, listing: seq<Row>)
    requires Run(states, events) && Inv(states[0]) && n <= |events|
    requires u in states[n].contacts && Elements(listing) == states[n].rows
    ensures FieldsOf(listing, u) == Stored(u, states[n].contacts[u])
    ensures HashOf(FieldsOf(listing, u)) == states[n].contacts[u].hash
  {
    RunKeeps(states, events, n);
    ContactReadsBack(states[n], u, listing);
  }

  // ---------- Counting and listing in every reachable state ----------

  /** No phonebook has a contact without content. */
  predicate NoBareContact(db: Database) {
    forall u | u in db.contacts && db.contacts[u].owner.Phonebook? :: db.contacts[u].hash != map[]
  }

  predicate IsBareBody(body: Fields) {
    body.Keys == {"id"}
  }

  /** The operation saves a body whose only key is `id` in a phonebook. */
  predicate SavesBareBody(e: Event) {
    Succeeded(e) &&
    match e
    case PhonebookImport(_, bodies, _, _) => exists i | 0 <= i < |bodies| :: IsBareBody(bodies[i])
    case PhonebookCreate(_, body, _, _) => IsBareBody(body)
    case PhonebookEdit(_, _, body, _, _) => IsBareBody(body)
    case _ => false
  }

  /** A growing phonebook gets a contact without content exactly when that is wanted. */
  lemma GrowthBare(before: Database, p: Uuid, wanted: set<Hash>, after: Database)
    requires Inv(before) && NoBareContact(before) && Grows(before, after, Phonebook(p), wanted)
    ensures NoBareContact(after) <==> map[] !in wanted
  {
    if map[] in wanted {
      assert map[] in Hashes(after, Phonebook(p));
    }
  }

  lemma ImportedBodies(bodies: seq<Fields>)
    requires InvalidPositions(bodies, |bodies|) == []
    ensures map[] in Elements(ContentsOf(bodies)) <==> exists i | 0 <= i < |bodies| :: IsBareBody(bodies[i])
  {
    InvalidPositionsIff(bodies, |bodies|);
    forall i | 0 <= i < |bodies| ensures ContentsOf(bodies)[i] == map[] <==> IsBareBody(bodies[i]) {
      assert Valid(bodies[i]);
      Listing.BareBodies(bodies[i]);
    }
  }

  lemma PersonalStepBare(before: Database, e: Event, after: Database)
    requires Inv(before) && Step(before, e, after) && NoBareContact(before) && OwnerOf(e).User?
    ensures NoBareContact(after)
  {
  }

  lemma ImportBare(before: Database, p: Uuid, bodies: seq<Fields>, faults: seq<Fault>, created: seq<Fields>,
                   after: Database)
    requires Inv(before) && NoBareContact(before) && |faults| == |bodies|
    requires ImportedContacts(before, p, bodies, faults, Imported(created), after)
    ensures NoBareContact(after) <==> !exists i | 0 <= i < |bodies| :: IsBareBody(bodies[i])
  {
    ImportedBodies(bodies);
    GrowthBare(before, p, Elements(ContentsOf(bodies)), after);
  }

  lemma CreateBare(before: Database, p: Uuid, body: Fields, fault: Fault, fields: Fields, after: Database)
    requires Inv(before) && NoBareContact(before) && CreatedOne(before, p, body, fault, Saved(fields), after)
    ensures NoBareContact(after) <==> !IsBareBody(body)
  {
    Listing.BareBodies(body);
    GrowthBare(before, p, {HashOf(body)}, after);
  }

  lemma EditBare(before: Database, p: Uuid, id: Uuid, body: Fields, fault: Fault, fields: Fields, after: Database)
    requires NoBareContact(before) && EditedOne(before, p, id, body, fault, Saved(fields), after)
    ensures NoBareContact(after) <==> !IsBareBody(body)
  {
    Listing.BareBodies(body);
    assert id in after.contacts && after.contacts[id] == Contact(Phonebook(p), HashOf(body));
  }

  /** From a store without such contacts, one operation makes one exactly when it saves such a body. */
  lemma StepBare(before: Database, e: Event, after: Database)
    requires Inv(before) && Step(before, e, after) && NoBareContact(before)
    ensures NoBareContact(after) <==> !SavesBareBody(e)
  {
    if OwnerOf(e).User? {
      PersonalStepBare(before, e, after);
    } else if Succeeded(e) {
      match e
      case PhonebookImport(p, bodies, faults, result) => ImportBare(before, p, bodies, faults, result.created, after);
      case PhonebookCreate(p, body, fault, reply) => CreateBare(before, p, body, fault, reply.fields, after);
      case PhonebookEdit(p, id, body, fault, reply) => EditBare(before, p, id, body, fault, reply.fields, after);
      case PhonebookDelete(_, _, _, _) =>
    }
  }

  lemma RunStepBare(states: seq<Database>, events: seq<Event>, i: nat)
    requires Run(states, events) && Inv(states[0]) && i < |events| && NoBareContact(states[i])
    ensures NoBareContact(states[i + 1]) <==> !SavesBareBody(events[i])
  {
    RunKeeps(states, events, i);
    assert Step(states[i], events[i], states[i + 1]);
    StepBare(states[i], events[i], states[i + 1]);
  }

  predicate NeverBare(states: seq<Database>, n: nat)
    requires n < |states|
  {
    forall i | 0 <= i <= n :: NoBareContact(states[i])
  }

  predicate NeverSaves(events: seq<Event>, n: nat)
    requires n <= |events|
  {
    forall i | 0 <= i < n :: !SavesBareBody(events[i])
  }

  /** The step at `i` makes such a contact exactly when its operation saves such a body. */
  predicate BareAt(states: seq<Database>, events: seq<Event>, i: nat)
    requires i + 1 < |states| && i < |events|
  {
    NoBareContact(states[i]) ==> (NoBareContact(states[i + 1]) <==> !SavesBareBody(events[i]))
  }

  lemma {:induction false} BareChain(states: seq<Database>, events: seq<Event>, n: nat)
    requires n < |states| && n <= |events| && NoBareContact(states[0])
    requires forall i: nat | i < n :: BareAt(states, events, i)
    ensures NeverBare(states, n) <==> NeverSaves(events, n)
  {
    if n > 0 {
      BareChain(states, events, n - 1);
      assert BareAt(states, events, n - 1);
    }
  }

  /** In a run from such a store: no such contact in any state if and only if no operation saves such a body. */
  lemma RunBare(states: seq<Database>, events: seq<Event>, n: nat)
    requires Run(states, events) && Inv(states[0]) && NoBareContact(states[0]) && n <= |events|
    ensures NeverBare(states, n) <==> NeverSaves(events, n)
  {
    forall i: nat | i < n ensures BareAt(states, events, i) {
      if NoBareContact(states[i]) {
        RunStepBare(states, events, i);
      }
    }
    BareChain(states, events, n);
  }

  /** In this state, `count` is the length of `list` for every phonebook, every search and every listing of the rows. */
  ghost predicate CountsItsLists(db: Database) {
    forall p, search, listing | Elements(listing) == Listing.SearchedRows(db, p, search) ::
      |Distinct(Uuids(listing))| == Listing.Count(db, p, search)
  }

  lemma {:induction false} SomeListing<T>(s: set<T>) returns (listing: seq<T>)
    ensures Elements(listing) == s
  {
    if s == {} {
      listing := [];
    } else {
      var e :| e in s;
      var rest := SomeListing(s - {e});
      listing := [e] + rest;
      assert forall x :: x in listing <==> x == e || x in rest;
      assert forall x :: x in rest <==> x in Elements(rest);
    }
  }

  lemma CountsIff(db: Database)
    requires Inv(db)
    ensures CountsItsLists(db) <==> NoBareContact(db)
  {
    if NoBareContact(db) {
      forall p, search, listing | Elements(listing) == Listing.SearchedRows(db, p, search)
        ensures |Distinct(Uuids(listing))| == Listing.Count(db, p, search)
      {
        Listing.ListedContactsAreCounted(db, p, search, listing);
      }
    } else {
      var u :| u in db.contacts && db.contacts[u].owner.Phonebook? && db.contacts[u].hash == map[];
      var p := db.contacts[u].owner.phonebook;
      assert map[] in Hashes(db, Phonebook(p));
      var listing := SomeListing(Listing.SearchedRows(db, p, None));
      Listing.ListedContactsAreCounted(db, p, None, listing);
    }
  }

  /**
   In every run from a store without contacts without content: `count` is the length of `list` in all its
   states, for every phonebook, search and listing, if and only if no operation saves a body with only `id`.
   */
  lemma RunCountsItsLists(states: seq<Database>, events: seq<Event>, n: nat)
    requires Run(states, events) && Inv(states[0]) && NoBareContact(states[0]) && n <= |events|
    ensures (forall i | 0 <= i <= n :: CountsItsLists(states[i])) <==> NeverSaves(events, n)
  {
    RunBare(states, events, n);
    forall i | 0 <= i <= n ensures CountsItsLists(states[i]) <==> NoBareContact(states[i]) {
      RunKeeps(states, events, i);
      CountsIff(states[i]);
    }
  }

  // ---------- Bulk import ----------

  lemma NumberOfNewContents(had: set<Hash>, hashes: seq<Hash>)
    ensures |NewContents(had, hashes)| == |Elements(hashes) - had|
  {
    var news := NewContents(had, hashes);
    DistinctElements(hashes);
    WithoutElements(Distinct(hashes), had);
    DistinctSize(news);
    assert Elements(news) == Elements(hashes) - had;
  }

  /** After a successful import the phonebook has the old contents and those of the body, no more. */
  lemma ImportUnites(before: Database, p: Uuid, bodies: seq<Fields>, faults: seq<Fault>, created: seq<Fields>,
                     after: Database)
    requires Inv(before) && |faults| == |bodies|
    requires ImportedContacts(before, p, bodies, faults, Imported(created), after)
    ensures Hashes(after, Phonebook(p)) == Hashes(before, Phonebook(p)) + Elements(ContentsOf(bodies))
    ensures |after.contacts| == |before.contacts| + |created|
  {
    var o, hashes := Phonebook(p), ContentsOf(bodies);
    var had := Hashes(before, o);
    HashesGrow(before, after, o, Elements(hashes));
    NumberOfContacts(before, after, o, Elements(hashes));
    NumberOfNewContents(had, hashes);
  }

  lemma {:induction false} WithoutKeepsOrder(part: seq<Hash>, had: set<Hash>, hashes: seq<Hash>)
    requires forall i, j | 0 <= i < j < |part| :: InFirstOccurrenceOrder(hashes, part[i], part[j])
    ensures forall i, j | 0 <= i < j < |Without(part, had)| ::
      InFirstOccurrenceOrder(hashes, Without(part, had)[i], Without(part, had)[j])
    ensures forall i | 0 <= i < |Without(part, had)| :: Without(part, had)[i] in part
  {
    if part != [] {
      var init, last := part[..|part| - 1], part[|part| - 1];
      WithoutKeepsOrder(init, had, hashes);
      var rest := Without(init, had);
      forall i | 0 <= i < |rest| ensures InFirstOccurrenceOrder(hashes, rest[i], last) {
        var k :| 0 <= k < |init| && init[k] == rest[i];
        assert InFirstOccurrenceOrder(hashes, part[k], part[|part| - 1]);
      }
    }
  }

  /** What is created: the contents the phonebook did not have, in the order of their first occurrence in the body. */
  lemma NewContentsAreFirstOccurrences(had: set<Hash>, hashes: seq<Hash>)
    ensures forall h :: h in NewContents(had, hashes) <==> h in hashes && h !in had
    ensures forall i, j | 0 <= i < j < |NewContents(had, hashes)| ::
      InFirstOccurrenceOrder(hashes, NewContents(had, hashes)[i], NewContents(had, hashes)[j])
  {
    DistinctElements(hashes);
    DistinctInFirstOccurrenceOrder(hashes);
    WithoutElements(Distinct(hashes), had);
    WithoutKeepsOrder(Distinct(hashes), had, hashes);
  }

  /** Importing the same body again creates nothing and changes nothing, whatever happens to its entries. */
  lemma SecondImportCreatesNothing(before: Database, p: Uuid, bodies: seq<Fields>, faults: seq<Fault>,
                                   created: seq<Fields>,
                                   middle: Database, again: seq<Fault>, outcome: Import, after: Database)
    requires Inv(before) && |faults| == |again| == |bodies|
    requires ImportedContacts(before, p, bodies, faults, Imported(created), middle)
    requires ImportedContacts(middle, p, bodies, again, outcome, after)
    ensures after == middle && outcome == if AnyLost(again) then Unavailable else Imported([])
  {
    var o, hashes := Phonebook(p), ContentsOf(bodies);
    GrowsKeepsInv(before, middle, o, Elements(hashes));
    var had := Hashes(middle, o);
    assert forall h | h in hashes :: h in Elements(hashes);
    FailuresIff(had, hashes, again, |hashes|);
    EmptyOrNot(Failures(had, hashes, again, |hashes|));
    assert Failures(had, hashes, again, |hashes|) == [];
    if !AnyLost(again) {
      GrowsNothingOnly(middle, after, o, Elements(hashes));
      NewContentsAreFirstOccurrences(had, hashes);
      EmptyOrNot(NewContents(had, hashes));
    }
  }

  // ---------- Personal contacts ----------

  /**
   Bulk creation is the same whatever the order in which the contents are added and whatever uuids are
   generated: the same outcome, and the same contents for every owner.
   */
  lemma BulkCreateWhateverTheOrder(before: Database, user: Uuid, bodies: seq<Fields>, failOnDuplicate: bool,
                                   one: Personal.Outcome, after1: Database, listing1: seq<Row>,
                                   two: Personal.Outcome, after2: Database, listing2: seq<Row>, any: Owner)
    requires Inv(before)
    requires Personal.Created(before, user, bodies, failOnDuplicate, one, after1) && Elements(listing1) == after1.rows
    requires Personal.Created(before, user, bodies, failOnDuplicate, two, after2) && Elements(listing2) == after2.rows
    ensures one.Done? == two.Done? && (!one.Done? ==> one == two)
    ensures Contents(after1, any, listing1) == Contents(after2, any, listing2)
    ensures |after1.contacts| == |after2.contacts|
  {
    if one.Done? {
      GrowthIsUniqueUpToIds(before, after1, after2, User(user), Personal.Wanted(bodies), listing1, listing2, any);
    } else {
      ContentsAreHashes(after1, any, listing1);
      ContentsAreHashes(after2, any, listing2);
    }
  }

  /** Editing a contact to its own current content succeeds, and changes nothing. */
  lemma EditToOwnContent(before: Database, user: Uuid, id: Uuid, body: Fields, outcome: Personal.Outcome,
                         after: Database)
    requires Inv(before) && Personal.Edited(before, user, id, body, outcome, after)
    requires id in before.contacts && before.contacts[id] == Contact(User(user), HashOf(body))
    ensures outcome.Done? && after == before
  {
    ReplacedByItself(before, after, id);
  }

  lemma TakenAllTheSame(before: Database, middle: Database, id: Uuid, one: Hash, h: Hash)
    requires id in before.contacts && Replaced(before, middle, id, one)
    ensures TakenByAnother(before, id, h) <==> TakenByAnother(middle, id, h)
  {
    var o := before.contacts[id].owner;
    forall v ensures v in before.contacts && v != id && before.contacts[v] == Contact(o, h)
                <==> v in middle.contacts && v != id && middle.contacts[v] == Contact(o, h) {
    }
    if TakenByAnother(before, id, h) {
      var v :| v in before.contacts && v != id && before.contacts[v] == Contact(o, h);
      assert v in middle.contacts && middle.contacts[v] == Contact(o, h);
    }
  }

  lemma SameRows(one: Database, two: Database, u: Uuid, fields: Fields)
    requires forall r: Row | r.uuid != u :: r in one.rows <==> r in two.rows
    requires Spell(one.rows, u, fields) && Spell(two.rows, u, fields)
    ensures one.rows == two.rows
  {
    SpellDeterminesRows(fields, u, one.rows);
    SpellDeterminesRows(fields, u, two.rows);
    forall r ensures r in one.rows <==> r in two.rows {
      if r.uuid == u {
        assert r in RowsOf(one.rows, u) <==> r in RowsOf(two.rows, u);
      }
    }
  }

  /** Editing twice is editing once to the last body, when both succeed. */
  lemma LastEditWins(before: Database, user: Uuid, id: Uuid, first: Fields, second: Fields,
                     out1: Personal.Outcome, middle: Database, out2: Personal.Outcome, after: Database,
                     out3: Personal.Outcome, direct: Database)
    requires Inv(before)
    requires Personal.Edited(before, user, id, first, out1, middle) && out1.Done?
    requires Personal.Edited(middle, user, id, second, out2, after)
    requires Personal.Edited(before, user, id, second, out3, direct)
    ensures out2.Done? == out3.Done?
    ensures out2.Done? ==> after == direct
  {
    TakenAllTheSame(before, middle, id, HashOf(first), HashOf(second));
    if out2.Done? {
      SameRows(after, direct, id, Stored(id, after.contacts[id]));
    }
  }
}
