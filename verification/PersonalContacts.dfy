/**
 Personal contacts: bulk creation, editing and deletion, one transaction each
 (`wazo_dird/database/queries/personal.py`).
 */
module PersonalContacts {
  import opened Wrappers
  import opened ContactRows
  import opened ContactStore

  datatype Outcome =
    | Done(infos: seq<Fields>)
    | Deleted(count: nat)
    | Duplicated
    | NoSuchContact
    | Broken // a constraint violation that nothing catches

  // ---------- What the operations promise ----------

  function Wanted(bodies: seq<Fields>): set<Hash> {
    set i | 0 <= i < |bodies| :: HashOf(bodies[i])
  }

  /** The body that stands for its content: the last of its hash, as in a dict filled in order. */
  predicate IsLast(bodies: seq<Fields>, i: nat)
    requires i < |bodies|
  {
    forall j | i < j < |bodies| :: HashOf(bodies[j]) != HashOf(bodies[i])
  }

  function SuppliedId(body: Fields): Option<Uuid> {
    if "id" in body && body["id"] != "" then Some(body["id"]) else None
  }

  predicate NewAt(db: Database, user: Uuid, bodies: seq<Fields>, i: nat)
    requires i < |bodies|
  {
    IsLast(bodies, i) && HashOf(bodies[i]) !in Hashes(db, User(user))
  }

  /** The ids that come with the new bodies are free in the whole table, and differ from one another. */
  predicate Usable(db: Database, user: Uuid, bodies: seq<Fields>) {
    && (forall i: nat | i < |bodies| && NewAt(db, user, bodies, i) && SuppliedId(bodies[i]).Some? ::
          SuppliedId(bodies[i]).value !in db.contacts)
    && (forall i: nat, j: nat |
          i < |bodies| && j < |bodies| && i != j && NewAt(db, user, bodies, i) && NewAt(db, user, bodies, j) ::
          SuppliedId(bodies[i]).Some? ==> SuppliedId(bodies[i]) != SuppliedId(bodies[j]))
  }

  predicate Refused(db: Database, user: Uuid, bodies: seq<Fields>, failOnDuplicate: bool) {
    failOnDuplicate && Wanted(bodies) * Hashes(db, User(user)) != {}
  }

  /** The generated uuids: free, different from one another and from the ids in the bodies. */
  predicate Fresh(db: Database, bodies: seq<Fields>, supply: seq<Uuid>) {
    && |supply| == |bodies|
    && (forall i | 0 <= i < |supply| :: supply[i] != "" && supply[i] !in db.contacts)
    && (forall i, j | 0 <= i < j < |supply| :: supply[i] != supply[j])
    && (forall i, j | 0 <= i < |supply| && 0 <= j < |bodies| :: SuppliedId(bodies[j]) != Some(supply[i]))
  }

  /** The answer for one body: the body with the id of the user's contact that has its content. */
  predicate Answers(db: Database, user: Uuid, body: Fields, info: Fields) {
    && "id" in info && info == body["id" := info["id"]]
    && info["id"] in db.contacts && db.contacts[info["id"]] == Contact(User(user), HashOf(body))
  }

  /** Bodies repeated later in the list are answered as they came. */
  predicate AllAnswered(before: Database, after: Database, user: Uuid, bodies: seq<Fields>, infos: seq<Fields>) {
    && |infos| == |bodies|
    && (forall i: nat | i < |bodies| && IsLast(bodies, i) :: Answers(after, user, bodies[i], infos[i]))
    && (forall i: nat | i < |bodies| && !IsLast(bodies, i) :: infos[i] == bodies[i])
    && (forall i: nat | i < |bodies| && NewAt(before, user, bodies, i) && SuppliedId(bodies[i]).Some? ::
          infos[i] == bodies[i])
  }

  ghost predicate Created(before: Database, user: Uuid, bodies: seq<Fields>, failOnDuplicate: bool,
                          outcome: Outcome, after: Database) {
    if Refused(before, user, bodies, failOnDuplicate) then outcome == Duplicated && after == before
    else if !Usable(before, user, bodies) then outcome == Broken && after == before
    else
      && outcome.Done?
      && Grows(before, after, User(user), Wanted(bodies))
      && AllAnswered(before, after, user, bodies, outcome.infos)
  }

  ghost predicate Edited(before: Database, user: Uuid, id: Uuid, body: Fields, outcome: Outcome, after: Database) {
    if !(id in before.contacts && before.contacts[id].owner == User(user)) then
      outcome == NoSuchContact && after == before
    else if TakenByAnother(before, id, HashOf(body)) then
      outcome == Duplicated && after == before
    else
      outcome == Done([body["id" := id]]) && Replaced(before, after, id, HashOf(body))
  }

  /** The contacts of the user that a deletion is about. */
  function Targets(db: Database, user: Uuid, only: Option<Uuid>): set<Uuid> {
    set u | u in db.contacts && db.contacts[u].owner == User(user) && (only.None? || only.value == u)
  }

  ghost predicate Removed(before: Database, user: Uuid, only: Option<Uuid>, outcome: Outcome, after: Database) {
    var gone := Targets(before, user, only);
    if only.Some? && gone == {} then outcome == NoSuchContact && after == before
    else outcome == Deleted(|gone|) && after == Remove(before, gone)
  }

  // ---------- The operations ----------

  /** Where each content last occurs. */
  ghost predicate LastPlaces(bodies: seq<Fields>, places: map<Hash, nat>) {
    && places.Keys == Wanted(bodies)
    && (forall h | h in places :: places[h] < |bodies| && HashOf(bodies[places[h]]) == h && IsLast(bodies, places[h]))
  }

  lemma WantedStep(bodies: seq<Fields>, i: nat)
    requires i < |bodies|
    ensures Wanted(bodies[..i + 1]) == Wanted(bodies[..i]) + {HashOf(bodies[i])}
  {
    assert forall j | 0 <= j < i :: bodies[..i + 1][j] == bodies[..i][j];
    assert bodies[..i + 1][i] == bodies[i];
  }

  lemma StillLast(bodies: seq<Fields>, i: nat, k: nat)
    requires k < i < |bodies| && IsLast(bodies[..i], k) && HashOf(bodies[k]) != HashOf(bodies[i])
    ensures IsLast(bodies[..i + 1], k)
  {
    var init, longer := bodies[..i], bodies[..i + 1];
    forall j | k < j < |longer| ensures HashOf(longer[j]) != HashOf(longer[k]) {
      assert j < i ==> longer[j] == init[j];
    }
  }

  lemma LastPlacesStep(bodies: seq<Fields>, i: nat, places: map<Hash, nat>)
    requires i < |bodies| && LastPlaces(bodies[..i], places)
    ensures LastPlaces(bodies[..i + 1], places[HashOf(bodies[i]) := i])
  {
    var longer := bodies[..i + 1];
    WantedStep(bodies, i);
    forall h | h in places && h != HashOf(bodies[i])
      ensures HashOf(longer[places[h]]) == h && IsLast(longer, places[h])
    {
      StillLast(bodies, i, places[h]);
    }
  }

  method IndexByHash(bodies: seq<Fields>) returns (places: map<Hash, nat>)
    ensures LastPlaces(bodies, places)
  {
    places := map[];
    for i := 0 to |bodies|
      invariant LastPlaces(bodies[..i], places)
    {
      ghost var placesBefore := places;
      places := places[HashOf(bodies[i]) := i];
      LastPlacesStep(bodies, i, placesBefore);
    }
    assert bodies[..|bodies|] == bodies;
  }

  /** The uuid that a new body gets. */
  function Chosen(bodies: seq<Fields>, supply: seq<Uuid>, i: nat): Uuid
    requires i < |bodies| == |supply|
  {
    match SuppliedId(bodies[i])
    case Some(id) => id
    case None => supply[i]
  }

  /** A body added so far: it is answered, and its contact is there. */
  predicate AddedAt(db: Database, user: Uuid, bodies: seq<Fields>, supply: seq<Uuid>, infos: seq<Fields>, i: nat)
    requires i < |bodies| == |supply| == |infos|
  {
    var u := Chosen(bodies, supply, i);
    infos[i] == bodies[i]["id" := u] && u in db.contacts && db.contacts[u] == Contact(User(user), HashOf(bodies[i]))
  }

  predicate DoneAt(start: Database, user: Uuid, bodies: seq<Fields>, left: set<Hash>, i: nat)
    requires i < |bodies|
  {
    NewAt(start, user, bodies, i) && HashOf(bodies[i]) !in left
  }

  /** During the bulk insertion, with the contents in `left` still to be added: the tables, */
  ghost predicate Growing(start: Database, db: Database, user: Uuid, bodies: seq<Fields>, left: set<Hash>) {
    && Inv(db)
    && left <= Wanted(bodies) - Hashes(start, User(user))
    && Grows(start, db, User(user), Wanted(bodies) - left)
  }

  /** where the new uuids come from, */
  ghost predicate Sourced(start: Database, db: Database, user: Uuid, bodies: seq<Fields>, supply: seq<Uuid>,
                          left: set<Hash>)
    requires |bodies| == |supply|
  {
    forall u | u in db.contacts && u !in start.contacts ::
      exists i: nat | i < |bodies| :: DoneAt(start, user, bodies, left, i) && Chosen(bodies, supply, i) == u
  }

  /** and the bodies, updated in place. */
  ghost predicate Answering(start: Database, db: Database, user: Uuid, bodies: seq<Fields>, supply: seq<Uuid>,
                            infos: seq<Fields>, left: set<Hash>)
    requires |bodies| == |supply|
  {
    && |infos| == |bodies|
    && (forall i: nat | i < |bodies| && DoneAt(start, user, bodies, left, i) ::
          AddedAt(db, user, bodies, supply, infos, i))
    && (forall i: nat | i < |bodies| && !DoneAt(start, user, bodies, left, i) :: infos[i] == bodies[i])
  }

  lemma CollisionIsUnusable(start: Database, db: Database, user: Uuid, bodies: seq<Fields>, supply: seq<Uuid>,
                            left: set<Hash>, i: nat)
    requires Fresh(start, bodies, supply) && Sourced(start, db, user, bodies, supply, left)
    requires i < |bodies| && NewAt(start, user, bodies, i) && HashOf(bodies[i]) in left
    requires Chosen(bodies, supply, i) in db.contacts
    ensures !Usable(start, user, bodies)
  {
    var u := Chosen(bodies, supply, i);
    if u !in start.contacts {
      var k: nat :| k < |bodies| && DoneAt(start, user, bodies, left, k) && Chosen(bodies, supply, k) == u;
      assert k != i;
      assert SuppliedId(bodies[i]) == SuppliedId(bodies[k]) == Some(u);
    }
  }

  lemma HashWithId(body: Fields, u: Uuid)
    ensures HashOf(body)["id" := u] == body["id" := u]
  {
  }

  lemma InsertPersonal(db: Database, user: Uuid, body: Fields, u: Uuid, grown: Database)
    requires Inv(db) && u != "" && u !in db.contacts && HashOf(body) !in Hashes(db, User(user))
    requires grown == Insert(db, u, Contact(User(user), HashOf(body)), FieldRows(body["id" := u], u))
    ensures Grows(db, grown, User(user), {HashOf(body)}) && Inv(grown)
  {
    HashWithId(body, u);
    InsertGrows(db, u, Contact(User(user), HashOf(body)), FieldRows(body["id" := u], u));
    GrowsKeepsInv(db, grown, User(user), {HashOf(body)});
  }

  lemma AddedBack<T>(all: set<T>, left: set<T>, e: T)
    requires e in all
    ensures all - left + {e} == all - (left - {e})
  {
  }

  lemma GrowOne(start: Database, db: Database, user: Uuid, bodies: seq<Fields>, left: set<Hash>, i: nat, u: Uuid,
                grown: Database)
    requires Inv(start) && Growing(start, db, user, bodies, left)
    requires i < |bodies| && HashOf(bodies[i]) in left
    requires u != "" && u !in db.contacts
    requires grown == Insert(db, u, Contact(User(user), HashOf(bodies[i])), FieldRows(bodies[i]["id" := u], u))
    ensures Growing(start, grown, user, bodies, left - {HashOf(bodies[i])})
  {
    var h := HashOf(bodies[i]);
    HashesGrow(start, db, User(user), Wanted(bodies) - left);
    InsertPersonal(db, user, bodies[i], u, grown);
    GrowsTwice(start, db, grown, User(user), Wanted(bodies) - left, {h});
    AddedBack(Wanted(bodies), left, h);
  }

  lemma OnlyOneNewAt(start: Database, user: Uuid, bodies: seq<Fields>, i: nat, k: nat)
    requires i < |bodies| && k < |bodies| && NewAt(start, user, bodies, i) && NewAt(start, user, bodies, k)
    requires HashOf(bodies[i]) == HashOf(bodies[k])
    ensures i == k
  {
  }

  lemma SourceOne(start: Database, db: Database, user: Uuid, bodies: seq<Fields>, supply: seq<Uuid>, left: set<Hash>,
                  i: nat, grown: Database)
    requires |bodies| == |supply| && Sourced(start, db, user, bodies, supply, left)
    requires i < |bodies| && NewAt(start, user, bodies, i)
    requires forall u | u in grown.contacts :: u in db.contacts || u == Chosen(bodies, supply, i)
    ensures Sourced(start, grown, user, bodies, supply, left - {HashOf(bodies[i])})
  {
    var fewer := left - {HashOf(bodies[i])};
    assert DoneAt(start, user, bodies, fewer, i);
    forall u | u in grown.contacts && u !in start.contacts
      ensures exists k: nat | k < |bodies| :: DoneAt(start, user, bodies, fewer, k) && Chosen(bodies, supply, k) == u
    {
      if u != Chosen(bodies, supply, i) {
        var k: nat :| k < |bodies| && DoneAt(start, user, bodies, left, k) && Chosen(bodies, supply, k) == u;
        assert DoneAt(start, user, bodies, fewer, k);
      }
    }
  }

  lemma AnswerOne(start: Database, db: Database, user: Uuid, bodies: seq<Fields>, supply: seq<Uuid>,
                  infos: seq<Fields>, left: set<Hash>, i: nat, grown: Database)
    requires |bodies| == |supply| && Answering(start, db, user, bodies, supply, infos, left)
    requires i < |bodies| && NewAt(start, user, bodies, i) && HashOf(bodies[i]) in left
    requires var u := Chosen(bodies, supply, i);
      u !in db.contacts && grown.contacts == db.contacts[u := Contact(User(user), HashOf(bodies[i]))]
    ensures Answering(start, grown, user, bodies, supply,
                      infos[i := bodies[i]["id" := Chosen(bodies, supply, i)]], left - {HashOf(bodies[i])})
  {
    var fewer, after := left - {HashOf(bodies[i])}, infos[i := bodies[i]["id" := Chosen(bodies, supply, i)]];
    forall k: nat | k < |bodies| && k != i
      ensures DoneAt(start, user, bodies, fewer, k) <==> DoneAt(start, user, bodies, left, k)
    {
      if DoneAt(start, user, bodies, fewer, k) && HashOf(bodies[k]) == HashOf(bodies[i]) {
        OnlyOneNewAt(start, user, bodies, i, k);
      }
    }
    forall k: nat | k < |bodies| && DoneAt(start, user, bodies, fewer, k)
      ensures AddedAt(grown, user, bodies, supply, after, k)
    {
      assert k != i ==> AddedAt(db, user, bodies, supply, infos, k);
    }
  }

  lemma AllAdded(start: Database, db: Database, user: Uuid, bodies: seq<Fields>, supply: seq<Uuid>, infos: seq<Fields>)
    requires |supply| == |bodies|
    requires Growing(start, db, user, bodies, {}) && Answering(start, db, user, bodies, supply, infos, {})
    ensures Usable(start, user, bodies)
    ensures Grows(start, db, User(user), Wanted(bodies))
  {
    assert Wanted(bodies) - {} == Wanted(bodies);
    assert forall u | u in start.contacts && start.contacts[u].owner == User(user) ::
      start.contacts[u].hash in Hashes(start, User(user));
    forall i: nat | i < |bodies| && NewAt(start, user, bodies, i)
      ensures AddedAt(db, user, bodies, supply, infos, i) && Chosen(bodies, supply, i) !in start.contacts
    {
      assert DoneAt(start, user, bodies, {}, i);
    }
    forall i: nat, j: nat | i < |bodies| && j < |bodies| && i != j
                      && NewAt(start, user, bodies, i) && NewAt(start, user, bodies, j)
      ensures Chosen(bodies, supply, i) != Chosen(bodies, supply, j)
    {
      if HashOf(bodies[i]) == HashOf(bodies[j]) {
        OnlyOneNewAt(start, user, bodies, i, j);
      }
    }
  }

  /** An answer once the ids of the contents that were already there are filled in, those in `known` excepted. */
  function Named(bodies: seq<Fields>, existing: map<Hash, Uuid>, known: set<Hash>, i: nat, info: Fields): Fields
    requires i < |bodies|
  {
    var h := HashOf(bodies[i]);
    if IsLast(bodies, i) && h in existing && h !in known then info["id" := existing[h]] else info
  }

  lemma OnlyPlace(bodies: seq<Fields>, places: map<Hash, nat>, h: Hash)
    requires LastPlaces(bodies, places) && h in places
    ensures forall i: nat | i < |bodies| :: IsLast(bodies, i) && HashOf(bodies[i]) == h <==> i == places[h]
  {
  }

  /** The second loop of `_create_personal_contacts`: the contents that were already there, in any order. */
  method FillKnown(bodies: seq<Fields>, places: map<Hash, nat>, existing: map<Hash, Uuid>, added: seq<Fields>)
    returns (infos: seq<Fields>)
    requires LastPlaces(bodies, places) && |added| == |bodies|
    ensures |infos| == |bodies|
    ensures forall i: nat | i < |bodies| :: infos[i] == Named(bodies, existing, {}, i, added[i])
  {
    infos := added;
    var known := places.Keys * existing.Keys;
    while known != {}
      invariant known <= places.Keys * existing.Keys && |infos| == |bodies|
      invariant forall i: nat | i < |bodies| :: infos[i] == Named(bodies, existing, known, i, added[i])
      decreases known
    {
      var h :| h in known;
      var i := places[h];
      OnlyPlace(bodies, places, h);
      infos := infos[i := infos[i]["id" := existing[h]]];
      known := known - {h};
    }
  }

  lemma AnsweredInTheEnd(start: Database, db: Database, user: Uuid, bodies: seq<Fields>, supply: seq<Uuid>,
                         existing: map<Hash, Uuid>, added: seq<Fields>, infos: seq<Fields>)
    requires Inv(start) && existing == Ids(start, User(user)) && Grows(start, db, User(user), Wanted(bodies))
    requires |supply| == |bodies| == |infos| && Answering(start, db, user, bodies, supply, added, {})
    requires forall i: nat | i < |bodies| :: infos[i] == Named(bodies, existing, {}, i, added[i])
    ensures AllAnswered(start, db, user, bodies, infos)
  {
    forall i: nat | i < |bodies|
      ensures IsLast(bodies, i) ==> Answers(db, user, bodies[i], infos[i])
      ensures !IsLast(bodies, i) ==> infos[i] == bodies[i]
      ensures NewAt(start, user, bodies, i) && SuppliedId(bodies[i]).Some? ==> infos[i] == bodies[i]
    {
      assert infos[i] == Named(bodies, existing, {}, i, added[i]);
      if NewAt(start, user, bodies, i) {
        assert DoneAt(start, user, bodies, {}, i);
        assert AddedAt(db, user, bodies, supply, added, i);
      } else {
        assert !DoneAt(start, user, bodies, {}, i);
      }
    }
  }

  /** The contacts that the join over the rows finds. */
  function Found(db: Database, user: Uuid, only: Option<Uuid>): set<Uuid> {
    set r | r in db.rows && r.uuid in db.contacts && db.contacts[r.uuid].owner == User(user)
            && (only.None? || r.uuid == only.value) :: r.uuid
  }

  /** Every contact of a user has a row, so the join over the rows finds it. */
  lemma FoundByRows(db: Database, user: Uuid, only: Option<Uuid>)
    requires Inv(db)
    ensures Found(db, user, only) == Targets(db, user, only)
  {
    forall u | u in Targets(db, user, only) ensures u in Found(db, user, only) {
      assert Kept(db, u);
      assert Row(u, "id", Stored(u, db.contacts[u])["id"]) in db.rows;
    }
  }

  lemma FoundById(db: Database, user: Uuid, id: Uuid)
    ensures Targets(db, user, Some(id))
         == if id in db.contacts && db.contacts[id].owner == User(user) then {id} else {}
  {
  }

  lemma RemoveMore(db: Database, us: set<Uuid>, u: Uuid)
    ensures Remove(Remove(db, us), {u}) == Remove(db, us + {u})
  {
  }

  lemma TakenOrFree(db: Database, user: Uuid, id: Uuid, h: Hash)
    requires Inv(db) && id in db.contacts && db.contacts[id].owner == User(user)
    ensures TakenByAnother(db, id, h) <==> h in Hashes(Remove(db, {id}), User(user))
  {
    var left := Remove(db, {id});
    if TakenByAnother(db, id, h) {
      var v :| v in db.contacts && v != id && db.contacts[v] == Contact(User(user), h);
      assert v in left.contacts && left.contacts[v] == db.contacts[v];
    }
    if h in Hashes(left, User(user)) {
      var v :| v in left.contacts && left.contacts[v].owner == User(user) && left.contacts[v].hash == h;
      assert v in db.contacts && v != id;
    }
  }

  /** Creating one new body under a free id. */
  lemma CreatedOne(between: Database, user: Uuid, id: Uuid, body: Fields, outcome: Outcome, after: Database)
    requires id != "" && id !in between.contacts && HashOf(body) !in Hashes(between, User(user))
    requires Created(between, user, [body["id" := id]], false, outcome, if outcome.Done? then after else between)
    ensures outcome == Done([body["id" := id]]) && Grows(between, after, User(user), {HashOf(body)})
    ensures id in after.contacts && after.contacts[id] == Contact(User(user), HashOf(body))
  {
    var bodies := [body["id" := id]];
    assert HashOf(bodies[0]) == HashOf(body);
    assert IsLast(bodies, 0) && NewAt(between, user, bodies, 0) && SuppliedId(bodies[0]) == Some(id);
    assert Usable(between, user, bodies);
    assert Answers(after, user, bodies[0], outcome.infos[0]) && outcome.infos[0] == bodies[0];
    assert outcome.infos == bodies;
    assert HashOf(bodies[0]) in Wanted(bodies);
    assert Wanted(bodies) == {HashOf(body)};
  }

  lemma RegrownContacts(start: Database, between: Database, o: Owner, id: Uuid, h: Hash, after: Database)
    requires id in start.contacts && between == Remove(start, {id})
    requires Grows(between, after, o, {h}) && id in after.contacts && after.contacts[id] == Contact(o, h)
    ensures after.contacts == start.contacts[id := Contact(o, h)]
  {
    forall u | u in after.contacts && u !in between.contacts ensures u == id {
      assert after.contacts[u] == after.contacts[id];
    }
    forall u ensures u in after.contacts <==> u in start.contacts {
      assert u in between.contacts <==> u in start.contacts && u != id;
    }
  }

  lemma RegrownRows(start: Database, between: Database, o: Owner, id: Uuid, h: Hash, after: Database)
    requires Inv(start) && id in start.contacts && between == Remove(start, {id})
    requires Grows(between, after, o, {h}) && after.contacts == start.contacts[id := Contact(o, h)]
    ensures forall r: Row | r.uuid != id :: r in after.rows <==> r in start.rows
  {
    forall r: Row | r.uuid != id ensures r in after.rows <==> r in start.rows {
      assert r in between.rows <==> r in start.rows;
      if r in after.rows {
        assert r.uuid in after.contacts && r.uuid in between.contacts;
      }
    }
  }

  lemma RegrownIsReplaced(start: Database, between: Database, o: Owner, id: Uuid, h: Hash, after: Database)
    requires Inv(start) && id in start.contacts && start.contacts[id].owner == o && between == Remove(start, {id})
    requires Grows(between, after, o, {h}) && id in after.contacts && after.contacts[id] == Contact(o, h)
    ensures Replaced(start, after, id, h)
  {
    RegrownContacts(start, between, o, id, h, after);
    RegrownRows(start, between, o, id, h, after);
    assert id !in between.contacts;
    assert Kept(after, id);
  }

  lemma RecreatedIsReplaced(start: Database, between: Database, user: Uuid, id: Uuid, body: Fields, outcome: Outcome,
                            after: Database)
    requires Inv(start) && id in start.contacts && start.contacts[id].owner == User(user) && id != ""
    requires between == Remove(start, {id}) && HashOf(body) !in Hashes(between, User(user))
    requires Created(between, user, [body["id" := id]], false, outcome, if outcome.Done? then after else between)
    ensures outcome == Done([body["id" := id]]) && Replaced(start, after, id, HashOf(body))
  {
    var info := body["id" := id];
    CreatedOne(between, user, id, body, outcome, after);
    RegrownIsReplaced(start, between, User(user), id, HashOf(body), after);
  }

  /** `PersonalContactCRUD`, with the committed tables and the working copy of the current session. */
  class PersonalContactCRUD {
    var committed: Database
    var work: Database

    constructor (db: Database)
      requires Inv(db)
      ensures committed == db && work == db
    {
      committed, work := db, db;
    }

    /** The first loop of `_create_personal_contacts`: one INSERT for each content in `toAdd`, in any order. */
    method AddAll(user: Uuid, bodies: seq<Fields>, places: map<Hash, nat>, toAdd: set<Hash>, supply: seq<Uuid>)
      returns (ok: bool, infos: seq<Fields>)
      requires Inv(work) && Fresh(work, bodies, supply) && LastPlaces(bodies, places)
      requires toAdd == Wanted(bodies) - Hashes(work, User(user))
      modifies this`work
      ensures ok <==> Usable(old(work), user, bodies)
      ensures ok ==> Inv(work) && Grows(old(work), work, User(user), Wanted(bodies))
      ensures ok ==> Answering(old(work), work, user, bodies, supply, infos, {})
    {
      ghost var start := work;
      infos := bodies;
      var left := toAdd;
      GrowsNothing(work, User(user), Wanted(bodies) - left);
      while left != {}
        invariant Growing(start, work, user, bodies, left)
        invariant Sourced(start, work, user, bodies, supply, left)
        invariant Answering(start, work, user, bodies, supply, infos, left)
        decreases left
      {
        var h :| h in left;
        var i := places[h];
        assert NewAt(start, user, bodies, i) && !DoneAt(start, user, bodies, left, i);
        var contactUuid := match SuppliedId(infos[i]) { case Some(id) => id case None => supply[i] };
        assert contactUuid == Chosen(bodies, supply, i);
        if contactUuid in work.contacts {
          CollisionIsUnusable(start, work, user, bodies, supply, left, i);
          return false, infos;
        }
        ghost var before, infosBefore := work, infos;
        infos := infos[i := infos[i]["id" := contactUuid]];
        work := Insert(work, contactUuid, Contact(User(user), h), FieldRows(infos[i], contactUuid));
        GrowOne(start, before, user, bodies, left, i, contactUuid, work);
        SourceOne(start, before, user, bodies, supply, left, i, work);
        AnswerOne(start, before, user, bodies, supply, infosBefore, left, i, work);
        left := left - {h};
      }
      AllAdded(start, work, user, bodies, supply, infos);
      ok := true;
    }

    /** `_create_personal_contacts`, inside a session. */
    method CreateInSession(user: Uuid, bodies: seq<Fields>, failOnDuplicate: bool, supply: seq<Uuid>)
      returns (outcome: Outcome)
      requires Inv(work) && Fresh(work, bodies, supply)
      modifies this`work
      ensures Created(old(work), user, bodies, failOnDuplicate, outcome, if outcome.Done? then work else old(work))
      ensures outcome.Done? ==> Inv(work)
    {
      ghost var start := work;
      var places := IndexByHash(bodies);
      var existing := Ids(work, User(user));
      var toAdd := places.Keys - existing.Keys;
      var known := places.Keys * existing.Keys;
      if known != {} && failOnDuplicate {
        return Duplicated;
      }
      assert !Refused(start, user, bodies, failOnDuplicate);
      var ok, infos := AddAll(user, bodies, places, toAdd, supply);
      if !ok {
        return Broken;
      }
      var answers := FillKnown(bodies, places, existing, infos);
      AnsweredInTheEnd(start, work, user, bodies, supply, existing, infos, answers);
      outcome := Done(answers);
    }

    /** `create_personal_contacts` and, for a single body with `failOnDuplicate`, `create_personal_contact`. */
    method Create(user: Uuid, bodies: seq<Fields>, failOnDuplicate: bool, supply: seq<Uuid>) returns (outcome: Outcome)
      requires Inv(committed) && Fresh(committed, bodies, supply)
      modifies this
      ensures Created(old(committed), user, bodies, failOnDuplicate, outcome, committed) && work == committed
    {
      work := committed;
      outcome := CreateInSession(user, bodies, failOnDuplicate, supply);
      committed := AfterSession(committed, work, outcome.Done?);
      work := committed;
    }

    /** `_delete_personal_contacts_with_filter`, inside a session: the contacts with a row that passes the filter. */
    method DeleteInSession(user: Uuid, only: Option<Uuid>) returns (deleted: nat, ghost gone: set<Uuid>)
      requires Inv(work)
      modifies this`work
      ensures gone == Targets(old(work), user, only)
      ensures deleted == |gone| && work == Remove(old(work), gone)
    {
      ghost var start := work;
      var contacts := Found(work, user, only);
      FoundByRows(work, user, only);
      gone := contacts;
      deleted := 0;
      assert Remove(start, {}) == start;
      while contacts != {}
        invariant contacts <= gone && deleted + |contacts| == |gone|
        invariant work == Remove(start, gone - contacts)
        decreases contacts
      {
        var contact :| contact in contacts;
        RemoveMore(start, gone - contacts, contact);
        AddedBack(gone, contacts, contact);
        work := Remove(work, {contact});
        deleted := deleted + 1;
        contacts := contacts - {contact};
      }
      assert gone - {} == gone;
    }

    /** `delete_personal_contact` and, without an id, `delete_all_personal_contacts`. */
    method Delete(user: Uuid, only: Option<Uuid>) returns (outcome: Outcome)
      requires Inv(committed)
      modifies this
      ensures Removed(old(committed), user, only, outcome, committed) && work == committed
    {
      work := committed;
      var deleted, _ := DeleteInSession(user, only);
      outcome := if only.Some? && deleted == 0 then NoSuchContact else Deleted(deleted);
      committed := AfterSession(committed, work, outcome.Deleted?);
      work := committed;
    }

    /** `edit_personal_contact`: delete, look for a duplicate, create again under the same id. */
    method Edit(user: Uuid, id: Uuid, body: Fields, supply: seq<Uuid>) returns (outcome: Outcome)
      requires Inv(committed) && Fresh(committed, [body], supply) && supply[0] != id
      modifies this
      ensures Edited(old(committed), user, id, body, outcome, committed) && work == committed
    {
      ghost var start := committed;
      work := committed;
      var deleted, _ := DeleteInSession(user, Some(id));
      FoundById(start, user, id);
      if deleted == 0 {
        committed := AfterSession(committed, work, false);
        work := committed;
        return NoSuchContact;
      }
      assert work == Remove(start, {id});
      RemoveKeepsInv(start, {id});
      TakenOrFree(start, user, id, HashOf(body));
      if HashOf(body) in Ids(work, User(user)) {
        committed := AfterSession(committed, work, false);
        work := committed;
        return Duplicated;
      }
      outcome := CreateAgain(user, id, body, supply, start);
      committed := AfterSession(committed, work, true);
      work := committed;
    }

    /** The end of `edit_personal_contact`, the contact being deleted in the session. */
    method CreateAgain(user: Uuid, id: Uuid, body: Fields, supply: seq<Uuid>, ghost start: Database)
      returns (outcome: Outcome)
      requires Inv(start) && id in start.contacts && start.contacts[id].owner == User(user)
      requires Inv(work) && work == Remove(start, {id}) && HashOf(body) !in Hashes(work, User(user))
      requires Fresh(start, [body], supply) && supply[0] != id
      modifies this`work
      ensures outcome == Done([body["id" := id]]) && Replaced(start, work, id, HashOf(body))
    {
      var info := body["id" := id];
      ghost var between := work;
      assert Kept(start, id);
      assert Fresh(work, [info], supply);
      outcome := CreateInSession(user, [info], false, supply);
      RecreatedIsReplaced(start, between, user, id, body, outcome, work);
    }
  }
}
