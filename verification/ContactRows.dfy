/**
 Contacts stored as field rows: regrouping rows into contacts, and the one-pass search of
 the contacts of a batch of extensions (`wazo_dird/database/queries/base.py`).
 */
module ContactRows {
  import opened FirstOccurrences
  import opened Wrappers

  type Uuid = string
  type Exten = string
  type Fields = map<string, string>

  datatype Row = Row(uuid: Uuid, name: string, value: string)

  /** The fields that the rows of one contact spell, a later row of a name replacing an earlier one. */
  function FieldsOf(rows: seq<Row>, u: Uuid): Fields {
    if rows == [] then map[]
    else
      var fields := FieldsOf(rows[..|rows| - 1], u);
      var last := rows[|rows| - 1];
      if last.uuid == u then fields[last.name := last.value] else fields
  }

  /** The same, starting from the contact's own id. */
  function ContactOf(rows: seq<Row>, u: Uuid): Fields {
    map["id" := u] + FieldsOf(rows, u)
  }

  /** The last row of the contact with that name. */
  predicate IsLastRow(rows: seq<Row>, u: Uuid, name: string, j: nat) {
    && j < |rows| && rows[j].uuid == u && rows[j].name == name
    && forall k | j < k < |rows| :: !(rows[k].uuid == u && rows[k].name == name)
  }

  predicate HasRow(rows: seq<Row>, u: Uuid, name: string) {
    exists j | 0 <= j < |rows| :: rows[j].uuid == u && rows[j].name == name
  }

  /** These are the names of the contact's rows, each with the value of its last row. */
  ghost predicate IsGrouped(rows: seq<Row>, u: Uuid, fields: Fields) {
    && (forall n :: n in fields <==> HasRow(rows, u, n))
    && (forall n, j: nat | IsLastRow(rows, u, n, j) :: n in fields && fields[n] == rows[j].value)
  }

  /** The same, with the contact's own id unless a row gives another. */
  ghost predicate IsAssembled(rows: seq<Row>, u: Uuid, fields: Fields) {
    && (forall n :: n in fields <==> n == "id" || HasRow(rows, u, n))
    && (forall n, j: nat | IsLastRow(rows, u, n, j) :: n in fields && fields[n] == rows[j].value)
    && (!HasRow(rows, u, "id") ==> fields["id"] == u)
  }

  lemma {:induction false} FieldsOfIsGrouped(rows: seq<Row>, u: Uuid)
    ensures IsGrouped(rows, u, FieldsOf(rows, u))
  {
    if rows != [] {
      var m := |rows| - 1;
      var init, last := rows[..m], rows[m];
      FieldsOfIsGrouped(init, u);
      var fields := FieldsOf(rows, u);
      forall n ensures n in fields <==> HasRow(rows, u, n) {
        assert HasRow(rows, u, n) <==> HasRow(init, u, n) || (last.uuid == u && last.name == n) by {
          assert forall j | 0 <= j < m :: init[j] == rows[j];
        }
      }
      forall n, j: nat | IsLastRow(rows, u, n, j) ensures n in fields && fields[n] == rows[j].value {
        if j < m {
          assert IsLastRow(init, u, n, j);
        }
      }
    }
  }

  lemma ContactOfIsAssembled(rows: seq<Row>, u: Uuid)
    ensures IsAssembled(rows, u, ContactOf(rows, u))
  {
    FieldsOfIsGrouped(rows, u);
    assert forall n, j: nat | IsLastRow(rows, u, n, j) :: n in FieldsOf(rows, u);
  }

  function Uuids(rows: seq<Row>): seq<Uuid> {
    seq(|rows|, i requires 0 <= i < |rows| => rows[i].uuid)
  }

  function ContactsOf(rows: seq<Row>, us: seq<Uuid>): seq<Fields> {
    seq(|us|, i requires 0 <= i < |us| => ContactOf(rows, us[i]))
  }

  lemma UuidsOfPrefix(rows: seq<Row>, i: nat)
    requires i < |rows|
    ensures rows[..i + 1][..i] == rows[..i]
    ensures Uuids(rows[..i + 1]) == Uuids(rows[..i]) + [rows[i].uuid]
    ensures Uuids(rows[..i + 1])[..i] == Uuids(rows[..i])
  {
  }

  /** A dict of contacts filled from these rows. */
  ghost predicate Grouped(contacts: map<Uuid, Fields>, rows: seq<Row>) {
    && (forall u | u in contacts :: contacts[u] == ContactOf(rows, u))
    && (forall u | u !in contacts :: FieldsOf(rows, u) == map[])
  }

  /** The dict once a row is read: a contact starts with its own id. */
  function WithRow(contacts: map<Uuid, Fields>, row: Row): map<Uuid, Fields> {
    var fields := if row.uuid in contacts then contacts[row.uuid] else map["id" := row.uuid];
    contacts[row.uuid := fields[row.name := row.value]]
  }

  lemma FieldsStep(rows: seq<Row>, i: nat, u: Uuid)
    requires i < |rows|
    ensures FieldsOf(rows[..i + 1], u)
         == if rows[i].uuid == u then FieldsOf(rows[..i], u)[rows[i].name := rows[i].value] else FieldsOf(rows[..i], u)
  {
    assert rows[..i + 1][..i] == rows[..i];
  }

  lemma ContactStep(rows: seq<Row>, i: nat, u: Uuid)
    requires i < |rows|
    ensures ContactOf(rows[..i + 1], u)
         == if rows[i].uuid == u then ContactOf(rows[..i], u)[rows[i].name := rows[i].value]
            else ContactOf(rows[..i], u)
  {
    FieldsStep(rows, i, u);
  }

  lemma GroupedStep(contacts: map<Uuid, Fields>, rows: seq<Row>, i: nat)
    requires i < |rows| && Grouped(contacts, rows[..i])
    ensures Grouped(WithRow(contacts, rows[i]), rows[..i + 1])
  {
    forall u ensures FieldsOf(rows[..i], u) == map[] ==> ContactOf(rows[..i], u) == map["id" := u] {
    }
    forall u | u in WithRow(contacts, rows[i]) ensures WithRow(contacts, rows[i])[u] == ContactOf(rows[..i + 1], u) {
      ContactStep(rows, i, u);
    }
    forall u | u !in WithRow(contacts, rows[i]) ensures FieldsOf(rows[..i + 1], u) == map[] {
      FieldsStep(rows, i, u);
    }
  }

  /** The uuids seen so far, in the order of the dict's keys. */
  ghost predicate KeysInOrder(contacts: map<Uuid, Fields>, order: seq<Uuid>) {
    forall u :: u in contacts <==> u in order
  }

  lemma SeenStep(order: seq<Uuid>, rows: seq<Row>, i: nat)
    requires i < |rows| && order == Distinct(Uuids(rows[..i]))
    ensures Distinct(Uuids(rows[..i + 1])) == if rows[i].uuid in order then order else order + [rows[i].uuid]
  {
    UuidsOfPrefix(rows, i);
    DistinctElements(Uuids(rows[..i]));
  }

  lemma KeysStep(contacts: map<Uuid, Fields>, order: seq<Uuid>, row: Row)
    requires KeysInOrder(contacts, order)
    ensures row.uuid in contacts <==> row.uuid in order
    ensures KeysInOrder(WithRow(contacts, row), if row.uuid in order then order else order + [row.uuid])
  {
  }

  lemma InOrder(contacts: map<Uuid, Fields>, rows: seq<Row>, order: seq<Uuid>, result: seq<Fields>)
    requires Grouped(contacts, rows) && KeysInOrder(contacts, order)
    requires |result| == |order|
    requires forall i | 0 <= i < |order| :: order[i] in contacts && result[i] == contacts[order[i]]
    ensures result == ContactsOf(rows, order)
  {
  }

  /** `list_contacts_by_uuid` on the rows the query returned. */
  method ListContactsByUuid(rows: seq<Row>) returns (result: seq<Fields>)
    ensures result == ContactsOf(rows, Distinct(Uuids(rows)))
    ensures |result| == |Distinct(Uuids(rows))|
    ensures forall i | 0 <= i < |result| :: IsAssembled(rows, Distinct(Uuids(rows))[i], result[i])
  {
    var contacts: map<Uuid, Fields> := map[];
    var order: seq<Uuid> := [];
    for i := 0 to |rows|
      invariant order == Distinct(Uuids(rows[..i]))
      invariant KeysInOrder(contacts, order)
      invariant Grouped(contacts, rows[..i])
    {
      var row := rows[i];
      SeenStep(order, rows, i);
      KeysStep(contacts, order, row);
      GroupedStep(contacts, rows, i);
      if row.uuid !in contacts {
        order := order + [row.uuid];
      }
      contacts := WithRow(contacts, row);
    }
    assert rows[..|rows|] == rows;
    assert forall i | 0 <= i < |order| :: order[i] in order;
    result := seq(|order|, i requires 0 <= i < |order| => contacts[order[i]]);
    InOrder(contacts, rows, order, result);
    forall i | 0 <= i < |result| ensures IsAssembled(rows, order[i], result[i]) {
      ContactOfIsAssembled(rows, order[i]);
    }
  }

  function FieldsList(rows: seq<Row>, us: seq<Uuid>): seq<Fields> {
    seq(|us|, i requires 0 <= i < |us| => FieldsOf(rows, us[i]))
  }

  ghost predicate Collected(contacts: map<Uuid, Fields>, rows: seq<Row>) {
    forall u :: FieldsOf(rows, u) == if u in contacts then contacts[u] else map[]
  }

  /** The dict once a row is read: a contact starts empty. */
  function WithField(contacts: map<Uuid, Fields>, row: Row): map<Uuid, Fields> {
    var fields := if row.uuid in contacts then contacts[row.uuid] else map[];
    contacts[row.uuid := fields[row.name := row.value]]
  }

  lemma CollectedStep(contacts: map<Uuid, Fields>, rows: seq<Row>, i: nat)
    requires i < |rows| && Collected(contacts, rows[..i])
    ensures Collected(WithField(contacts, rows[i]), rows[..i + 1])
  {
    var grown := WithField(contacts, rows[i]);
    forall u ensures FieldsOf(rows[..i + 1], u) == if u in grown then grown[u] else map[] {
      FieldsStep(rows, i, u);
    }
  }

  /** The grouping loop of the phonebook's `list`, whose contacts start empty. */
  method GroupFields(rows: seq<Row>) returns (result: seq<Fields>)
    ensures result == FieldsList(rows, Distinct(Uuids(rows)))
    ensures |result| == |Distinct(Uuids(rows))|
    ensures forall i | 0 <= i < |result| :: IsGrouped(rows, Distinct(Uuids(rows))[i], result[i])
  {
    var contacts: map<Uuid, Fields> := map[];
    var order: seq<Uuid> := [];
    for i := 0 to |rows|
      invariant order == Distinct(Uuids(rows[..i]))
      invariant KeysInOrder(contacts, order)
      invariant Collected(contacts, rows[..i])
    {
      var row := rows[i];
      SeenStep(order, rows, i);
      CollectedStep(contacts, rows, i);
      if row.uuid !in contacts {
        order := order + [row.uuid];
      }
      contacts := WithField(contacts, row);
    }
    assert rows[..|rows|] == rows;
    assert forall i | 0 <= i < |order| :: order[i] in order;
    result := seq(|order|, i requires 0 <= i < |order| => contacts[order[i]]);
    forall i | 0 <= i < |result| ensures IsGrouped(rows, order[i], result[i]) {
      FieldsOfIsGrouped(rows, order[i]);
    }
  }

  // ---------- Contacts for a batch of extensions ----------

  predicate IsMatch(row: Row, columns: seq<string>, e: Exten) {
    row.name in columns && row.value == e
  }

  /** The contact of the first row that shows the extension in a match column. */
  function FirstOwner(rows: seq<Row>, columns: seq<string>, e: Exten): Option<Uuid> {
    if rows == [] then None
    else if IsMatch(rows[0], columns, e) then Some(rows[0].uuid)
    else FirstOwner(rows[1..], columns, e)
  }

  /** The two-pass definition: find the owners, then assemble each from all the rows. */
  function TwoPass(rows: seq<Row>, extens: seq<Exten>, columns: seq<string>): map<Exten, Fields> {
    map e | e in extens && FirstOwner(rows, columns, e).Some? ::
      ContactOf(rows, FirstOwner(rows, columns, e).value)
  }

  lemma {:induction false} FirstOwnerAppend(rows: seq<Row>, row: Row, columns: seq<string>, e: Exten)
    ensures FirstOwner(rows + [row], columns, e)
         == if FirstOwner(rows, columns, e).Some? then FirstOwner(rows, columns, e)
            else if IsMatch(row, columns, e) then Some(row.uuid) else None
  {
    if rows == [] {
      assert [row][1..] == [];
    } else {
      assert (rows + [row])[1..] == rows[1..] + [row];
      FirstOwnerAppend(rows[1..], row, columns, e);
    }
  }

  predicate OwnerAfter(rows: seq<Row>, i: nat, columns: seq<string>, e: Exten)
    requires i < |rows|
  {
    FirstOwner(rows[..i + 1], columns, e)
    == if FirstOwner(rows[..i], columns, e).Some? then FirstOwner(rows[..i], columns, e)
       else if IsMatch(rows[i], columns, e) then Some(rows[i].uuid) else None
  }

  lemma FirstOwnerStep(rows: seq<Row>, i: nat, columns: seq<string>, e: Exten)
    requires i < |rows|
    ensures OwnerAfter(rows, i, columns, e)
  {
    assert rows[..i + 1] == rows[..i] + [rows[i]];
    FirstOwnerAppend(rows[..i], rows[i], columns, e);
  }

  /** The owners found so far. */
  ghost predicate Owned(owners: map<Exten, Uuid>, rows: seq<Row>, extens: seq<Exten>, columns: seq<string>) {
    && (forall e :: e in owners <==> e in extens && FirstOwner(rows, columns, e).Some?)
    && (forall e | e in owners :: FirstOwner(rows, columns, e) == Some(owners[e]))
  }

  /** The owners once a row is read: the first row to show an extension decides. */
  function WithOwner(owners: map<Exten, Uuid>, row: Row, extens: seq<Exten>, columns: seq<string>): map<Exten, Uuid> {
    if row.name in columns && row.value in extens && row.value !in owners then owners[row.value := row.uuid] else owners
  }

  lemma OwnedStep(owners: map<Exten, Uuid>, rows: seq<Row>, i: nat, extens: seq<Exten>, columns: seq<string>)
    requires i < |rows| && Owned(owners, rows[..i], extens, columns)
    ensures Owned(WithOwner(owners, rows[i], extens, columns), rows[..i + 1], extens, columns)
  {
    var grown := WithOwner(owners, rows[i], extens, columns);
    forall e
      ensures e in grown <==> e in extens && FirstOwner(rows[..i + 1], columns, e).Some?
      ensures e in grown ==> FirstOwner(rows[..i + 1], columns, e) == Some(grown[e])
    {
      FirstOwnerStep(rows, i, columns, e);
      assert e in owners <==> e in extens && FirstOwner(rows[..i], columns, e).Some?;
    }
  }

  lemma {:induction false} RowGivesField(rows: seq<Row>, r: Row)
    requires r in rows
    ensures r.name in FieldsOf(rows, r.uuid)
  {
    var init, last := rows[..|rows| - 1], rows[|rows| - 1];
    assert rows == init + [last];
    if r != last {
      RowGivesField(init, r);
    }
  }

  /** An extension is found exactly when some row shows it in a match column, and its owner has that row. */
  lemma {:induction false} FirstOwnerIff(rows: seq<Row>, columns: seq<string>, e: Exten)
    ensures FirstOwner(rows, columns, e).Some? <==> exists r | r in rows :: IsMatch(r, columns, e)
    ensures FirstOwner(rows, columns, e).Some? ==>
      exists r | r in rows :: IsMatch(r, columns, e) && r.uuid == FirstOwner(rows, columns, e).value
  {
    if rows != [] {
      FirstOwnerIff(rows[1..], columns, e);
      assert forall r :: r in rows <==> r == rows[0] || r in rows[1..];
      if IsMatch(rows[0], columns, e) {
        assert rows[0] in rows;
      }
    }
  }

  lemma OwnersAreKeys(contacts: map<Uuid, Fields>, rows: seq<Row>, columns: seq<string>, e: Exten)
    requires Grouped(contacts, rows) && FirstOwner(rows, columns, e).Some?
    ensures FirstOwner(rows, columns, e).value in contacts
  {
    var u := FirstOwner(rows, columns, e).value;
    FirstOwnerIff(rows, columns, e);
    var r :| r in rows && IsMatch(r, columns, e) && r.uuid == u;
    RowGivesField(rows, r);
  }

  lemma OnePassIsTwoPass(contacts: map<Uuid, Fields>, owners: map<Exten, Uuid>, rows: seq<Row>, extens: seq<Exten>,
                         columns: seq<string>)
    requires Grouped(contacts, rows) && Owned(owners, rows, extens, columns)
    ensures forall e | e in owners :: owners[e] in contacts
    ensures (map e | e in owners :: contacts[owners[e]]) == TwoPass(rows, extens, columns)
  {
    forall e | e in owners ensures owners[e] in contacts {
      OwnersAreKeys(contacts, rows, columns, e);
    }
  }

  /** The row at `i` shows the extension in a match column, and no row before it does. */
  predicate IsFirstMatch(rows: seq<Row>, columns: seq<string>, e: Exten, i: nat) {
    && i < |rows| && rows[i].name in columns && rows[i].value == e
    && forall k | 0 <= k < i :: !(rows[k].name in columns && rows[k].value == e)
  }

  lemma {:induction false} FirstOwnerIs(rows: seq<Row>, columns: seq<string>, e: Exten)
    ensures FirstOwner(rows, columns, e).Some? <==> exists i: nat :: IsFirstMatch(rows, columns, e, i)
    ensures forall i: nat | IsFirstMatch(rows, columns, e, i) :: FirstOwner(rows, columns, e) == Some(rows[i].uuid)
  {
    if rows != [] {
      var rest := rows[1..];
      FirstOwnerIs(rest, columns, e);
      if IsMatch(rows[0], columns, e) {
        assert IsFirstMatch(rows, columns, e, 0);
      } else {
        assert forall k | 0 <= k < |rest| :: rest[k] == rows[k + 1];
        forall i: nat | IsFirstMatch(rows, columns, e, i) ensures i > 0 && IsFirstMatch(rest, columns, e, i - 1) {
        }
        if i: nat :| IsFirstMatch(rest, columns, e, i) {
          assert IsFirstMatch(rows, columns, e, i + 1);
        }
      }
    }
  }

  /** The asked extensions that a row shows, each with the whole contact of the first such row. */
  ghost predicate AnswersFirstMatches(rows: seq<Row>, extens: seq<Exten>, columns: seq<string>,
                                      result: map<Exten, Fields>) {
    && (forall e :: e in result <==> e in extens && exists i: nat :: IsFirstMatch(rows, columns, e, i))
    && (forall e, i: nat | e in result && IsFirstMatch(rows, columns, e, i) ::
          IsAssembled(rows, rows[i].uuid, result[e]))
  }

  lemma TwoPassIs(rows: seq<Row>, extens: seq<Exten>, columns: seq<string>)
    ensures AnswersFirstMatches(rows, extens, columns, TwoPass(rows, extens, columns))
  {
    var result := TwoPass(rows, extens, columns);
    forall e ensures e in result <==> e in extens && exists i: nat :: IsFirstMatch(rows, columns, e, i) {
      FirstOwnerIs(rows, columns, e);
    }
    forall e, i: nat | e in result && IsFirstMatch(rows, columns, e, i)
      ensures IsAssembled(rows, rows[i].uuid, result[e])
    {
      FirstOwnerIs(rows, columns, e);
      ContactOfIsAssembled(rows, rows[i].uuid);
    }
  }

  /** `build_exten_contact_map`: one pass, filling two dicts, equals the two-pass definition. */
  method BuildExtenContactMap(rows: seq<Row>, extens: seq<Exten>, columns: seq<string>)
    returns (result: map<Exten, Fields>)
    ensures result == TwoPass(rows, extens, columns)
    ensures AnswersFirstMatches(rows, extens, columns, result)
  {
    var contacts: map<Uuid, Fields> := map[];
    var extenToUuid: map<Exten, Uuid> := map[];
    for i := 0 to |rows|
      invariant Grouped(contacts, rows[..i])
      invariant Owned(extenToUuid, rows[..i], extens, columns)
    {
      var row := rows[i];
      GroupedStep(contacts, rows, i);
      OwnedStep(extenToUuid, rows, i, extens, columns);
      contacts := WithRow(contacts, row);
      extenToUuid := WithOwner(extenToUuid, row, extens, columns);
    }
    assert rows[..|rows|] == rows;
    OnePassIsTwoPass(contacts, extenToUuid, rows, extens, columns);
    result := map e | e in extenToUuid :: contacts[extenToUuid[e]];
    TwoPassIs(rows, extens, columns);
  }

  // ---------- Reading only the contacts selected by a subquery ----------

  function Keep(rows: seq<Row>, us: set<Uuid>): seq<Row> {
    if rows == [] then []
    else
      var rest := Keep(rows[..|rows| - 1], us);
      if rows[|rows| - 1].uuid in us then rest + [rows[|rows| - 1]] else rest
  }

  /** The uuids the subquery selects: contacts with a row showing an extension in a match column. */
  function Selected(rows: seq<Row>, extens: seq<Exten>, columns: seq<string>): set<Uuid> {
    set r | r in rows && r.name in columns && r.value in extens :: r.uuid
  }

  lemma {:induction false} KeepFields(rows: seq<Row>, us: set<Uuid>, u: Uuid)
    requires u in us
    ensures FieldsOf(Keep(rows, us), u) == FieldsOf(rows, u)
  {
    if rows != [] {
      var init, last := rows[..|rows| - 1], rows[|rows| - 1];
      KeepFields(init, us, u);
      var kept := Keep(init, us);
      var longer := kept + [last];
      assert longer[..|longer| - 1] == kept;
      if last.uuid in us {
        assert Keep(rows, us) == longer;
      } else {
        assert Keep(rows, us) == kept;
      }
    }
  }

  lemma {:induction false} KeepFirstOwner(rows: seq<Row>, us: set<Uuid>, columns: seq<string>, e: Exten)
    requires forall r | r in rows && IsMatch(r, columns, e) :: r.uuid in us
    ensures FirstOwner(Keep(rows, us), columns, e) == FirstOwner(rows, columns, e)
  {
    if rows != [] {
      var init, last := rows[..|rows| - 1], rows[|rows| - 1];
      assert rows == init + [last];
      KeepFirstOwner(init, us, columns, e);
      FirstOwnerAppend(init, last, columns, e);
      FirstOwnerAppend(Keep(init, us), last, columns, e);
    }
  }

  /**
   Reading only the rows of the contacts that the subquery selects gives the same map as
   reading every row of the owner, in the same order.
   */
  lemma PreselectionIsInvisible(rows: seq<Row>, extens: seq<Exten>, columns: seq<string>)
    ensures TwoPass(Keep(rows, Selected(rows, extens, columns)), extens, columns) == TwoPass(rows, extens, columns)
  {
    var us := Selected(rows, extens, columns);
    forall e | e in extens
      ensures FirstOwner(Keep(rows, us), columns, e) == FirstOwner(rows, columns, e)
      ensures FirstOwner(rows, columns, e).Some? ==>
        var u := FirstOwner(rows, columns, e).value;
        ContactOf(Keep(rows, us), u) == ContactOf(rows, u)
    {
      KeepFirstOwner(rows, us, columns, e);
      FirstOwnerIff(rows, columns, e);
      if FirstOwner(rows, columns, e).Some? {
        KeepFields(rows, us, FirstOwner(rows, columns, e).value);
      }
    }
  }

  /**
   `find_contacts_for_extens` answers an extension exactly when `find_first_personal_contact` would:
   some row of the owner shows it in a match column.
   */
  lemma BatchFindsWhatOneFinds(rows: seq<Row>, extens: seq<Exten>, columns: seq<string>, e: Exten)
    ensures e in TwoPass(Keep(rows, Selected(rows, extens, columns)), extens, columns)
       <==> e in extens && exists r | r in rows :: IsMatch(r, columns, e)
  {
    PreselectionIsInvisible(rows, extens, columns);
    FirstOwnerIff(rows, columns, e);
  }

  // ---------- One extension at a time ----------

  lemma OneGroup(listing: seq<Row>, id: Uuid)
    requires listing != [] && forall i | 0 <= i < |listing| :: listing[i].uuid == id
    ensures Distinct(Uuids(listing)) == [id]
  {
    var us := Distinct(Uuids(listing));
    DistinctElements(Uuids(listing));
    assert Uuids(listing)[0] in us;
    forall i | 0 <= i < |us| ensures us[i] == id {
      assert us[i] in us;
      var j :| 0 <= j < |listing| && Uuids(listing)[j] == us[i];
    }
    DistinctSize(us);
    assert Elements(us) == {id};
  }

  lemma {:induction false} KeepMembers(rows: seq<Row>, us: set<Uuid>)
    ensures forall r :: r in Keep(rows, us) <==> r in rows && r.uuid in us
  {
    if rows != [] {
      var init, last := rows[..|rows| - 1], rows[|rows| - 1];
      assert rows == init + [last];
      KeepMembers(init, us);
    }
  }

  /** The rows of one contact are listed as that contact. */
  lemma KeepOne(rows: seq<Row>, u: Uuid)
    requires exists r | r in rows :: r.uuid == u
    ensures ContactsOf(Keep(rows, {u}), Distinct(Uuids(Keep(rows, {u})))) == [ContactOf(rows, u)]
  {
    var kept := Keep(rows, {u});
    KeepMembers(rows, {u});
    var r :| r in rows && r.uuid == u;
    assert r in kept;
    forall i | 0 <= i < |kept| ensures kept[i].uuid == u {
      assert kept[i] in kept;
    }
    OneGroup(kept, u);
    KeepFields(rows, {u}, u);
  }

  /**
   `find_first_personal_contact`, given the distinct uuids that the query finds, in any order: at most one
   contact, whole, with a row that shows the term; and one exactly when any batch with the term answers it.
   */
  method FindFirstContact(rows: seq<Row>, columns: seq<string>, term: Exten, matching: seq<Uuid>)
    returns (result: seq<Fields>)
    requires forall u :: u in matching <==> exists r | r in rows :: r.uuid == u && IsMatch(r, columns, term)
    ensures |result| <= 1
    ensures result != [] <==> exists r | r in rows :: IsMatch(r, columns, term)
    ensures result != [] ==> exists r | r in rows :: IsMatch(r, columns, term) && result[0] == ContactOf(rows, r.uuid)
    ensures forall extens | term in extens ::
      term in TwoPass(Keep(rows, Selected(rows, extens, columns)), extens, columns) <==> result != []
  {
    forall extens: seq<Exten>
      ensures term in TwoPass(Keep(rows, Selected(rows, extens, columns)), extens, columns)
         <==> term in extens && exists r | r in rows :: IsMatch(r, columns, term)
    {
      BatchFindsWhatOneFinds(rows, extens, columns, term);
    }
    if columns == [] || matching == [] {
      assert forall r | r in rows && IsMatch(r, columns, term) :: r.uuid in matching;
      return [];
    }
    var u := matching[0];
    assert u in matching;
    KeepOne(rows, u);
    result := ListContactsByUuid(Keep(rows, {u}));
  }

  // ---------- The rows of a contact spell it, whatever their order ----------

  /** These rows, among others, are exactly the fields of `u`, any of them possibly repeated. */
  predicate Spell(rows: set<Row>, u: Uuid, fields: Fields) {
    && (forall r | r in rows && r.uuid == u :: r.name in fields && fields[r.name] == r.value)
    && (forall n | n in fields :: Row(u, n, fields[n]) in rows)
  }

  lemma {:induction false} FieldsOfPart(rows: seq<Row>, u: Uuid, fields: Fields)
    requires forall r | r in rows && r.uuid == u :: r.name in fields && fields[r.name] == r.value
    ensures forall n :: n in FieldsOf(rows, u) <==> exists r | r in rows :: r.uuid == u && r.name == n
    ensures forall n | n in FieldsOf(rows, u) :: n in fields && FieldsOf(rows, u)[n] == fields[n]
  {
    if rows != [] {
      var init, last := rows[..|rows| - 1], rows[|rows| - 1];
      assert rows == init + [last];
      assert forall r :: r in rows <==> r in init || r == last;
      FieldsOfPart(init, u, fields);
    }
  }

  /** Any listing of the rows, in any order and with any repetitions, regroups to the same contact. */
  lemma RegroupGivesFields(rows: seq<Row>, u: Uuid, fields: Fields)
    requires Spell(Elements(rows), u, fields)
    ensures FieldsOf(rows, u) == fields
  {
    forall r | r in rows && r.uuid == u ensures r.name in fields && fields[r.name] == r.value {
      assert r in Elements(rows);
    }
    FieldsOfPart(rows, u, fields);
    forall n | n in fields ensures n in FieldsOf(rows, u) {
      assert Row(u, n, fields[n]) in Elements(rows);
      assert Row(u, n, fields[n]) in rows;
    }
  }
}
