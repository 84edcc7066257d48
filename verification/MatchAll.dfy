/**
 Matching a batch of terms: the one-by-one definition of `BaseSourcePlugin.match_all`, and the loops that the
 google, office365 and conference backends put in its place.

 Comparing a value that is not a text raises, and so does the whole lookup then.
 */
module MatchAll {
  import opened Wrappers

  /** What a match predicate does with a term and a contact. */
  datatype Verdict = Yes | No | Raises

  datatype Search<+R> = Found(result: R) | NotFound | Raised

  // ---------- The reference: one term after the other ----------

  /** The result of `match_all`, given what `first_match` does for each term; None when it raises. */
  function OneByOne<R>(terms: seq<string>, firstMatch: string -> Search<R>): Option<map<string, R>> {
    if exists t | t in terms :: firstMatch(t).Raised? then None
    else Some(map t | t in terms && firstMatch(t).Found? :: firstMatch(t).result)
  }

  lemma OneByOneStep<R>(terms: seq<string>, i: nat, firstMatch: string -> Search<R>)
    requires i < |terms| && OneByOne(terms[..i], firstMatch).Some?
    ensures OneByOne(terms[..i + 1], firstMatch) == (
      match firstMatch(terms[i])
      case Raised => None
      case NotFound => OneByOne(terms[..i], firstMatch)
      case Found(result) => Some(OneByOne(terms[..i], firstMatch).value[terms[i] := result]))
  {
    var longer := terms[..i + 1];
    assert longer == terms[..i] + [terms[i]];
    assert forall t :: t in longer <==> t in terms[..i] || t == terms[i];
    match firstMatch(terms[i]) {
      case Raised => assert terms[i] in longer;
      case NotFound => assert OneByOne(longer, firstMatch).value == OneByOne(terms[..i], firstMatch).value;
      case Found(result) =>
        assert OneByOne(longer, firstMatch).value == OneByOne(terms[..i], firstMatch).value[terms[i] := result];
    }
  }

  lemma OneTerm<R>(t: string, firstMatch: string -> Search<R>)
    requires firstMatch(t).Found?
    ensures OneByOne([t], firstMatch) == Some(map[t := firstMatch(t).result])
  {
    assert forall x :: x in [t] <==> x == t;
    assert OneByOne([t], firstMatch).value == map[t := firstMatch(t).result];
  }

  lemma RaisesAmong<R>(terms: seq<string>, i: nat, firstMatch: string -> Search<R>)
    requires i < |terms| && firstMatch(terms[i]).Raised?
    ensures OneByOne(terms, firstMatch).None?
  {
    assert terms[i] in terms;
  }

  /** `BaseSourcePlugin.match_all` */
  method BaseMatchAll<R>(terms: seq<string>, firstMatch: string -> Search<R>) returns (results: Option<map<string, R>>)
    ensures results == OneByOne(terms, firstMatch)
    ensures results.None? <==> exists t | t in terms :: firstMatch(t).Raised?
    ensures results.Some? ==> forall t :: t in results.value <==> t in terms && firstMatch(t).Found?
    ensures results.Some? ==> forall t | t in results.value :: firstMatch(t) == Found(results.value[t])
  {
    var found: map<string, R> := map[];
    for i := 0 to |terms|
      invariant OneByOne(terms[..i], firstMatch) == Some(found)
    {
      OneByOneStep(terms, i, firstMatch);
      match firstMatch(terms[i]) {
        case Raised =>
          RaisesAmong(terms, i, firstMatch);
          return None;
        case NotFound =>
        case Found(result) => found := found[terms[i] := result];
      }
    }
    assert terms[..|terms|] == terms;
    results := Some(found);
  }

  // ---------- First and last matches ----------

  type Judge<!C> = (string, C) -> Verdict

  /** The loop of `first_match`: it stops at the first contact that matches, or that raises. */
  function FirstMatch<C>(contacts: seq<C>, judge: Judge<C>, term: string): Search<C> {
    if contacts == [] then NotFound
    else
      match judge(term, contacts[0])
      case Yes => Found(contacts[0])
      case Raises => Raised
      case No => FirstMatch(contacts[1..], judge, term)
  }

  /** Looking at every contact, the last match replacing the earlier ones. */
  function LastMatch<C>(contacts: seq<C>, judge: Judge<C>, term: string): Search<C> {
    if contacts == [] then NotFound
    else
      var before, last := LastMatch(contacts[..|contacts| - 1], judge, term), contacts[|contacts| - 1];
      if before.Raised? then Raised
      else
        match judge(term, last)
        case Yes => Found(last)
        case Raises => Raised
        case No => before
  }

  function Wrapped<C, R>(found: Search<C>, wrap: C -> R): Search<R> {
    match found
    case Found(contact) => Found(wrap(contact))
    case NotFound => NotFound
    case Raised => Raised
  }

  function FirstSearch<C, R>(contacts: seq<C>, judge: Judge<C>, wrap: C -> R): string -> Search<R> {
    t => Wrapped(FirstMatch(contacts, judge, t), wrap)
  }

  function LastSearch<C, R>(contacts: seq<C>, judge: Judge<C>, wrap: C -> R): string -> Search<R> {
    t => Wrapped(LastMatch(contacts, judge, t), wrap)
  }

  function ByFirst<C, R>(terms: seq<string>, contacts: seq<C>, judge: Judge<C>, wrap: C -> R): Option<map<string, R>> {
    OneByOne(terms, FirstSearch(contacts, judge, wrap))
  }

  function ByLast<C, R>(terms: seq<string>, contacts: seq<C>, judge: Judge<C>, wrap: C -> R): Option<map<string, R>> {
    OneByOne(terms, LastSearch(contacts, judge, wrap))
  }

  /** None of the first `n` contacts matches or raises. */
  predicate NoneIn<C>(contacts: seq<C>, judge: Judge<C>, term: string, n: nat)
    requires n <= |contacts|
  {
    forall k | 0 <= k < n :: judge(term, contacts[k]) == No
  }

  /** The contact at `i` is the first, or the last, that matches. */
  predicate IsFirst<C>(contacts: seq<C>, judge: Judge<C>, term: string, i: nat) {
    i < |contacts| && judge(term, contacts[i]) == Yes && NoneIn(contacts, judge, term, i)
  }

  predicate RaisesFirst<C>(contacts: seq<C>, judge: Judge<C>, term: string, i: nat) {
    i < |contacts| && judge(term, contacts[i]) == Raises && NoneIn(contacts, judge, term, i)
  }

  predicate IsLast<C>(contacts: seq<C>, judge: Judge<C>, term: string, i: nat) {
    && i < |contacts| && judge(term, contacts[i]) == Yes
    && forall k | i < k < |contacts| :: judge(term, contacts[k]) == No
  }

  lemma {:induction false} FirstMatchIff<C>(contacts: seq<C>, judge: Judge<C>, term: string)
    ensures FirstMatch(contacts, judge, term).Found? ==>
      exists i: nat :: IsFirst(contacts, judge, term, i) && FirstMatch(contacts, judge, term).result == contacts[i]
    ensures FirstMatch(contacts, judge, term).NotFound? <==> NoneIn(contacts, judge, term, |contacts|)
    ensures FirstMatch(contacts, judge, term).Raised? <==> exists i: nat :: RaisesFirst(contacts, judge, term, i)
  {
    if contacts != [] {
      var rest := contacts[1..];
      FirstMatchIff(rest, judge, term);
      assert forall k | 0 <= k < |rest| :: rest[k] == contacts[k + 1];
      match judge(term, contacts[0]) {
        case Yes => assert IsFirst(contacts, judge, term, 0);
        case Raises => assert RaisesFirst(contacts, judge, term, 0);
        case No =>
          var found := FirstMatch(rest, judge, term);
          if found.Found? {
            var i: nat :| IsFirst(rest, judge, term, i) && found.result == rest[i];
            assert IsFirst(contacts, judge, term, i + 1);
          }
          if found.Raised? {
            var i: nat :| RaisesFirst(rest, judge, term, i);
            assert RaisesFirst(contacts, judge, term, i + 1);
          }
          if i: nat :| RaisesFirst(contacts, judge, term, i) {
            assert RaisesFirst(rest, judge, term, i - 1);
          }
      }
    }
  }

  lemma {:induction false} LastMatchIff<C>(contacts: seq<C>, judge: Judge<C>, term: string)
    ensures LastMatch(contacts, judge, term).Found? ==>
      exists i: nat :: IsLast(contacts, judge, term, i) && LastMatch(contacts, judge, term).result == contacts[i]
    ensures LastMatch(contacts, judge, term).NotFound? <==> NoneIn(contacts, judge, term, |contacts|)
    ensures LastMatch(contacts, judge, term).Raised?
       <==> exists k | 0 <= k < |contacts| :: judge(term, contacts[k]) == Raises
  {
    if contacts != [] {
      var init, n := contacts[..|contacts| - 1], |contacts| - 1;
      LastMatchIff(init, judge, term);
      assert forall k | 0 <= k < n :: init[k] == contacts[k];
      if judge(term, contacts[n]) == Yes {
        assert IsLast(contacts, judge, term, n);
      } else if LastMatch(contacts, judge, term).Found? {
        var i: nat :| IsLast(init, judge, term, i) && LastMatch(init, judge, term).result == init[i];
        assert IsLast(contacts, judge, term, i);
      }
    }
  }

  // ---------- The two forms compared ----------

  /** No comparison of an asked term with a contact raises. */
  predicate Clean<C>(terms: seq<string>, contacts: seq<C>, judge: Judge<C>) {
    forall i, k | 0 <= i < |terms| && 0 <= k < |contacts| :: judge(terms[i], contacts[k]) != Raises
  }

  predicate Matched<C>(contacts: seq<C>, judge: Judge<C>, term: string) {
    exists k | 0 <= k < |contacts| :: judge(term, contacts[k]) == Yes
  }

  /** The terms that some contact matches, each answered with such a contact. */
  ghost predicate Agrees<C, R>(terms: seq<string>, contacts: seq<C>, judge: Judge<C>, wrap: C -> R,
                               results: map<string, R>) {
    && (forall t :: t in results <==> t in terms && Matched(contacts, judge, t))
    && (forall t | t in results ::
          exists k | 0 <= k < |contacts| :: judge(t, contacts[k]) == Yes && results[t] == wrap(contacts[k]))
  }

  /** With a contact that raises for an asked term the last-wins form gives nothing at all. */
  lemma ByLastIff<C, R>(terms: seq<string>, contacts: seq<C>, judge: Judge<C>, wrap: C -> R)
    ensures ByLast(terms, contacts, judge, wrap).Some? <==> Clean(terms, contacts, judge)
    ensures Clean(terms, contacts, judge) ==>
      Agrees(terms, contacts, judge, wrap, ByLast(terms, contacts, judge, wrap).value)
  {
    forall t | t in terms
      ensures var found := LastMatch(contacts, judge, t);
        && (found.Raised? <==> exists k | 0 <= k < |contacts| :: judge(t, contacts[k]) == Raises)
        && (!found.Raised? ==> (found.Found? <==> Matched(contacts, judge, t)))
        && (found.Found? ==>
              exists k | 0 <= k < |contacts| :: judge(t, contacts[k]) == Yes && found.result == contacts[k])
    {
      LastMatchIff(contacts, judge, t);
    }
    if !Clean(terms, contacts, judge) {
      var i, k :| 0 <= i < |terms| && 0 <= k < |contacts| && judge(terms[i], contacts[k]) == Raises;
      assert terms[i] in terms;
    }
  }

  lemma ByFirstClean<C, R>(terms: seq<string>, contacts: seq<C>, judge: Judge<C>, wrap: C -> R)
    requires Clean(terms, contacts, judge)
    ensures ByFirst(terms, contacts, judge, wrap).Some?
    ensures Agrees(terms, contacts, judge, wrap, ByFirst(terms, contacts, judge, wrap).value)
  {
    forall t | t in terms
      ensures var found := FirstMatch(contacts, judge, t);
        && !found.Raised? && (found.Found? <==> Matched(contacts, judge, t))
        && (found.Found? ==>
              exists k | 0 <= k < |contacts| :: judge(t, contacts[k]) == Yes && found.result == contacts[k])
    {
      FirstMatchIff(contacts, judge, t);
      var i :| 0 <= i < |terms| && terms[i] == t;
      assert forall k | 0 <= k < |contacts| :: judge(terms[i], contacts[k]) != Raises;
    }
  }

  /** The one-by-one and the last-wins form answer the same terms if and only if no comparison raises. */
  lemma BatchAgreesIff<C, R>(terms: seq<string>, contacts: seq<C>, judge: Judge<C>, wrap: C -> R)
    ensures var first, last := ByFirst(terms, contacts, judge, wrap), ByLast(terms, contacts, judge, wrap);
      (first.Some? && last.Some? && first.value.Keys == last.value.Keys) <==> Clean(terms, contacts, judge)
  {
    ByLastIff(terms, contacts, judge, wrap);
    if Clean(terms, contacts, judge) {
      ByFirstClean(terms, contacts, judge, wrap);
    }
  }

  /** A contact that raises after a match: the one-by-one form answers, the last-wins form does not. */
  lemma RaisingContactLosesAll<C, R>(t: string, a: C, b: C, judge: Judge<C>, wrap: C -> R)
    requires judge(t, a) == Yes && judge(t, b) == Raises
    ensures ByFirst([t], [a, b], judge, wrap) == Some(map[t := wrap(a)])
    ensures ByLast([t], [a, b], judge, wrap) == None
  {
    ByLastIff([t], [a, b], judge, wrap);
    assert !Clean([t], [a, b], judge) by {
      assert judge([t][0], [a, b][1]) == Raises;
    }
    OneTerm(t, FirstSearch([a, b], judge, wrap));
  }

  /** For a term, the two forms give the same answer if and only if its first and its last match do. */
  lemma SameAnswerIff<C, R>(terms: seq<string>, contacts: seq<C>, judge: Judge<C>, wrap: C -> R, t: string, i: nat,
                            j: nat)
    requires Clean(terms, contacts, judge) && t in terms
    requires IsFirst(contacts, judge, t, i) && IsLast(contacts, judge, t, j)
    ensures var first, last := ByFirst(terms, contacts, judge, wrap), ByLast(terms, contacts, judge, wrap);
      && first.Some? && last.Some? && t in first.value && t in last.value
      && (first.value[t] == last.value[t] <==> wrap(contacts[i]) == wrap(contacts[j]))
  {
    ByLastIff(terms, contacts, judge, wrap);
    ByFirstClean(terms, contacts, judge, wrap);
    FirstMatchIff(contacts, judge, t);
    LastMatchIff(contacts, judge, t);
    assert Matched(contacts, judge, t);
    var i': nat :| IsFirst(contacts, judge, t, i') && FirstMatch(contacts, judge, t).result == contacts[i'];
    var j': nat :| IsLast(contacts, judge, t, j') && LastMatch(contacts, judge, t).result == contacts[j'];
    assert i == i' && j == j';
  }

  /** Two contacts that match and look different: the forms differ. */
  lemma TwoMatchesDiffer<C, R>(t: string, a: C, b: C, judge: Judge<C>, wrap: C -> R)
    requires judge(t, a) == Yes && judge(t, b) == Yes && wrap(a) != wrap(b)
    ensures ByFirst([t], [a, b], judge, wrap) == Some(map[t := wrap(a)])
    ensures ByLast([t], [a, b], judge, wrap) == Some(map[t := wrap(b)])
  {
    OneTerm(t, FirstSearch([a, b], judge, wrap));
    var one, two := [a], [a, b];
    assert one[..|one| - 1] == [] && two[..|two| - 1] == one;
    assert LastMatch(one, judge, t) == Found(a);
    assert LastMatch(two, judge, t) == Found(b);
    OneTerm(t, LastSearch(two, judge, wrap));
  }

  // ---------- What the backends compare ----------

  /** A text, or something else on which `lower()` raises. */
  type Leaf = Option<string>

  datatype Item = Single(leaf: Leaf) | Labelled(leaves: seq<Leaf>)

  /** A column of a contact; a scalar that is not a text, and a dict, have a `str`. */
  datatype Value =
    | Absent
    | Text(text: string)
    | Scalar(str: string, truth: bool)
    | Items(items: seq<Item>)
    | Dict(keys: seq<string>, str: string)

  type Contact = map<string, Value>

  datatype Backend = Google | Office365 | Conference

  /** A backend's match columns; `lower` is `str.lower`. */
  datatype Matcher = Matcher(backend: Backend, columns: seq<string>, lower: string -> string)

  predicate IsFalsy(value: Value) {
    match value
    case Absent => true
    case Text(text) => text == ""
    case Scalar(_, truth) => !truth
    case Items(items) => items == []
    case Dict(keys, _) => keys == []
  }

  /** `contact.get(column) or ''` */
  function ColumnValue(contact: Contact, column: string): Value {
    if column !in contact || IsFalsy(contact[column]) then Text("") else contact[column]
  }

  function Leaves(backend: Backend, item: Item): seq<Leaf> {
    match item
    case Single(leaf) => [leaf]
    case Labelled(leaves) => if backend == Google then leaves else [None]
  }

  function AllLeaves(backend: Backend, items: seq<Item>): seq<Leaf> {
    if items == [] then []
    else AllLeaves(backend, items[..|items| - 1]) + Leaves(backend, items[|items| - 1])
  }

  function Keys(keys: seq<string>): seq<Leaf> {
    seq(|keys|, i requires 0 <= i < |keys| => Some(keys[i]))
  }

  /** What a backend compares in a value, in order; conference looks at texts and lists only. */
  function ValueLeaves(backend: Backend, value: Value): seq<Leaf> {
    match value
    case Absent => []
    case Text(text) => [Some(text)]
    case Items(items) => AllLeaves(backend, items)
    case Scalar(str, _) => if backend == Conference then [] else [Some(str)]
    case Dict(keys, str) =>
      match backend
      case Google => Keys(keys)
      case Office365 => [Some(str)]
      case Conference => []
  }

  function ContactLeaves(backend: Backend, columns: seq<string>, contact: Contact): seq<Leaf> {
    if columns == [] then []
    else
      var last := columns[|columns| - 1];
      ContactLeaves(backend, columns[..|columns| - 1], contact) + ValueLeaves(backend, ColumnValue(contact, last))
  }

  /** Comparing in order, until one matches or raises. */
  function Scan(leaves: seq<Leaf>, lowered: string, lower: string -> string): Verdict {
    if leaves == [] then No
    else
      var before, last := Scan(leaves[..|leaves| - 1], lowered, lower), leaves[|leaves| - 1];
      if before != No then before
      else if last.None? then Raises
      else if lowered == lower(last.value) then Yes
      else No
  }

  function JudgeOf(m: Matcher): Judge<Contact> {
    (term, contact) => Scan(ContactLeaves(m.backend, m.columns, contact), m.lower(term), m.lower)
  }

  lemma {:induction false} ScanConcat(a: seq<Leaf>, b: seq<Leaf>, lowered: string, lower: string -> string)
    ensures Scan(a + b, lowered, lower)
         == if Scan(a, lowered, lower) == No then Scan(b, lowered, lower) else Scan(a, lowered, lower)
  {
    if b == [] {
      assert a + b == a;
    } else {
      var init := b[..|b| - 1];
      assert (a + b)[..|a + b| - 1] == a + init;
      ScanConcat(a, init, lowered, lower);
    }
  }

  /** A text that matches, with only comparable ones before it. */
  predicate HitAt(leaves: seq<Leaf>, lowered: string, lower: string -> string, k: nat) {
    k < |leaves| && leaves[k].Some? && lower(leaves[k].value) == lowered && forall j | 0 <= j < k :: leaves[j].Some?
  }

  lemma {:induction false} NoRaise(leaves: seq<Leaf>, lowered: string, lower: string -> string)
    requires forall k | 0 <= k < |leaves| :: leaves[k].Some?
    ensures Scan(leaves, lowered, lower) != Raises
  {
    if leaves != [] {
      NoRaise(leaves[..|leaves| - 1], lowered, lower);
    }
  }

  /** The verdict, said without the scan: the first leaf that matches or cannot be compared decides. */
  lemma {:induction false} ScanIff(leaves: seq<Leaf>, lowered: string, lower: string -> string)
    ensures Scan(leaves, lowered, lower) == No <==>
      forall k | 0 <= k < |leaves| :: leaves[k].Some? && lower(leaves[k].value) != lowered
    ensures Scan(leaves, lowered, lower) == Yes <==>
      exists k: nat :: HitAt(leaves, lowered, lower, k)
  {
    if leaves != [] {
      var n := |leaves| - 1;
      var init := leaves[..n];
      ScanIff(init, lowered, lower);
      assert forall k | 0 <= k < n :: init[k] == leaves[k];
      if Scan(leaves, lowered, lower) == Yes && Scan(init, lowered, lower) == Yes {
        var k: nat :| HitAt(init, lowered, lower, k);
        assert HitAt(leaves, lowered, lower, k);
      } else if Scan(leaves, lowered, lower) == Yes {
        assert HitAt(leaves, lowered, lower, n);
      }
      if k: nat :| HitAt(leaves, lowered, lower, k) {
        if k < n {
          assert HitAt(init, lowered, lower, k);
        } else {
          assert Scan(init, lowered, lower) != Raises by {
            NoRaise(init, lowered, lower);
          }
        }
      }
    }
  }

  lemma {:induction false} LeafInColumn(backend: Backend, columns: seq<string>, contact: Contact, leaf: Leaf)
    ensures leaf in ContactLeaves(backend, columns, contact)
       <==> exists c | c in columns :: leaf in ValueLeaves(backend, ColumnValue(contact, c))
  {
    if columns != [] {
      LeafInColumn(backend, columns[..|columns| - 1], contact, leaf);
      assert columns == columns[..|columns| - 1] + [columns[|columns| - 1]];
    }
  }

  // ---------- Which texts of a column count, backend by backend ----------

  /** google looks into labelled items; for the others such an item cannot be compared. */
  predicate ItemHas(backend: Backend, item: Item, lowered: string, lower: string -> string) {
    match item
    case Single(leaf) => leaf.Some? && lower(leaf.value) == lowered
    case Labelled(leaves) =>
      backend == Google && exists k | 0 <= k < |leaves| :: leaves[k].Some? && lower(leaves[k].value) == lowered
  }

  predicate ItemComparable(backend: Backend, item: Item) {
    match item
    case Single(leaf) => leaf.Some?
    case Labelled(leaves) => backend == Google && forall k | 0 <= k < |leaves| :: leaves[k].Some?
  }

  /** google compares the keys of a dict, office365 its `str`; conference looks at texts and lists only. */
  predicate ValueHas(backend: Backend, value: Value, lowered: string, lower: string -> string) {
    match value
    case Absent => false
    case Text(text) => lower(text) == lowered
    case Scalar(str, _) => backend != Conference && lower(str) == lowered
    case Items(items) => exists j | 0 <= j < |items| :: ItemHas(backend, items[j], lowered, lower)
    case Dict(keys, str) =>
      || (backend == Google && exists k | 0 <= k < |keys| :: lower(keys[k]) == lowered)
      || (backend == Office365 && lower(str) == lowered)
  }

  predicate ValueComparable(backend: Backend, value: Value) {
    value.Items? ==> forall j | 0 <= j < |value.items| :: ItemComparable(backend, value.items[j])
  }

  /** A missing or falsy column reads as the empty text. */
  predicate ContactHas(m: Matcher, contact: Contact, lowered: string) {
    exists c | c in m.columns ::
      ValueHas(m.backend, if c !in contact || IsFalsy(contact[c]) then Text("") else contact[c], lowered, m.lower)
  }

  predicate ContactComparable(m: Matcher, contact: Contact) {
    forall c | c in m.columns && c in contact && !IsFalsy(contact[c]) :: ValueComparable(m.backend, contact[c])
  }

  predicate Hits(leaf: Leaf, lowered: string, lower: string -> string) {
    leaf.Some? && lower(leaf.value) == lowered
  }

  lemma {:induction false} LeafInItems(backend: Backend, items: seq<Item>, leaf: Leaf)
    ensures leaf in AllLeaves(backend, items) <==> exists j | 0 <= j < |items| :: leaf in Leaves(backend, items[j])
  {
    if items != [] {
      var n := |items| - 1;
      LeafInItems(backend, items[..n], leaf);
      assert forall j | 0 <= j < n :: items[..n][j] == items[j];
    }
  }

  lemma ItemLeaves(backend: Backend, item: Item, lowered: string, lower: string -> string)
    ensures ItemHas(backend, item, lowered, lower) <==> exists leaf | leaf in Leaves(backend, item) ::
      Hits(leaf, lowered, lower)
    ensures ItemComparable(backend, item) <==> None !in Leaves(backend, item)
  {
    var leaves := Leaves(backend, item);
    if ItemHas(backend, item, lowered, lower) {
      if item.Single? {
        assert item.leaf in leaves && Hits(item.leaf, lowered, lower);
      } else {
        var k :| 0 <= k < |item.leaves| && Hits(item.leaves[k], lowered, lower);
        assert item.leaves[k] in leaves;
      }
    }
  }

  lemma ItemsLeaves(backend: Backend, items: seq<Item>, lowered: string, lower: string -> string)
    ensures ValueHas(backend, Items(items), lowered, lower)
       <==> exists leaf | leaf in AllLeaves(backend, items) :: Hits(leaf, lowered, lower)
    ensures ValueComparable(backend, Items(items)) <==> None !in AllLeaves(backend, items)
  {
    forall j | 0 <= j < |items|
      ensures ItemHas(backend, items[j], lowered, lower)
         <==> exists leaf | leaf in Leaves(backend, items[j]) :: Hits(leaf, lowered, lower)
      ensures ItemComparable(backend, items[j]) <==> None !in Leaves(backend, items[j])
    {
      ItemLeaves(backend, items[j], lowered, lower);
    }
    forall leaf
      ensures leaf in AllLeaves(backend, items) <==> exists j | 0 <= j < |items| :: leaf in Leaves(backend, items[j])
    {
      LeafInItems(backend, items, leaf);
    }
  }

  lemma ValuesLeaves(backend: Backend, value: Value, lowered: string, lower: string -> string)
    ensures ValueHas(backend, value, lowered, lower)
       <==> exists leaf | leaf in ValueLeaves(backend, value) :: Hits(leaf, lowered, lower)
    ensures ValueComparable(backend, value) <==> None !in ValueLeaves(backend, value)
  {
    match value
    case Items(items) => ItemsLeaves(backend, items, lowered, lower);
    case Dict(keys, str) =>
      if k :| 0 <= k < |keys| && lower(keys[k]) == lowered {
        assert Keys(keys)[k] in Keys(keys) && Hits(Keys(keys)[k], lowered, lower);
      }
      assert Hits(Some(str), lowered, lower) <==> lower(str) == lowered;
    case Text(text) => assert Hits(Some(text), lowered, lower) <==> lower(text) == lowered;
    case Scalar(str, _) => assert Hits(Some(str), lowered, lower) <==> lower(str) == lowered;
    case Absent =>
  }

  lemma ContactsLeaves(m: Matcher, contact: Contact, lowered: string)
    ensures ContactHas(m, contact, lowered)
       <==> exists leaf | leaf in ContactLeaves(m.backend, m.columns, contact) :: Hits(leaf, lowered, m.lower)
    ensures ContactComparable(m, contact) <==> None !in ContactLeaves(m.backend, m.columns, contact)
  {
    forall c | c in m.columns
      ensures ValueHas(m.backend, ColumnValue(contact, c), lowered, m.lower)
         <==> exists leaf | leaf in ValueLeaves(m.backend, ColumnValue(contact, c)) :: Hits(leaf, lowered, m.lower)
      ensures ValueComparable(m.backend, ColumnValue(contact, c))
         <==> None !in ValueLeaves(m.backend, ColumnValue(contact, c))
    {
      ValuesLeaves(m.backend, ColumnValue(contact, c), lowered, m.lower);
    }
    forall leaf
      ensures leaf in ContactLeaves(m.backend, m.columns, contact)
         <==> exists c | c in m.columns :: leaf in ValueLeaves(m.backend, ColumnValue(contact, c))
    {
      LeafInColumn(m.backend, m.columns, contact, leaf);
    }
  }

  /**
   A contact whose match columns can all be compared matches exactly the terms that one of them has, letter case
   aside, and never raises.  One with a column that cannot be compared raises for every term that none of them has.
   */
  lemma VerdictIff(m: Matcher, term: string, contact: Contact)
    ensures ContactComparable(m, contact) ==>
      JudgeOf(m)(term, contact) == if ContactHas(m, contact, m.lower(term)) then Yes else No
    ensures !ContactComparable(m, contact) && !ContactHas(m, contact, m.lower(term)) ==>
      JudgeOf(m)(term, contact) == Raises
  {
    var leaves, lowered := ContactLeaves(m.backend, m.columns, contact), m.lower(term);
    ContactsLeaves(m, contact, lowered);
    ScanIff(leaves, lowered, m.lower);
    if ContactHas(m, contact, lowered) {
      var leaf :| leaf in leaves && Hits(leaf, lowered, m.lower);
      var k :| 0 <= k < |leaves| && leaves[k] == leaf;
      assert ContactComparable(m, contact) ==> HitAt(leaves, lowered, m.lower, k);
    } else {
      assert forall k | 0 <= k < |leaves| && leaves[k].Some? ::
        leaves[k] in leaves && !Hits(leaves[k], lowered, m.lower);
    }
  }

  // ---------- Contacts that make the two forms differ ----------

  /** A column that holds one text, or one list of texts or labelled texts. */
  lemma OneColumnLeaves(backend: Backend, column: string, contact: Contact)
    ensures ContactLeaves(backend, [column], contact) == ValueLeaves(backend, ColumnValue(contact, column))
  {
    assert [column][..0] == [];
  }

  lemma TwoColumnLeaves(backend: Backend, one: string, two: string, contact: Contact)
    ensures ContactLeaves(backend, [one, two], contact)
         == ValueLeaves(backend, ColumnValue(contact, one)) + ValueLeaves(backend, ColumnValue(contact, two))
  {
    assert [one, two][..1] == [one];
    OneColumnLeaves(backend, one, contact);
  }

  lemma OneItemLeaves(backend: Backend, item: Item)
    ensures AllLeaves(backend, [item]) == Leaves(backend, item)
  {
    assert [item][..0] == [];
  }

  lemma ScanOne(leaf: Leaf, lowered: string, lower: string -> string)
    ensures Scan([leaf], lowered, lower)
         == if leaf.None? then Raises else if lowered == lower(leaf.value) then Yes else No
  {
    assert [leaf][..0] == [];
  }

  function WithNumber(number: string): Contact {
    map["numbers" := Items([Single(Some(number))])]
  }

  /** An address of office365 is a dict in a list, on which `lower()` raises. */
  function WithAddress(address: string): Contact {
    map["emailAddresses" := Items([Labelled([Some(address)])])]
  }

  lemma NumberMatches(backend: Backend, number: string, lower: string -> string)
    ensures var m := Matcher(backend, ["numbers", "emailAddresses"], lower);
      JudgeOf(m)(number, WithNumber(number)) == Yes
  {
    var a := WithNumber(number);
    TwoColumnLeaves(backend, "numbers", "emailAddresses", a);
    OneItemLeaves(backend, Single(Some(number)));
    ScanOne(Some(number), lower(number), lower);
    ScanConcat([Some(number)], ValueLeaves(backend, ColumnValue(a, "emailAddresses")), lower(number), lower);
  }

  lemma AddressRaises(backend: Backend, number: string, address: string, lower: string -> string)
    requires backend != Google && lower(number) != lower("")
    ensures var m := Matcher(backend, ["numbers", "emailAddresses"], lower);
      JudgeOf(m)(number, WithAddress(address)) == Raises
  {
    var b := WithAddress(address);
    TwoColumnLeaves(backend, "numbers", "emailAddresses", b);
    OneItemLeaves(backend, Labelled([Some(address)]));
    ScanOne(Some(""), lower(number), lower);
    ScanOne(None, lower(number), lower);
    ScanConcat([Some("")], [None], lower(number), lower);
  }

  /**
   With the addresses among the match columns of office365, a contact with an address loses the answer
   that the one-by-one form gives for another contact's number.
   */
  lemma AddressLosesNumber<R>(number: string, address: string, lower: string -> string, wrap: Contact -> R)
    requires lower(number) != lower("")
    ensures var m := Matcher(Office365, ["numbers", "emailAddresses"], lower);
      var contacts := [WithNumber(number), WithAddress(address)];
      && ByFirst([number], contacts, JudgeOf(m), wrap) == Some(map[number := wrap(WithNumber(number))])
      && ByLast([number], contacts, JudgeOf(m), wrap) == None
  {
    var m := Matcher(Office365, ["numbers", "emailAddresses"], lower);
    NumberMatches(Office365, number, lower);
    AddressRaises(Office365, number, address, lower);
    RaisingContactLosesAll(number, WithNumber(number), WithAddress(address), JudgeOf(m), wrap);
  }

  function WithName(number: string, name: string): Contact {
    map["numbers" := Items([Single(Some(number))]), "name" := Text(name)]
  }

  lemma NamedMatches(backend: Backend, number: string, name: string, lower: string -> string)
    ensures JudgeOf(Matcher(backend, ["numbers"], lower))(number, WithName(number, name)) == Yes
  {
    OneColumnLeaves(backend, "numbers", WithName(number, name));
    OneItemLeaves(backend, Single(Some(number)));
    ScanOne(Some(number), lower(number), lower);
  }

  /** Two contacts of any of the backends with the same number: one-by-one answers the first, the batch the last. */
  lemma SameNumberDiffers(backend: Backend, number: string, one: string, two: string, lower: string -> string)
    requires one != two
    ensures var judge := JudgeOf(Matcher(backend, ["numbers"], lower));
      var contacts := [WithName(number, one), WithName(number, two)];
      var first, last := ByFirst([number], contacts, judge, c => c), ByLast([number], contacts, judge, c => c);
      && first == Some(map[number := WithName(number, one)])
      && last == Some(map[number := WithName(number, two)])
      && first != last
  {
    NamedMatches(backend, number, one, lower);
    NamedMatches(backend, number, two, lower);
    var a, b := WithName(number, one), WithName(number, two);
    assert a["name"] == Text(one) && b["name"] == Text(two);
    TwoMatchesDiffer(number, a, b, JudgeOf(Matcher(backend, ["numbers"], lower)), (c: Contact) => c);
    assert map[number := a][number] != map[number := b][number];
  }

  // ---------- The match predicates, as the backends loop over the columns ----------

  method ScanLeaves(leaves: seq<Leaf>, lowered: string, lower: string -> string) returns (verdict: Verdict)
    ensures verdict == Scan(leaves, lowered, lower)
  {
    for i := 0 to |leaves|
      invariant Scan(leaves[..i], lowered, lower) == No
    {
      assert leaves[..i + 1][..i] == leaves[..i];
      assert leaves == leaves[..i + 1] + leaves[i + 1..];
      ScanConcat(leaves[..i + 1], leaves[i + 1..], lowered, lower);
      if leaves[i].None? {
        return Raises;
      }
      if lowered == lower(leaves[i].value) {
        return Yes;
      }
    }
    assert leaves[..|leaves|] == leaves;
    verdict := No;
  }

  lemma AllLeavesStep(backend: Backend, items: seq<Item>, j: nat)
    requires j < |items|
    ensures AllLeaves(backend, items[..j + 1]) == AllLeaves(backend, items[..j]) + Leaves(backend, items[j])
  {
    assert items[..j + 1][..j] == items[..j];
  }

  /** Once a part of the leaves decides, all of them do. */
  lemma {:induction false} PrefixDecides(backend: Backend, items: seq<Item>, j: nat, lowered: string,
                                         lower: string -> string)
    requires j <= |items| && Scan(AllLeaves(backend, items[..j]), lowered, lower) != No
    ensures Scan(AllLeaves(backend, items), lowered, lower) == Scan(AllLeaves(backend, items[..j]), lowered, lower)
    decreases |items| - j
  {
    if j < |items| {
      AllLeavesStep(backend, items, j);
      ScanConcat(AllLeaves(backend, items[..j]), Leaves(backend, items[j]), lowered, lower);
      PrefixDecides(backend, items, j + 1, lowered, lower);
    } else {
      assert items[..j] == items;
    }
  }

  /** The loop over a list of google, with its inner loop over a labelled item; office365 and conference raise there. */
  method ScanItems(backend: Backend, items: seq<Item>, lowered: string, lower: string -> string)
    returns (verdict: Verdict)
    ensures verdict == Scan(AllLeaves(backend, items), lowered, lower)
  {
    for j := 0 to |items|
      invariant Scan(AllLeaves(backend, items[..j]), lowered, lower) == No
    {
      AllLeavesStep(backend, items, j);
      ScanConcat(AllLeaves(backend, items[..j]), Leaves(backend, items[j]), lowered, lower);
      match items[j] {
        case Single(leaf) => verdict := ScanLeaves([leaf], lowered, lower);
        case Labelled(leaves) =>
          if backend == Google {
            verdict := ScanLeaves(leaves, lowered, lower);
          } else {
            verdict := Raises;
          }
      }
      if verdict != No {
        PrefixDecides(backend, items, j + 1, lowered, lower);
        return;
      }
    }
    assert items[..|items|] == items;
    verdict := No;
  }

  /** One column: the type tests of the three predicates. */
  method ScanValue(backend: Backend, value: Value, lowered: string, lower: string -> string) returns (verdict: Verdict)
    ensures verdict == Scan(ValueLeaves(backend, value), lowered, lower)
  {
    match value {
      case Absent => verdict := No;
      case Text(text) => verdict := ScanLeaves([Some(text)], lowered, lower);
      case Items(items) => verdict := ScanItems(backend, items, lowered, lower);
      case Scalar(str, _) =>
        if backend == Conference {
          verdict := No;
        } else {
          verdict := ScanLeaves([Some(str)], lowered, lower);
        }
      case Dict(keys, str) =>
        match backend {
          case Google => verdict := ScanLeaves(Keys(keys), lowered, lower);
          case Office365 => verdict := ScanLeaves([Some(str)], lowered, lower);
          case Conference => verdict := No;
        }
    }
  }

  lemma LeavesStep(backend: Backend, columns: seq<string>, contact: Contact, i: nat)
    requires i < |columns|
    ensures ContactLeaves(backend, columns[..i + 1], contact)
         == ContactLeaves(backend, columns[..i], contact) + ValueLeaves(backend, ColumnValue(contact, columns[i]))
  {
    assert columns[..i + 1][..i] == columns[..i];
  }

  lemma {:induction false} ColumnsDecide(m: Matcher, contact: Contact, i: nat, lowered: string)
    requires i <= |m.columns| && Scan(ContactLeaves(m.backend, m.columns[..i], contact), lowered, m.lower) != No
    ensures Scan(ContactLeaves(m.backend, m.columns, contact), lowered, m.lower)
         == Scan(ContactLeaves(m.backend, m.columns[..i], contact), lowered, m.lower)
    decreases |m.columns| - i
  {
    if i < |m.columns| {
      LeavesStep(m.backend, m.columns, contact, i);
      ScanConcat(ContactLeaves(m.backend, m.columns[..i], contact),
                 ValueLeaves(m.backend, ColumnValue(contact, m.columns[i])), lowered, m.lower);
      ColumnsDecide(m, contact, i + 1, lowered);
    } else {
      assert m.columns[..i] == m.columns;
    }
  }

  /** `_first_match_predicate` of google and office365, `_first_match_filter` of conference. */
  method MatchPredicate(m: Matcher, lowered: string, contact: Contact) returns (verdict: Verdict)
    ensures verdict == Scan(ContactLeaves(m.backend, m.columns, contact), lowered, m.lower)
  {
    for i := 0 to |m.columns|
      invariant Scan(ContactLeaves(m.backend, m.columns[..i], contact), lowered, m.lower) == No
    {
      var value := ColumnValue(contact, m.columns[i]);
      LeavesStep(m.backend, m.columns, contact, i);
      ScanConcat(ContactLeaves(m.backend, m.columns[..i], contact), ValueLeaves(m.backend, value), lowered, m.lower);
      verdict := ScanValue(m.backend, value, lowered, m.lower);
      if verdict != No {
        ColumnsDecide(m, contact, i + 1, lowered);
        return;
      }
    }
    assert m.columns[..|m.columns|] == m.columns;
    verdict := No;
  }

  // ---------- first_match and match_all of the three backends ----------

  /** The loop of `first_match`. */
  method FindFirst<R>(m: Matcher, term: string, contacts: seq<Contact>, wrap: Contact -> R) returns (found: Search<R>)
    ensures found == Wrapped(FirstMatch(contacts, JudgeOf(m), term), wrap)
  {
    var lowered := m.lower(term);
    for i := 0 to |contacts|
      invariant FirstMatch(contacts, JudgeOf(m), term) == FirstMatch(contacts[i..], JudgeOf(m), term)
    {
      assert contacts[i..][0] == contacts[i] && contacts[i..][1..] == contacts[i + 1..];
      var verdict := MatchPredicate(m, lowered, contacts[i]);
      match verdict {
        case Yes => return Found(wrap(contacts[i]));
        case Raises => return Raised;
        case No =>
      }
    }
    found := NotFound;
  }

  /** google and office365: the last match of one term. */
  method FindLast<R>(m: Matcher, term: string, contacts: seq<Contact>, wrap: Contact -> R) returns (found: Search<R>)
    ensures found == Wrapped(LastMatch(contacts, JudgeOf(m), term), wrap)
  {
    var lowered := m.lower(term);
    found := NotFound;
    for j := 0 to |contacts|
      invariant found == Wrapped(LastMatch(contacts[..j], JudgeOf(m), term), wrap) && !found.Raised?
    {
      assert contacts[..j + 1][..j] == contacts[..j];
      var verdict := MatchPredicate(m, lowered, contacts[j]);
      match verdict {
        case Yes => found := Found(wrap(contacts[j]));
        case Raises =>
          LastMatchIff(contacts, JudgeOf(m), term);
          return Raised;
        case No =>
      }
    }
    assert contacts[..|contacts|] == contacts;
  }

  /** `match_all` of google and office365: for each term, every contact. */
  method MatchTermByTerm<R>(m: Matcher, terms: seq<string>, contacts: seq<Contact>, wrap: Contact -> R)
    returns (results: Option<map<string, R>>)
    ensures results == ByLast(terms, contacts, JudgeOf(m), wrap)
  {
    ghost var lastMatch := LastSearch(contacts, JudgeOf(m), wrap);
    var found: map<string, R> := map[];
    for i := 0 to |terms|
      invariant OneByOne(terms[..i], lastMatch) == Some(found)
    {
      OneByOneStep(terms, i, lastMatch);
      var last := FindLast(m, terms[i], contacts, wrap);
      match last {
        case Raised =>
          RaisesAmong(terms, i, lastMatch);
          return None;
        case NotFound =>
        case Found(result) => found := found[terms[i] := result];
      }
    }
    assert terms[..|terms|] == terms;
    results := Some(found);
  }

  /** The results once a contact has been compared with the terms. */
  function WithContact<R>(results: map<string, R>, terms: seq<string>, judge: Judge<Contact>, contact: Contact,
                          wrap: Contact -> R): map<string, R> {
    results + map t | t in terms && judge(t, contact) == Yes :: wrap(contact)
  }

  lemma WithContactStep<R>(results: map<string, R>, terms: seq<string>, j: nat, judge: Judge<Contact>,
                           contact: Contact, wrap: Contact -> R)
    requires j < |terms|
    ensures WithContact(results, terms[..j + 1], judge, contact, wrap)
         == (var earlier := WithContact(results, terms[..j], judge, contact, wrap);
             if judge(terms[j], contact) == Yes then earlier[terms[j] := wrap(contact)] else earlier)
  {
    assert terms[..j + 1] == terms[..j] + [terms[j]];
  }

  lemma LastStep<R>(contacts: seq<Contact>, i: nat, judge: Judge<Contact>, wrap: Contact -> R, t: string)
    requires i < |contacts| && judge(t, contacts[i]) != Raises
    requires !LastSearch(contacts[..i], judge, wrap)(t).Raised?
    ensures LastSearch(contacts[..i + 1], judge, wrap)(t)
         == if judge(t, contacts[i]) == Yes then Found(wrap(contacts[i])) else LastSearch(contacts[..i], judge, wrap)(t)
  {
    assert contacts[..i + 1][..i] == contacts[..i];
  }

  lemma ByLastStep<R>(terms: seq<string>, contacts: seq<Contact>, i: nat, judge: Judge<Contact>, wrap: Contact -> R)
    requires i < |contacts| && ByLast(terms, contacts[..i], judge, wrap).Some?
    requires forall t | t in terms :: judge(t, contacts[i]) != Raises
    ensures ByLast(terms, contacts[..i + 1], judge, wrap)
         == Some(WithContact(ByLast(terms, contacts[..i], judge, wrap).value, terms, judge, contacts[i], wrap))
  {
    var before, after := LastSearch(contacts[..i], judge, wrap), LastSearch(contacts[..i + 1], judge, wrap);
    forall t | t in terms
      ensures !before(t).Raised?
      ensures after(t) == if judge(t, contacts[i]) == Yes then Found(wrap(contacts[i])) else before(t)
    {
      LastStep(contacts, i, judge, wrap, t);
    }
    var earlier, later := OneByOne(terms, before), OneByOne(terms, after);
    assert later.Some?;
    assert later.value == WithContact(earlier.value, terms, judge, contacts[i], wrap);
  }

  /** The inner loop of conference: one contact, every term. */
  method MatchContact<R>(m: Matcher, terms: seq<string>, contact: Contact, before: map<string, R>, wrap: Contact -> R)
    returns (results: Option<map<string, R>>)
    ensures results == if exists t | t in terms :: JudgeOf(m)(t, contact) == Raises then None
                       else Some(WithContact(before, terms, JudgeOf(m), contact, wrap))
  {
    var found := before;
    for j := 0 to |terms|
      invariant found == WithContact(before, terms[..j], JudgeOf(m), contact, wrap)
      invariant forall k | 0 <= k < j :: JudgeOf(m)(terms[k], contact) != Raises
    {
      WithContactStep(before, terms, j, JudgeOf(m), contact, wrap);
      var verdict := MatchPredicate(m, m.lower(terms[j]), contact);
      assert verdict == JudgeOf(m)(terms[j], contact);
      match verdict {
        case Yes => found := found[terms[j] := wrap(contact)];
        case Raises =>
          assert terms[j] in terms;
          return None;
        case No =>
      }
    }
    assert terms[..|terms|] == terms;
    results := Some(found);
  }

  /** `match_all` of conference: for each contact, every term. */
  method MatchContactByContact<R>(m: Matcher, terms: seq<string>, contacts: seq<Contact>, wrap: Contact -> R)
    returns (results: Option<map<string, R>>)
    ensures results == ByLast(terms, contacts, JudgeOf(m), wrap)
  {
    var found: map<string, R> := map[];
    for i := 0 to |contacts|
      invariant ByLast(terms, contacts[..i], JudgeOf(m), wrap) == Some(found)
    {
      var next := MatchContact(m, terms, contacts[i], found, wrap);
      if next.None? {
        ByLastIff(terms, contacts, JudgeOf(m), wrap);
        return None;
      }
      ByLastStep(terms, contacts, i, JudgeOf(m), wrap);
      found := next.value;
    }
    assert contacts[..|contacts|] == contacts;
    results := Some(found);
  }

  /** `match_all` of google; without a token there are no contacts to look at. */
  method GoogleMatchAll<R>(columns: seq<string>, lower: string -> string, terms: seq<string>,
                           fetched: Option<seq<Contact>>,
                           wrap: Contact -> R) returns (results: Option<map<string, R>>)
    ensures var contacts := if fetched.Some? then fetched.value else [];
      results == ByLast(terms, contacts, JudgeOf(Matcher(Google, columns, lower)), wrap)
  {
    var m := Matcher(Google, columns, lower);
    if columns == [] || fetched.None? {
      ByLastIff(terms, if fetched.Some? then fetched.value else [], JudgeOf(m), wrap);
      return Some(map[]);
    }
    results := MatchTermByTerm(m, terms, fetched.value, wrap);
  }

  // ---------- office365 ----------

  /** The numbers and the address that the office365 services read in a contact. */
  datatype Services = Services(email: Contact -> Value, numbers: Contact -> Value, numbersExceptLabel: Contact -> Value)

  function Updated(contact: Contact, services: Services): Contact {
    var named := if "givenName" in contact then contact else contact["givenName" := Text("")];
    var mailed := named["email" := services.email(named)];
    var numbered := mailed["numbers" := services.numbers(mailed)];
    numbered["numbers_except_label" := services.numbersExceptLabel(numbered)]
  }

  function AllUpdated(contacts: seq<Contact>, services: Services): seq<Contact> {
    seq(|contacts|, i requires 0 <= i < |contacts| => Updated(contacts[i], services))
  }

  /** The four fields of a contact after the update, each computed from what the earlier ones left; the others stay. */
  predicate IsUpdated(before: Contact, services: Services, after: Contact) {
    var named := if "givenName" in before then before else before["givenName" := Text("")];
    var mailed := named["email" := services.email(named)];
    var numbered := mailed["numbers" := services.numbers(mailed)];
    && after.Keys == before.Keys + {"givenName", "email", "numbers", "numbers_except_label"}
    && after["email"] == services.email(named) && after["numbers"] == services.numbers(mailed)
    && after["numbers_except_label"] == services.numbersExceptLabel(numbered)
    && after["givenName"] == (if "givenName" in before then before["givenName"] else Text(""))
    && forall n | n in before && n !in {"givenName", "email", "numbers", "numbers_except_label"} ::
      after[n] == before[n]
  }

  /** `_update_contact_fields`, in place. */
  method UpdateContactFields(contacts: array<Contact>, services: Services)
    modifies contacts
    ensures contacts[..] == AllUpdated(old(contacts[..]), services)
    ensures forall i | 0 <= i < contacts.Length :: IsUpdated(old(contacts[i]), services, contacts[i])
  {
    for i := 0 to contacts.Length
      invariant forall k | 0 <= k < i :: contacts[k] == Updated(old(contacts[k]), services)
      invariant forall k | i <= k < contacts.Length :: contacts[k] == old(contacts[k])
    {
      if "givenName" !in contacts[i] {
        contacts[i] := contacts[i]["givenName" := Text("")];
      }
      contacts[i] := contacts[i]["email" := services.email(contacts[i])];
      contacts[i] := contacts[i]["numbers" := services.numbers(contacts[i])];
      contacts[i] := contacts[i]["numbers_except_label" := services.numbersExceptLabel(contacts[i])];
    }
  }

  /** `match_all` of office365, on the contacts as updated. */
  method OfficeMatchAll<R>(columns: seq<string>, lower: string -> string, terms: seq<string>, contacts: array<Contact>,
                           services: Services, wrap: Contact -> R) returns (results: Option<map<string, R>>)
    modifies contacts
    ensures var judge := JudgeOf(Matcher(Office365, columns, lower));
      results == ByLast(terms, AllUpdated(old(contacts[..]), services), judge, wrap)
  {
    var m := Matcher(Office365, columns, lower);
    if columns == [] || contacts.Length == 0 {
      ByLastIff(terms, AllUpdated(contacts[..], services), JudgeOf(m), wrap);
      return Some(map[]);
    }
    UpdateContactFields(contacts, services);
    results := MatchTermByTerm(m, terms, contacts[..], wrap);
  }

  // ---------- The empty term ----------

  ghost predicate KeepsEmpty(lower: string -> string) {
    forall s :: lower(s) == "" <==> s == ""
  }

  /** The contact lacks the column, or the column is falsy or holds an empty text. */
  predicate IsBlankIn(backend: Backend, contact: Contact, column: string) {
    column !in contact || IsFalsy(contact[column]) || Some("") in ValueLeaves(backend, contact[column])
  }

  predicate CanCompare(m: Matcher, contact: Contact) {
    forall leaf | leaf in ContactLeaves(m.backend, m.columns, contact) :: leaf.Some?
  }

  /** The empty term matches exactly the contacts that are blank in a match column. */
  lemma EmptyTermIff(m: Matcher, contact: Contact)
    requires KeepsEmpty(m.lower) && CanCompare(m, contact)
    ensures JudgeOf(m)("", contact) == Yes <==> exists c | c in m.columns :: IsBlankIn(m.backend, contact, c)
  {
    var leaves := ContactLeaves(m.backend, m.columns, contact);
    ScanIff(leaves, m.lower(""), m.lower);
    NoRaise(leaves, m.lower(""), m.lower);
    LeafInColumn(m.backend, m.columns, contact, Some(""));
    forall c | c in m.columns
      ensures IsBlankIn(m.backend, contact, c) <==> Some("") in ValueLeaves(m.backend, ColumnValue(contact, c))
    {
      assert ValueLeaves(m.backend, Text("")) == [Some("")];
    }
    if Some("") in leaves {
      var k :| 0 <= k < |leaves| && leaves[k] == Some("");
    }
  }
}
