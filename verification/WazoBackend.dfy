/**
 `match_all` of the wazo backend: one request for each term, or one for each match column with the terms
 joined by commas (`wazo_dird/plugins/wazo_user_backend/plugin.py`).
 */
module WazoBackend {
  import opened Wrappers
  import opened LastWins
  import opened MatchAll
  import SR = SourceResult

  datatype Config = Config(columns: seq<string>, formatColumns: SR.Columns)

  /** The terms that have an entry, with it. */
  function Answers<R>(terms: seq<string>, found: string -> Option<R>): map<string, R> {
    map t | t in terms && found(t).Some? :: found(t).value
  }

  const SUPPORTED_COLUMNS := ["exten", "mobile_phone_number"]

  function JoinCommas(terms: seq<string>): string {
    if terms == [] then ""
    else if |terms| == 1 then terms[0]
    else terms[0] + "," + JoinCommas(terms[1..])
  }

  /** How the server reads a comma-separated list. */
  function SplitCommas(s: string): seq<string> {
    if s == "" then [""]
    else
      var rest := SplitCommas(s[1..]);
      if s[0] == ',' then [""] + rest else [[s[0]] + rest[0]] + rest[1..]
  }

  /** The server: the users, what it answers to a search term, and to a column with a list of values. */
  datatype Server = Server(
    users: seq<SR.Fields>,
    search: string -> seq<SR.Fields>,
    column: (string, string) -> seq<SR.Fields>)

  predicate HasTerm(u: SR.Fields, columns: seq<string>, term: string) {
    exists i | 0 <= i < |columns| :: SR.Lookup(u, columns[i]) == Some(term)
  }

  /**
   A search answers users of the list, at least those with the term in a match column.  A column query
   answers the users with one of the listed values in that column, or all the users for an empty list.
   */
  ghost predicate Faithful(server: Server, columns: seq<string>) {
    && (forall t, u | u in server.search(t) :: u in server.users)
    && (forall t, u | u in server.users && HasTerm(u, columns, t) :: u in server.search(t))
    && (forall c, list, u :: u in server.column(c, list) <==>
          u in server.users && (list == "" || (SR.Lookup(u, c).Some? && SR.Lookup(u, c).value in SplitCommas(list))))
  }

  function Results(cfg: Config, users: seq<SR.Fields>): seq<SR.Fields>
    requires SR.SimpleColumns(cfg.formatColumns)
  {
    seq(|users|, i requires 0 <= i < |users| => SR.Formatted(users[i], cfg.formatColumns))
  }

  function FirstWith(entries: seq<SR.Fields>, columns: seq<string>, term: string): Option<SR.Fields> {
    if entries == [] then None
    else if HasTerm(entries[0], columns, term) then Some(entries[0])
    else FirstWith(entries[1..], columns, term)
  }

  /** The user at `i` is the first whose formatted entry shows the term in a match column. */
  predicate IsFirstWith(cfg: Config, users: seq<SR.Fields>, term: string, i: nat)
    requires SR.SimpleColumns(cfg.formatColumns)
  {
    && i < |users| && HasTerm(SR.Formatted(users[i], cfg.formatColumns), cfg.columns, term)
    && forall k | 0 <= k < i :: !HasTerm(SR.Formatted(users[k], cfg.formatColumns), cfg.columns, term)
  }

  lemma {:induction false} FirstWithIs(cfg: Config, users: seq<SR.Fields>, term: string)
    requires SR.SimpleColumns(cfg.formatColumns)
    ensures var found := FirstWith(Results(cfg, users), cfg.columns, term);
      && (found.Some? <==> exists i: nat :: IsFirstWith(cfg, users, term, i))
      && (forall i: nat | IsFirstWith(cfg, users, term, i) ::
            found == Some(SR.Formatted(users[i], cfg.formatColumns)))
  {
    if users != [] {
      var rest := users[1..];
      FirstWithIs(cfg, rest, term);
      assert Results(cfg, users)[1..] == Results(cfg, rest);
      assert forall k | 0 <= k < |rest| :: rest[k] == users[k + 1];
      if HasTerm(SR.Formatted(users[0], cfg.formatColumns), cfg.columns, term) {
        assert IsFirstWith(cfg, users, term, 0);
      } else {
        forall i: nat | IsFirstWith(cfg, users, term, i) ensures i > 0 && IsFirstWith(cfg, rest, term, i - 1) {
        }
        if i: nat :| IsFirstWith(cfg, rest, term, i) {
          assert IsFirstWith(cfg, users, term, i + 1);
        }
      }
    }
  }

  /** `first_match` */
  method FindFirstEntry(cfg: Config, server: Server, term: string) returns (found: Option<SR.Fields>)
    requires SR.SimpleColumns(cfg.formatColumns)
    ensures found == FirstWith(Results(cfg, server.search(term)), cfg.columns, term)
    ensures found.Some? <==> exists i: nat :: IsFirstWith(cfg, server.search(term), term, i)
    ensures forall i: nat | IsFirstWith(cfg, server.search(term), term, i) ::
      found == Some(SR.Formatted(server.search(term)[i], cfg.formatColumns))
  {
    FirstWithIs(cfg, server.search(term), term);
    var entries := Results(cfg, server.search(term));
    for i := 0 to |entries|
      invariant FirstWith(entries, cfg.columns, term) == FirstWith(entries[i..], cfg.columns, term)
    {
      assert entries[i..][0] == entries[i] && entries[i..][1..] == entries[i + 1..];
      if HasTerm(entries[i], cfg.columns, term) {
        return Some(entries[i]);
      }
    }
    found := None;
  }

  /** The entry the batch path keeps for a term: a later column wins, and in a column a later entry. */
  function WinnerOf(cfg: Config, server: Server, list: string, columns: seq<string>, term: string): Option<SR.Fields>
    requires SR.SimpleColumns(cfg.formatColumns)
  {
    if columns == [] then None
    else
      var last := columns[|columns| - 1];
      Later(WinnerOf(cfg, server, list, columns[..|columns| - 1], term),
            LastIn(Results(cfg, server.column(last, list)), last, term))
  }

  /** The users that the server answers for the column at `i`, formatted. */
  function Listed(cfg: Config, server: Server, list: string, column: string): seq<SR.Fields>
    requires SR.SimpleColumns(cfg.formatColumns)
  {
    Results(cfg, server.column(column, list))
  }

  predicate IsListed(cfg: Config, server: Server, list: string, columns: seq<string>, term: string)
    requires SR.SimpleColumns(cfg.formatColumns)
  {
    exists k | 0 <= k < |columns| :: ShownIn(Listed(cfg, server, list, columns[k]), columns[k], term)
  }

  /** The entry at `j` is the last to show the term in the column at `i`; no later column has one. */
  predicate IsLastListed(cfg: Config, server: Server, list: string, columns: seq<string>, term: string, i: nat, j: nat)
    requires SR.SimpleColumns(cfg.formatColumns)
  {
    && i < |columns| && IsLastIn(Listed(cfg, server, list, columns[i]), columns[i], term, j)
    && forall k | i < k < |columns| :: !ShownIn(Listed(cfg, server, list, columns[k]), columns[k], term)
  }

  lemma ListedStep(cfg: Config, server: Server, list: string, columns: seq<string>, term: string)
    requires SR.SimpleColumns(cfg.formatColumns) && columns != []
    ensures var n := |columns| - 1;
      IsListed(cfg, server, list, columns, term)
      <==> IsListed(cfg, server, list, columns[..n], term)
           || ShownIn(Listed(cfg, server, list, columns[n]), columns[n], term)
  {
    var n := |columns| - 1;
    if k :| 0 <= k < n && ShownIn(Listed(cfg, server, list, columns[..n][k]), columns[..n][k], term) {
      assert columns[..n][k] == columns[k];
    }
    if k :| 0 <= k < |columns| && ShownIn(Listed(cfg, server, list, columns[k]), columns[k], term) && k < n {
      assert columns[..n][k] == columns[k];
    }
  }

  lemma LastListedBefore(cfg: Config, server: Server, list: string, columns: seq<string>, term: string, i: nat, j: nat)
    requires SR.SimpleColumns(cfg.formatColumns) && i < |columns| - 1
    requires IsLastListed(cfg, server, list, columns, term, i, j)
    ensures var n := |columns| - 1;
      && !ShownIn(Listed(cfg, server, list, columns[n]), columns[n], term)
      && IsLastListed(cfg, server, list, columns[..n], term, i, j)
  {
    var init := columns[..|columns| - 1];
    assert forall k | 0 <= k < |init| :: init[k] == columns[k];
  }

  /** The winner is the last entry of the last column that shows the term. */
  lemma {:induction false} WinnerOfIs(cfg: Config, server: Server, list: string, columns: seq<string>, term: string)
    requires SR.SimpleColumns(cfg.formatColumns)
    ensures WinnerOf(cfg, server, list, columns, term).Some? <==> IsListed(cfg, server, list, columns, term)
    ensures forall i: nat, j: nat | IsLastListed(cfg, server, list, columns, term, i, j) ::
      WinnerOf(cfg, server, list, columns, term) == Some(Listed(cfg, server, list, columns[i])[j])
  {
    if columns != [] {
      var n := |columns| - 1;
      WinnerOfIs(cfg, server, list, columns[..n], term);
      LastInIs(Listed(cfg, server, list, columns[n]), columns[n], term);
      ListedStep(cfg, server, list, columns, term);
      forall i: nat, j: nat | IsLastListed(cfg, server, list, columns, term, i, j)
        ensures WinnerOf(cfg, server, list, columns, term) == Some(Listed(cfg, server, list, columns[i])[j])
      {
        if i < n {
          LastListedBefore(cfg, server, list, columns, term, i, j);
          assert columns[..n][i] == columns[i];
        }
      }
    }
  }

  /** Each asked term that the answer for a column shows, with the last such entry of the last such column. */
  ghost predicate KeepsLastListed(cfg: Config, server: Server, terms: seq<string>, results: map<string, SR.Fields>)
    requires SR.SimpleColumns(cfg.formatColumns)
  {
    var list := JoinCommas(terms);
    && (forall t :: t in results <==> t in terms && IsListed(cfg, server, list, cfg.columns, t))
    && (forall t, i: nat, j: nat | t in results && IsLastListed(cfg, server, list, cfg.columns, t, i, j) ::
          results[t] == Listed(cfg, server, list, cfg.columns[i])[j])
  }

  function Batch(cfg: Config, server: Server, terms: seq<string>): map<string, SR.Fields>
    requires SR.SimpleColumns(cfg.formatColumns)
  {
    Answers(terms, t => WinnerOf(cfg, server, JoinCommas(terms), cfg.columns, t))
  }

  lemma BatchIs(cfg: Config, server: Server, terms: seq<string>)
    requires SR.SimpleColumns(cfg.formatColumns)
    ensures KeepsLastListed(cfg, server, terms, Batch(cfg, server, terms))
  {
    var list, columns := JoinCommas(terms), cfg.columns;
    forall t: string
      ensures WinnerOf(cfg, server, list, columns, t).Some? <==> IsListed(cfg, server, list, columns, t)
      ensures forall i: nat, j: nat | IsLastListed(cfg, server, list, columns, t, i, j) ::
        WinnerOf(cfg, server, list, columns, t) == Some(Listed(cfg, server, list, columns[i])[j])
    {
      WinnerOfIs(cfg, server, list, columns, t);
    }
  }

  /** Each asked term that the answer to its search shows in a match column, with the first such user, formatted. */
  ghost predicate KeepsFirst(cfg: Config, server: Server, terms: seq<string>, results: map<string, SR.Fields>)
    requires SR.SimpleColumns(cfg.formatColumns)
  {
    && (forall t :: t in results <==> t in terms && exists i: nat :: IsFirstWith(cfg, server.search(t), t, i))
    && (forall t, i: nat | t in results && IsFirstWith(cfg, server.search(t), t, i) ::
          results[t] == SR.Formatted(server.search(t)[i], cfg.formatColumns))
  }

  function Fallback(cfg: Config, server: Server, terms: seq<string>): map<string, SR.Fields>
    requires SR.SimpleColumns(cfg.formatColumns)
  {
    Answers(terms, t => FirstWith(Results(cfg, server.search(t)), cfg.columns, t))
  }

  lemma FallbackIs(cfg: Config, server: Server, terms: seq<string>)
    requires SR.SimpleColumns(cfg.formatColumns)
    ensures KeepsFirst(cfg, server, terms, Fallback(cfg, server, terms))
  {
    var results := Fallback(cfg, server, terms);
    forall t ensures t in results <==> t in terms && exists i: nat :: IsFirstWith(cfg, server.search(t), t, i) {
      FirstWithIs(cfg, server.search(t), t);
    }
    forall t, i: nat | t in results && IsFirstWith(cfg, server.search(t), t, i)
      ensures results[t] == SR.Formatted(server.search(t)[i], cfg.formatColumns)
    {
      FirstWithIs(cfg, server.search(t), t);
    }
  }

  /** Every match column is one that the server can be asked for, and there are at least as many terms as columns. */
  predicate UsesBatch(cfg: Config, terms: seq<string>) {
    (forall i | 0 <= i < |cfg.columns| :: cfg.columns[i] in SUPPORTED_COLUMNS) && |terms| >= |cfg.columns|
  }

  lemma FallbackStep(cfg: Config, server: Server, terms: seq<string>, i: nat)
    requires SR.SimpleColumns(cfg.formatColumns) && i < |terms|
    ensures var found := FirstWith(Results(cfg, server.search(terms[i])), cfg.columns, terms[i]);
      Fallback(cfg, server, terms[..i + 1])
      == if found.Some? then Fallback(cfg, server, terms[..i])[terms[i] := found.value]
         else Fallback(cfg, server, terms[..i])
  {
    assert terms[..i + 1] == terms[..i] + [terms[i]];
  }

  /** The path of `match_all` that asks for each term. */
  method MatchByTerm(cfg: Config, server: Server, terms: seq<string>) returns (results: map<string, SR.Fields>)
    requires SR.SimpleColumns(cfg.formatColumns)
    ensures results == Fallback(cfg, server, terms) && KeepsFirst(cfg, server, terms, results)
  {
    results := map[];
    for i := 0 to |terms|
      invariant results == Fallback(cfg, server, terms[..i])
    {
      FallbackStep(cfg, server, terms, i);
      var found := FindFirstEntry(cfg, server, terms[i]);
      if found.Some? {
        results := results[terms[i] := found.value];
      }
    }
    assert terms[..|terms|] == terms;
    FallbackIs(cfg, server, terms);
  }

  /** The path that asks once for each match column. */
  method MatchByColumn(cfg: Config, server: Server, terms: seq<string>) returns (results: map<string, SR.Fields>)
    requires SR.SimpleColumns(cfg.formatColumns)
    ensures results == Batch(cfg, server, terms) && KeepsLastListed(cfg, server, terms, results)
  {
    BatchIs(cfg, server, terms);
    results := map[];
    var columns, list := cfg.columns, JoinCommas(terms);
    for i := 0 to |columns|
      invariant forall t :: t in results <==> t in terms && WinnerOf(cfg, server, list, columns[..i], t).Some?
      invariant forall t | t in results :: WinnerOf(cfg, server, list, columns[..i], t) == Some(results[t])
    {
      assert columns[..i + 1][..i] == columns[..i];
      results := AbsorbColumn(results, terms, Results(cfg, server.column(columns[i], list)), columns[i]);
    }
    assert columns[..|columns|] == columns;
  }

  /** `match_all` */
  method MatchAllTerms(cfg: Config, server: Server, terms: seq<string>) returns (results: map<string, SR.Fields>)
    requires SR.SimpleColumns(cfg.formatColumns)
    ensures results == if UsesBatch(cfg, terms) then Batch(cfg, server, terms) else Fallback(cfg, server, terms)
    ensures
      if (forall i | 0 <= i < |cfg.columns| :: cfg.columns[i] == "exten" || cfg.columns[i] == "mobile_phone_number")
         && |terms| >= |cfg.columns|
      then KeepsLastListed(cfg, server, terms, results)
      else KeepsFirst(cfg, server, terms, results)
  {
    assert forall c :: c in SUPPORTED_COLUMNS <==> c == "exten" || c == "mobile_phone_number";
    var supported := forall i | 0 <= i < |cfg.columns| :: cfg.columns[i] in SUPPORTED_COLUMNS;
    var firstMatchFaster := |terms| < |cfg.columns|;
    if !supported || firstMatchFaster {
      results := MatchByTerm(cfg, server, terms);
    } else {
      results := MatchByColumn(cfg, server, terms);
    }
  }

  // ---------- The choice between the two paths ----------

  predicate PlainMatchColumns(cfg: Config) {
    SR.SimpleColumns(cfg.formatColumns) &&
    forall i, j | 0 <= i < |cfg.columns| && 0 <= j < |cfg.formatColumns| :: cfg.formatColumns[j].0 != cfg.columns[i]
  }

  /** Formatting does not touch the match columns. */
  lemma ResultHasTerm(cfg: Config, u: SR.Fields, term: string)
    requires PlainMatchColumns(cfg)
    ensures HasTerm(SR.Formatted(u, cfg.formatColumns), cfg.columns, term) <==> HasTerm(u, cfg.columns, term)
  {
    forall i | 0 <= i < |cfg.columns|
      ensures SR.Lookup(SR.Formatted(u, cfg.formatColumns), cfg.columns[i]) == SR.Lookup(u, cfg.columns[i])
    {
      SR.LaterColumnsKeep(cfg.formatColumns, u, cfg.columns[i]);
    }
  }

  ghost predicate SomeUserHas(server: Server, columns: seq<string>, term: string) {
    exists u | u in server.users :: HasTerm(u, columns, term)
  }

  lemma {:induction false} FirstWithIff(entries: seq<SR.Fields>, columns: seq<string>, term: string)
    ensures FirstWith(entries, columns, term).Some? <==> exists e | e in entries :: HasTerm(e, columns, term)
    ensures FirstWith(entries, columns, term).Some? ==>
      var e := FirstWith(entries, columns, term).value;
      e in entries && HasTerm(e, columns, term)
  {
    if entries != [] {
      FirstWithIff(entries[1..], columns, term);
      assert entries == [entries[0]] + entries[1..];
    }
  }

  lemma UserIsFound(cfg: Config, server: Server, term: string)
    requires PlainMatchColumns(cfg) && Faithful(server, cfg.columns) && SomeUserHas(server, cfg.columns, term)
    ensures exists e | e in Results(cfg, server.search(term)) :: HasTerm(e, cfg.columns, term)
  {
    var found := server.search(term);
    var u :| u in server.users && HasTerm(u, cfg.columns, term);
    var i :| 0 <= i < |found| && found[i] == u;
    ResultHasTerm(cfg, u, term);
    assert Results(cfg, found)[i] in Results(cfg, found);
  }

  lemma FoundIsUser(cfg: Config, server: Server, term: string, e: SR.Fields)
    requires PlainMatchColumns(cfg) && Faithful(server, cfg.columns)
    requires e in Results(cfg, server.search(term)) && HasTerm(e, cfg.columns, term)
    ensures SomeUserHas(server, cfg.columns, term)
  {
    var found := server.search(term);
    var i :| 0 <= i < |found| && Results(cfg, found)[i] == e;
    ResultHasTerm(cfg, found[i], term);
    assert found[i] in found && found[i] in server.users;
  }

  /** The fallback path finds a term exactly when some user has it. */
  lemma FallbackIff(cfg: Config, server: Server, term: string)
    requires PlainMatchColumns(cfg) && Faithful(server, cfg.columns)
    ensures FirstWith(Results(cfg, server.search(term)), cfg.columns, term).Some?
       <==> SomeUserHas(server, cfg.columns, term)
  {
    var entries := Results(cfg, server.search(term));
    FirstWithIff(entries, cfg.columns, term);
    if SomeUserHas(server, cfg.columns, term) {
      UserIsFound(cfg, server, term);
    }
    if e :| e in entries && HasTerm(e, cfg.columns, term) {
      FoundIsUser(cfg, server, term, e);
    }
  }

  lemma HasTermLast(u: SR.Fields, columns: seq<string>, term: string)
    requires columns != []
    ensures HasTerm(u, columns, term)
       <==> HasTerm(u, columns[..|columns| - 1], term) || HasTerm(u, [columns[|columns| - 1]], term)
  {
    var n := |columns| - 1;
    assert forall i | 0 <= i < n :: columns[..n][i] == columns[i];
    if SR.Lookup(u, columns[n]) == Some(term) {
      assert SR.Lookup(u, [columns[n]][0]) == Some(term);
    }
  }

  lemma ColumnShown(cfg: Config, column: string, u: SR.Fields)
    requires PlainMatchColumns(cfg) && column in cfg.columns
    ensures SR.Lookup(SR.Formatted(u, cfg.formatColumns), column) == SR.Lookup(u, column)
  {
    var k :| 0 <= k < |cfg.columns| && cfg.columns[k] == column;
    SR.LaterColumnsKeep(cfg.formatColumns, u, column);
  }

  lemma ListedIsKept(cfg: Config, server: Server, list: string, column: string, term: string)
    requires PlainMatchColumns(cfg) && Faithful(server, cfg.columns) && column in cfg.columns
    requires SomeUserHas(server, [column], term) && term in SplitCommas(list)
    ensures exists e | e in Results(cfg, server.column(column, list)) :: SR.Lookup(e, column) == Some(term)
  {
    var found := server.column(column, list);
    var u :| u in server.users && HasTerm(u, [column], term);
    assert u in found;
    var i :| 0 <= i < |found| && found[i] == u;
    ColumnShown(cfg, column, u);
    assert Results(cfg, found)[i] in Results(cfg, found);
  }

  lemma KeptIsListed(cfg: Config, server: Server, list: string, column: string, term: string, e: SR.Fields)
    requires PlainMatchColumns(cfg) && Faithful(server, cfg.columns) && column in cfg.columns
    requires list == "" ==> term == ""
    requires e in Results(cfg, server.column(column, list)) && SR.Lookup(e, column) == Some(term)
    ensures SomeUserHas(server, [column], term) && term in SplitCommas(list)
  {
    var found := server.column(column, list);
    var i :| 0 <= i < |found| && Results(cfg, found)[i] == e;
    ColumnShown(cfg, column, found[i]);
    assert [column][0] == column;
    assert found[i] in found && HasTerm(found[i], [column], term);
  }

  lemma ColumnIff(cfg: Config, server: Server, list: string, column: string, term: string)
    requires PlainMatchColumns(cfg) && Faithful(server, cfg.columns) && column in cfg.columns
    requires list == "" ==> term == ""
    ensures var last := LastIn(Results(cfg, server.column(column, list)), column, term);
      && (last.Some? <==> SomeUserHas(server, [column], term) && term in SplitCommas(list))
      && (last.Some? ==> HasTerm(last.value, [column], term))
  {
    var entries := Results(cfg, server.column(column, list));
    LastInIff(entries, column, term);
    assert [column][0] == column;
    if SomeUserHas(server, [column], term) && term in SplitCommas(list) {
      ListedIsKept(cfg, server, list, column, term);
    }
    if e :| e in entries && SR.Lookup(e, column) == Some(term) {
      KeptIsListed(cfg, server, list, column, term, e);
    }
  }

  /** The batch path finds a term exactly when some user has it and the server reads it in the list. */
  lemma {:induction false} BatchIff(cfg: Config, server: Server, list: string, columns: seq<string>, term: string)
    requires PlainMatchColumns(cfg) && Faithful(server, cfg.columns)
    requires forall i | 0 <= i < |columns| :: columns[i] in cfg.columns
    requires list == "" ==> term == ""
    ensures WinnerOf(cfg, server, list, columns, term).Some?
       <==> SomeUserHas(server, columns, term) && term in SplitCommas(list)
    ensures WinnerOf(cfg, server, list, columns, term).Some? ==>
      HasTerm(WinnerOf(cfg, server, list, columns, term).value, columns, term)
  {
    if columns != [] {
      var n := |columns| - 1;
      BatchIff(cfg, server, list, columns[..n], term);
      ColumnIff(cfg, server, list, columns[n], term);
      forall u: SR.Fields
        ensures HasTerm(u, columns, term) <==> HasTerm(u, columns[..n], term) || HasTerm(u, [columns[n]], term)
      {
        HasTermLast(u, columns, term);
      }
      assert SomeUserHas(server, columns, term)
        <==> SomeUserHas(server, columns[..n], term) || SomeUserHas(server, [columns[n]], term);
    }
  }

  /** `first_match`, which does not raise. */
  function FirstMatchOf(cfg: Config, server: Server): string -> Search<SR.Fields>
    requires SR.SimpleColumns(cfg.formatColumns)
  {
    t => match FirstWith(Results(cfg, server.search(t)), cfg.columns, t)
      case None => NotFound
      case Some(entry) => Found(entry)
  }

  /** The fallback path is the one-by-one definition. */
  lemma FallbackIsOneByOne(cfg: Config, server: Server, terms: seq<string>)
    requires SR.SimpleColumns(cfg.formatColumns)
    ensures OneByOne(terms, FirstMatchOf(cfg, server)) == Some(Fallback(cfg, server, terms))
  {
    var firstMatch := FirstMatchOf(cfg, server);
    assert forall t | t in terms :: !firstMatch(t).Raised?;
    assert OneByOne(terms, firstMatch).value == Fallback(cfg, server, terms);
  }

  // ---------- The comma-separated list ----------

  lemma {:induction false} SplitHasNoComma(s: string)
    ensures forall t | t in SplitCommas(s) :: ',' !in t
  {
    if s != "" {
      SplitHasNoComma(s[1..]);
      assert SplitCommas(s[1..])[0] in SplitCommas(s[1..]);
    }
  }

  lemma {:induction false} SplitOne(a: string)
    requires ',' !in a
    ensures SplitCommas(a) == [a]
  {
    if a != "" {
      SplitOne(a[1..]);
      assert [a[0]] + a[1..] == a;
    }
  }

  /** A character put before a text goes to its first piece, or is a comma. */
  function Prepend(c: char, pieces: seq<string>): seq<string>
    requires pieces != []
  {
    if c == ',' then [""] + pieces else [[c] + pieces[0]] + pieces[1..]
  }

  lemma PrependConcat(c: char, a: seq<string>, b: seq<string>)
    requires a != []
    ensures Prepend(c, a + b) == Prepend(c, a) + b
  {
    assert (a + b)[1..] == a[1..] + b;
  }

  lemma SplitStep(c: char, s: string)
    ensures SplitCommas(s) != [] && SplitCommas([c] + s) == Prepend(c, SplitCommas(s))
  {
    assert ([c] + s)[1..] == s;
  }

  lemma {:induction false} SplitConcat(a: string, b: string)
    ensures SplitCommas(a + "," + b) == SplitCommas(a) + SplitCommas(b)
  {
    if a == "" {
      assert a + "," + b == [','] + b;
      SplitStep(',', b);
    } else {
      var tail := a[1..];
      SplitConcat(tail, b);
      assert a + "," + b == [a[0]] + (tail + "," + b);
      assert a == [a[0]] + tail;
      SplitStep(a[0], tail + "," + b);
      SplitStep(a[0], tail);
      PrependConcat(a[0], SplitCommas(tail), SplitCommas(b));
    }
  }

  /** The server reads a term in the list exactly when it has no comma. */
  lemma {:induction false} ReadIff(terms: seq<string>, term: string)
    requires term in terms
    ensures term in SplitCommas(JoinCommas(terms)) <==> ',' !in term
    ensures JoinCommas(terms) == "" ==> term == ""
  {
    SplitHasNoComma(JoinCommas(terms));
    if |terms| == 1 {
      if ',' !in term {
        SplitOne(term);
      }
    } else {
      SplitConcat(terms[0], JoinCommas(terms[1..]));
      if ',' !in term {
        if term == terms[0] {
          SplitOne(term);
        } else {
          assert terms == [terms[0]] + terms[1..];
          ReadIff(terms[1..], term);
        }
      }
    }
  }

  /**
   The two paths answer the same terms exactly when no user has an asked term with a comma in a match column.
   Either way each answer carries its term, and the batch never answers more.
   */
  lemma PathsAgree(cfg: Config, server: Server, terms: seq<string>)
    requires PlainMatchColumns(cfg) && Faithful(server, cfg.columns)
    ensures Batch(cfg, server, terms).Keys <= Fallback(cfg, server, terms).Keys
    ensures Batch(cfg, server, terms).Keys == Fallback(cfg, server, terms).Keys
       <==> forall t | t in terms && ',' in t :: !SomeUserHas(server, cfg.columns, t)
    ensures forall t | t in Batch(cfg, server, terms) :: HasTerm(Batch(cfg, server, terms)[t], cfg.columns, t)
    ensures forall t :: t in Fallback(cfg, server, terms) <==> t in terms && SomeUserHas(server, cfg.columns, t)
    ensures forall t | t in Fallback(cfg, server, terms) :: HasTerm(Fallback(cfg, server, terms)[t], cfg.columns, t)
  {
    var batch, fallback := Batch(cfg, server, terms), Fallback(cfg, server, terms);
    forall t | t in terms
      ensures t in fallback <==> SomeUserHas(server, cfg.columns, t)
      ensures t in fallback ==> HasTerm(fallback[t], cfg.columns, t)
      ensures t in batch <==> SomeUserHas(server, cfg.columns, t) && ',' !in t
      ensures t in batch ==> HasTerm(batch[t], cfg.columns, t)
    {
      FallbackIff(cfg, server, t);
      FirstWithIff(Results(cfg, server.search(t)), cfg.columns, t);
      ReadIff(terms, t);
      BatchIff(cfg, server, JoinCommas(terms), cfg.columns, t);
    }
  }

  // ---------- The entry given for a term ----------

  /** The fallback path answers the term with this way of searching, as it does with every faithful one. */
  ghost predicate Finds(cfg: Config, server: Server, terms: seq<string>, t: string, search: string -> seq<SR.Fields>)
    requires SR.SimpleColumns(cfg.formatColumns)
  {
    Faithful(server.(search := search), cfg.columns) && t in Fallback(cfg, server.(search := search), terms)
  }

  /** Whatever users a search answers, and in whatever order, the two paths give the same entry for the term. */
  ghost predicate AlwaysSameEntry(cfg: Config, server: Server, terms: seq<string>, t: string)
    requires PlainMatchColumns(cfg) && t in Batch(cfg, server, terms)
  {
    forall search | Finds(cfg, server, terms, t, search) ::
      Fallback(cfg, server.(search := search), terms)[t] == Batch(cfg, server, terms)[t]
  }

  /** All the users with the term look the same once formatted. */
  ghost predicate LookAlike(cfg: Config, server: Server, t: string)
    requires PlainMatchColumns(cfg)
  {
    forall u, v | u in server.users && v in server.users && HasTerm(u, cfg.columns, t) && HasTerm(v, cfg.columns, t) ::
      SR.Formatted(u, cfg.formatColumns) == SR.Formatted(v, cfg.formatColumns)
  }

  /** The entry of either path is a user with the term, formatted. */
  lemma FallbackComesFrom(cfg: Config, server: Server, terms: seq<string>, t: string) returns (u: SR.Fields)
    requires PlainMatchColumns(cfg) && Faithful(server, cfg.columns) && t in Fallback(cfg, server, terms)
    ensures u in server.users && HasTerm(u, cfg.columns, t)
    ensures Fallback(cfg, server, terms)[t] == SR.Formatted(u, cfg.formatColumns)
  {
    var found := server.search(t);
    var entries := Results(cfg, found);
    FirstWithIff(entries, cfg.columns, t);
    var i :| 0 <= i < |found| && entries[i] == Fallback(cfg, server, terms)[t];
    u := found[i];
    assert u in found;
    ResultHasTerm(cfg, u, t);
  }

  lemma {:induction false} WinnerComesFrom(cfg: Config, server: Server, list: string, columns: seq<string>, t: string)
    returns (u: SR.Fields)
    requires PlainMatchColumns(cfg) && Faithful(server, cfg.columns)
    requires WinnerOf(cfg, server, list, columns, t).Some?
    ensures u in server.users && WinnerOf(cfg, server, list, columns, t) == Some(SR.Formatted(u, cfg.formatColumns))
  {
    var n := |columns| - 1;
    var found := server.column(columns[n], list);
    var entries := Results(cfg, found);
    LastInIff(entries, columns[n], t);
    var here := LastIn(entries, columns[n], t);
    if here.Some? {
      var i :| 0 <= i < |found| && entries[i] == here.value;
      u := found[i];
      assert u in found;
    } else {
      u := WinnerComesFrom(cfg, server, list, columns[..n], t);
    }
  }

  lemma BatchComesFrom(cfg: Config, server: Server, terms: seq<string>, t: string) returns (u: SR.Fields)
    requires PlainMatchColumns(cfg) && Faithful(server, cfg.columns) && t in Batch(cfg, server, terms)
    ensures u in server.users && HasTerm(u, cfg.columns, t)
    ensures Batch(cfg, server, terms)[t] == SR.Formatted(u, cfg.formatColumns)
  {
    u := WinnerComesFrom(cfg, server, JoinCommas(terms), cfg.columns, t);
    PathsAgree(cfg, server, terms);
    ResultHasTerm(cfg, u, t);
  }

  /** A search that puts this user first. */
  function Leading(server: Server, u: SR.Fields): string -> seq<SR.Fields> {
    t => [u] + server.search(t)
  }

  lemma LeadingIsFound(cfg: Config, server: Server, terms: seq<string>, t: string, u: SR.Fields)
    requires PlainMatchColumns(cfg) && Faithful(server, cfg.columns)
    requires t in terms && u in server.users && HasTerm(u, cfg.columns, t)
    ensures var leading := server.(search := Leading(server, u));
      && Faithful(leading, cfg.columns)
      && t in Fallback(cfg, leading, terms) && Fallback(cfg, leading, terms)[t] == SR.Formatted(u, cfg.formatColumns)
  {
    var leading := server.(search := Leading(server, u));
    var entries := Results(cfg, leading.search(t));
    assert entries[0] == SR.Formatted(u, cfg.formatColumns);
    ResultHasTerm(cfg, u, t);
  }

  /**
   The two paths give the same entry for a term, in whatever order the server answers a search, if and only if
   all the users with the term in a match column look the same once formatted.
   */
  lemma SameEntryIff(cfg: Config, server: Server, terms: seq<string>, t: string)
    requires PlainMatchColumns(cfg) && Faithful(server, cfg.columns) && t in Batch(cfg, server, terms)
    ensures AlwaysSameEntry(cfg, server, terms, t) <==> LookAlike(cfg, server, t)
  {
    var w := BatchComesFrom(cfg, server, terms, t);
    if LookAlike(cfg, server, t) {
      forall search | Finds(cfg, server, terms, t, search)
        ensures Fallback(cfg, server.(search := search), terms)[t] == Batch(cfg, server, terms)[t]
      {
        var u := FallbackComesFrom(cfg, server.(search := search), terms, t);
      }
    }
    if AlwaysSameEntry(cfg, server, terms, t) {
      forall u | u in server.users && HasTerm(u, cfg.columns, t)
        ensures SR.Formatted(u, cfg.formatColumns) == SR.Formatted(w, cfg.formatColumns)
      {
        LeadingIsFound(cfg, server, terms, t, u);
        assert Finds(cfg, server, terms, t, Leading(server, u));
      }
    }
  }
}
