/**
 What the filters of an LDAP source select (section 4.5.1.7 of RFC 4511), and batch
 matching of extensions by one search.

 Entries have one value per attribute, compared octet by octet.  How the server judges
 approximate, ordering and extensible matches is a parameter.
 */
module LdapMatch {
  import opened Wrappers
  import opened Rfc4515
  import opened LdapConfig
  import Id = LdapUniqueId
  import SR = SourceResult
  import opened LastWins

  type Entry = map<string, string>

  datatype Truth = True | False | Undefined

  type Rules = (Op, string, string, Entry) -> Truth

  // ---------- Evaluation ----------

  function AndTruth(a: Truth, b: Truth): Truth {
    if a == False || b == False then False
    else if a == True && b == True then True
    else Undefined
  }

  function NotTruth(a: Truth): Truth {
    match a case True => False case False => True case Undefined => Undefined
  }

  function OrTruth(a: Truth, b: Truth): Truth {
    NotTruth(AndTruth(NotTruth(a), NotTruth(b)))
  }

  function FromBool(b: bool): Truth {
    if b then True else False
  }

  predicate OccursAt(v: string, text: string, k: nat) {
    k + |text| <= |v| && v[k..k + |text|] == text
  }

  /** The pieces in order, without overlap, and then the final piece as a suffix. */
  predicate MatchesRest(v: string, middle: seq<string>, final: string)
    decreases middle
  {
    if middle == [] then |final| <= |v| && v[|v| - |final|..] == final
    else exists k | 0 <= k <= |v| ::
      OccursAt(v, middle[0], k) && MatchesRest(v[k + |middle[0]|..], middle[1..], final)
  }

  predicate MatchesSubstring(v: string, initial: string, middle: seq<string>, final: string) {
    initial <= v && MatchesRest(v[|initial|..], middle, final)
  }

  function Eval(f: Filter, e: Entry, rules: Rules): Truth
    decreases f, 1
  {
    match f
    case And(parts) => EvalAll(parts, e, rules)
    case Or(parts) => EvalAny(parts, e, rules)
    case Not(p) => NotTruth(Eval(p, e, rules))
    case Compare(op, attr, v) =>
      if op == Equal then FromBool(attr in e && e[attr] == v) else rules(op, attr, v, e)
    case Present(attr) => FromBool(attr in e)
    case Substring(attr, i, m, x) => FromBool(attr in e && MatchesSubstring(e[attr], i, m, x))
  }

  function EvalAll(fs: seq<Filter>, e: Entry, rules: Rules): Truth
    decreases fs, 0
  {
    if fs == [] then True else AndTruth(Eval(fs[0], e, rules), EvalAll(fs[1..], e, rules))
  }

  function EvalAny(fs: seq<Filter>, e: Entry, rules: Rules): Truth
    decreases fs, 0
  {
    if fs == [] then False else OrTruth(Eval(fs[0], e, rules), EvalAny(fs[1..], e, rules))
  }

  predicate Satisfies(f: Filter, e: Entry, rules: Rules) {
    Eval(f, e, rules) == True
  }

  /** A bare test that an empty term turned into a presence test selects the same entries. */
  lemma {:induction false} CanonicalEval(f: Filter, e: Entry, rules: Rules)
    ensures Eval(Canonical(f), e, rules) == Eval(f, e, rules)
    decreases f, 1
  {
    if f.And? || f.Or? {
      CanonicalEvalAll(f.parts, e, rules);
    } else if f.Not? {
      CanonicalEval(f.part, e, rules);
    }
  }

  lemma {:induction false} CanonicalEvalAll(fs: seq<Filter>, e: Entry, rules: Rules)
    ensures EvalAll(CanonicalAll(fs), e, rules) == EvalAll(fs, e, rules)
    ensures EvalAny(CanonicalAll(fs), e, rules) == EvalAny(fs, e, rules)
    decreases fs, 0
  {
    if fs != [] {
      CanonicalEval(fs[0], e, rules);
      CanonicalEvalAll(fs[1..], e, rules);
    }
  }

  lemma {:induction false} AnySatisfied(fs: seq<Filter>, e: Entry, rules: Rules)
    ensures EvalAny(fs, e, rules) == True <==> exists f | f in fs :: Satisfies(f, e, rules)
  {
    if fs != [] {
      AnySatisfied(fs[1..], e, rules);
      assert forall f :: f in fs <==> f == fs[0] || f in fs[1..];
      if Satisfies(fs[0], e, rules) {
        assert fs[0] in fs;
      }
    }
  }

  lemma OrOfSatisfied(fs: seq<Filter>, e: Entry, rules: Rules)
    ensures Satisfies(OrOf(fs), e, rules) <==> exists f | f in fs :: Satisfies(f, e, rules)
  {
    AnySatisfied(fs, e, rules);
  }

  lemma {:induction false} AllSatisfied(fs: seq<Filter>, e: Entry, rules: Rules)
    ensures Satisfies(And(fs), e, rules) <==> forall f | f in fs :: Satisfies(f, e, rules)
  {
    assert Eval(And(fs), e, rules) == EvalAll(fs, e, rules);
    if fs != [] {
      AllSatisfied(fs[1..], e, rules);
      assert Eval(And(fs[1..]), e, rules) == EvalAll(fs[1..], e, rules);
      assert fs[0] in fs && forall f :: f in fs <==> f == fs[0] || f in fs[1..];
    }
  }

  /** The text of a substring test after its initial piece, with these texts in place of its asterisks. */
  function FilledIn(gaps: seq<string>, middle: seq<string>, final: string): string
    requires |gaps| == |middle| + 1
    decreases middle
  {
    if middle == [] then gaps[0] + final else gaps[0] + middle[0] + FilledIn(gaps[1..], middle[1..], final)
  }

  lemma {:induction false} RestFillsIn(v: string, middle: seq<string>, final: string) returns (gaps: seq<string>)
    requires MatchesRest(v, middle, final)
    ensures |gaps| == |middle| + 1 && v == FilledIn(gaps, middle, final)
    decreases middle
  {
    if middle == [] {
      gaps := [v[..|v| - |final|]];
    } else {
      var k: nat :| k <= |v| && OccursAt(v, middle[0], k) && MatchesRest(v[k + |middle[0]|..], middle[1..], final);
      var rest := RestFillsIn(v[k + |middle[0]|..], middle[1..], final);
      gaps := [v[..k]] + rest;
      assert gaps[1..] == rest;
      assert v == v[..k] + v[k..k + |middle[0]|] + v[k + |middle[0]|..];
    }
  }

  lemma {:induction false} FilledInMatches(gaps: seq<string>, middle: seq<string>, final: string)
    requires |gaps| == |middle| + 1
    ensures MatchesRest(FilledIn(gaps, middle, final), middle, final)
    decreases middle
  {
    if middle != [] {
      FilledInMatches(gaps[1..], middle[1..], final);
      var rest := FilledIn(gaps[1..], middle[1..], final);
      var v := gaps[0] + middle[0] + rest;
      var k := |gaps[0]|;
      assert v[k + |middle[0]|..] == rest && OccursAt(v, middle[0], k);
    }
  }

  /** A value matches a substring test exactly when it is the text of the test with some texts for its asterisks. */
  lemma SubstringIff(v: string, initial: string, middle: seq<string>, final: string)
    ensures MatchesSubstring(v, initial, middle, final)
       <==> exists gaps: seq<string> | |gaps| == |middle| + 1 :: v == initial + FilledIn(gaps, middle, final)
  {
    if MatchesSubstring(v, initial, middle, final) {
      var gaps := RestFillsIn(v[|initial|..], middle, final);
      assert v == initial + v[|initial|..];
    }
    if gaps: seq<string> :| |gaps| == |middle| + 1 && v == initial + FilledIn(gaps, middle, final) {
      FilledInMatches(gaps, middle, final);
      assert v[|initial|..] == FilledIn(gaps, middle, final);
    }
  }

  // ---------- What search and first-match filters select ----------

  predicate Contains(v: string, term: string) {
    exists k | 0 <= k <= |v| :: OccursAt(v, term, k)
  }

  lemma SearchTestSatisfied(column: string, term: string, e: Entry, rules: Rules)
    ensures Satisfies(Substring(column, "", [term], ""), e, rules)
       <==> column in e && Contains(e[column], term)
  {
    if column in e {
      var v := e[column];
      assert v[|""|..] == v && [term][1..] == [];
      assert forall rest: string :: MatchesRest(rest, [], "");
      var middle := [term];
      if k: nat :| k <= |v| && OccursAt(v, term, k) {
        assert OccursAt(v, middle[0], k) && MatchesRest(v[k + |middle[0]|..], middle[1..], "");
      }
      if MatchesRest(v, middle, "") {
        var k :| 0 <= k <= |v| && OccursAt(v, middle[0], k) && MatchesRest(v[k + |middle[0]|..], middle[1..], "");
        assert OccursAt(v, term, k);
      }
    }
  }

  lemma {:induction false} SearchTestsSatisfied(columns: seq<string>, term: string, e: Entry, rules: Rules)
    ensures (exists f | f in SearchTests(columns, term) :: Satisfies(f, e, rules))
       <==> (exists c | c in columns :: c in e && Contains(e[c], term))
  {
    if columns != [] {
      SearchTestsSatisfied(columns[1..], term, e, rules);
      SearchTestSatisfied(columns[0], term, e, rules);
      assert forall c :: c in columns <==> c == columns[0] || c in columns[1..];
      var tests := SearchTests(columns, term);
      assert forall f :: f in tests <==> f == tests[0] || f in SearchTests(columns[1..], term);
      if Satisfies(tests[0], e, rules) {
        assert tests[0] in tests && columns[0] in columns;
      }
    }
  }

  predicate HasValue(columns: seq<string>, term: string, e: Entry) {
    exists c | c in columns :: c in e && e[c] == term
  }

  lemma {:induction false} ExactTestsSatisfied(columns: seq<string>, term: string, e: Entry, rules: Rules)
    ensures (exists f | f in ExactTests(columns, term) :: Satisfies(f, e, rules))
       <==> HasValue(columns, term, e)
  {
    if columns != [] {
      ExactTestsSatisfied(columns[1..], term, e, rules);
      assert forall c :: c in columns <==> c == columns[0] || c in columns[1..];
      var tests := ExactTests(columns, term);
      assert forall f :: f in tests <==> f == tests[0] || f in ExactTests(columns[1..], term);
      if Satisfies(tests[0], e, rules) {
        assert tests[0] in tests && columns[0] in columns;
      }
    }
  }

  predicate CustomSatisfied(cfg: Config, term: string, e: Entry, rules: Rules)
    requires WellFormedConfig(cfg)
  {
    HasCustomFilter(cfg) ==> Satisfies(CustomTree(cfg, term), e, rules)
  }

  lemma TreeSatisfied(cfg: Config, tests: seq<Filter>, term: string, e: Entry, rules: Rules)
    requires WellFormedConfig(cfg) && Tree(cfg, tests, term).Some?
    ensures Satisfies(Tree(cfg, tests, term).value, e, rules)
       <==> CustomSatisfied(cfg, term, e, rules)
            && (tests != [] ==> exists f | f in tests :: Satisfies(f, e, rules))
  {
    OrOfSatisfied(tests, e, rules);
    if HasCustomFilter(cfg) && tests != [] {
      var fs := [CustomTree(cfg, term), OrOf(tests)];
      assert fs[1..] == [OrOf(tests)] && fs[1..][1..] == [];
      var or := OrOf(tests);
      assert EvalAll([or], e, rules) == AndTruth(Eval(or, e, rules), True);
      assert EvalAll(fs, e, rules) == AndTruth(Eval(fs[0], e, rules), EvalAll([or], e, rules));
    }
  }

  /** A custom filter is configured and not empty. */
  predicate IsGiven(customFilter: Option<string>) {
    customFilter.Some? && customFilter.value != ""
  }

  /** When a custom filter is given, the entry satisfies it as read with the escaped term in place of `%Q`. */
  predicate CustomHolds(cfg: Config, term: string, e: Entry, rules: Rules) {
    IsGiven(cfg.customFilter) ==>
      var meaning := Meaning(ReplaceQ(cfg.customFilter.value, Escape(term)));
      meaning.Some? && Satisfies(meaning.value, e, rules)
  }

  lemma CustomIff(cfg: Config, term: string, e: Entry, rules: Rules)
    requires WellFormedConfig(cfg)
    ensures CustomSatisfied(cfg, term, e, rules) <==> CustomHolds(cfg, term, e, rules)
  {
    if HasCustomFilter(cfg) {
      SubstitutionDenotesSplice(cfg.customFilter.value, term);
    }
  }

  /**
   A source with a custom filter or a searched column has a search filter.  An entry satisfies it exactly when
   it satisfies the filled custom filter, if one is given, and the raw term occurs in a searched column, if any.
   */
  lemma SearchFilterSelects(cfg: Config, term: string, e: Entry, rules: Rules)
    requires WellFormedConfig(cfg) && (IsGiven(cfg.customFilter) || cfg.searchedColumns != [])
    ensures var text := BuildSearchFilter(cfg, term);
            && text.Some? && Meaning(text.value).Some?
            && (Satisfies(Meaning(text.value).value, e, rules)
                <==> CustomHolds(cfg, term, e, rules)
                     && (cfg.searchedColumns != [] ==>
                           exists c | c in cfg.searchedColumns :: c in e && Contains(e[c], term)))
  {
    SearchFilterDenotes(cfg, term);
    var tests := SearchTests(cfg.searchedColumns, term);
    TreeSatisfied(cfg, tests, term, e, rules);
    SearchTestsSatisfied(cfg.searchedColumns, term, e, rules);
    CustomIff(cfg, term, e, rules);
  }

  /** The same for the first-match filter and columns that hold exactly the raw term; there is none without either. */
  lemma FirstMatchFilterSelects(cfg: Config, term: string, e: Entry, rules: Rules)
    requires WellFormedConfig(cfg)
    ensures var text := BuildFirstMatchFilter(cfg, term);
            && (text.Some? <==> IsGiven(cfg.customFilter) || cfg.firstMatchedColumns != [])
            && (text.Some? ==> Meaning(text.value).Some?)
            && (text.Some? ==>
                  (Satisfies(Meaning(text.value).value, e, rules)
                   <==> CustomHolds(cfg, term, e, rules)
                        && (cfg.firstMatchedColumns != [] ==>
                              exists c | c in cfg.firstMatchedColumns :: c in e && e[c] == term)))
  {
    FirstMatchFilterDenotes(cfg, term);
    var tests := ExactTests(cfg.firstMatchedColumns, term);
    if FirstMatchTree(cfg, term).Some? {
      TreeSatisfied(cfg, tests, term, e, rules);
      ExactTestsSatisfied(cfg.firstMatchedColumns, term, e, rules);
      CustomIff(cfg, term, e, rules);
    }
  }

  lemma FirstMatchTreeSelects(cfg: Config, term: string, e: Entry, rules: Rules)
    requires WellFormedConfig(cfg) && cfg.firstMatchedColumns != []
    ensures FirstMatchTree(cfg, term).Some?
    ensures Satisfies(FirstMatchTree(cfg, term).value, e, rules)
       <==> CustomSatisfied(cfg, term, e, rules) && HasValue(cfg.firstMatchedColumns, term, e)
  {
    TreeSatisfied(cfg, ExactTests(cfg.firstMatchedColumns, term), term, e, rules);
    ExactTestsSatisfied(cfg.firstMatchedColumns, term, e, rules);
  }

  // ---------- Listing by identifiers ----------

  lemma {:induction false} UniqueTestsSatisfied(column: string, values: seq<string>, e: Entry, rules: Rules)
    ensures (exists f | f in Id.UniqueTests(column, values) :: Satisfies(f, e, rules))
       <==> column in e && e[column] in values
  {
    if values != [] {
      UniqueTestsSatisfied(column, values[1..], e, rules);
      var tests := Id.UniqueTests(column, values);
      assert values == [values[0]] + values[1..];
      assert forall f :: f in tests <==> f == tests[0] || f in Id.UniqueTests(column, values[1..]);
      assert Satisfies(tests[0], e, rules) <==> column in e && e[column] == values[0];
      assert tests[0] in tests;
    }
  }

  /** The list filter of binary identifiers selects exactly the entries with one of them in the unique column. */
  lemma BinaryListSelects(cfg: Config, uids: seq<string>, ids: seq<string>, e: Entry, rules: Rules)
    requires cfg.binaryUuid && cfg.uniqueColumn.Some? && WellFormedAttr(Equal, cfg.uniqueColumn.value)
    requires uids != [] && |uids| == |ids|
    requires forall i | 0 <= i < |uids| :: Id.ParseUuid(uids[i]) == Some(ids[i])
    ensures var list, column := Id.BuildListFilter(cfg, uids), cfg.uniqueColumn.value;
      list.ListFilter? && Meaning(list.text).Some?
      && (Satisfies(Meaning(list.text).value, e, rules) <==> column in e && e[column] in ids)
  {
    Id.BinaryListFilterDenotes(cfg, uids, ids);
    OrOfSatisfied(Id.UniqueTests(cfg.uniqueColumn.value, ids), e, rules);
    UniqueTestsSatisfied(cfg.uniqueColumn.value, ids, e, rules);
  }

  /** That of textual identifiers without special characters selects the entries with one of those texts. */
  lemma TextListSelects(cfg: Config, uids: seq<string>, e: Entry, rules: Rules)
    requires !cfg.binaryUuid && cfg.uniqueColumn.Some? && WellFormedAttr(Equal, cfg.uniqueColumn.value)
    requires uids != [] && forall u | u in uids :: Id.AllNormal(u)
    ensures var list, column := Id.BuildListFilter(cfg, uids), cfg.uniqueColumn.value;
      list.ListFilter? && Meaning(list.text).Some?
      && (Satisfies(Meaning(list.text).value, e, rules) <==> column in e && e[column] in uids)
  {
    Id.TextListDenotesItself(cfg, uids);
    OrOfSatisfied(Id.UniqueTests(cfg.uniqueColumn.value, uids), e, rules);
    UniqueTestsSatisfied(cfg.uniqueColumn.value, uids, e, rules);
  }

  // ---------- Matching a batch of extensions ----------

  datatype RawResult = Found(attrs: Entry) | Referral

  /** What formatting needs: simple templates, and 16 octets in a binary unique column. */
  predicate Formattable(cfg: Config, attrs: Entry) {
    && (cfg.formatColumns.Some? ==> SR.SimpleColumns(cfg.formatColumns.value))
    && (cfg.binaryUuid && cfg.uniqueColumn.Some? && cfg.uniqueColumn.value in attrs
        ==> Id.IsBinaryUuid(attrs[cfg.uniqueColumn.value]))
  }

  /** The fields of `format_one_result` before the format columns are added. */
  function RawFields(cfg: Config, attrs: Entry): SR.Fields
    requires Formattable(cfg, attrs)
  {
    map n | n in attrs ::
      Some(if cfg.binaryUuid && cfg.uniqueColumn == Some(n) then Id.CanonicalText(attrs[n]) else attrs[n])
  }

  function FormatOneResult(cfg: Config, attrs: Entry): SR.Fields
    requires Formattable(cfg, attrs)
  {
    var fields := RawFields(cfg, attrs);
    if cfg.formatColumns.Some? then SR.Formatted(fields, cfg.formatColumns.value) else fields
  }

  predicate AllFormattable(cfg: Config, raw: seq<RawResult>) {
    forall i | 0 <= i < |raw| :: raw[i].Found? ==> Formattable(cfg, raw[i].attrs)
  }

  function FormatAll(cfg: Config, raw: seq<RawResult>): seq<SR.Fields>
    requires AllFormattable(cfg, raw)
  {
    if raw == [] then []
    else (if raw[0].Found? then [FormatOneResult(cfg, raw[0].attrs)] else []) + FormatAll(cfg, raw[1..])
  }

  /** The entry a batch keeps for a term: later columns win, and within a column later entries. */
  function Winner(columns: seq<string>, entries: seq<SR.Fields>, term: string): Option<SR.Fields> {
    if columns == [] then None
    else
      var here := LastIn(entries, columns[|columns| - 1], term);
      if here.Some? then here else Winner(columns[..|columns| - 1], entries, term)
  }

  /** What `match_all` answers: the winner of each asked extension that has one. */
  ghost predicate KeepsWinners(cfg: Config, extens: seq<string>, raw: seq<RawResult>, results: map<string, SR.Fields>)
    requires AllFormattable(cfg, raw)
  {
    && (forall t :: t in results <==> t in extens && Winner(cfg.firstMatchedColumns, FormatAll(cfg, raw), t).Some?)
    && (forall t | t in results :: Winner(cfg.firstMatchedColumns, FormatAll(cfg, raw), t) == Some(results[t]))
  }

  /** The entry at `j` is the last to show the term in the column at `i`, and no later column shows it. */
  predicate IsLastShown(columns: seq<string>, entries: seq<SR.Fields>, term: string, i: nat, j: nat) {
    && i < |columns| && IsLastIn(entries, columns[i], term, j)
    && forall k | i < k < |columns| :: !ShownIn(entries, columns[k], term)
  }

  predicate IsShown(columns: seq<string>, entries: seq<SR.Fields>, term: string) {
    exists k | 0 <= k < |columns| :: ShownIn(entries, columns[k], term)
  }

  /** The winner is the last entry of the last column that shows the term. */
  lemma {:induction false} WinnerIs(columns: seq<string>, entries: seq<SR.Fields>, term: string)
    ensures Winner(columns, entries, term).Some? <==> IsShown(columns, entries, term)
    ensures forall i: nat, j: nat | IsLastShown(columns, entries, term, i, j) ::
      Winner(columns, entries, term) == Some(entries[j])
  {
    if columns != [] {
      var n := |columns| - 1;
      var init := columns[..n];
      WinnerIs(init, entries, term);
      LastInIs(entries, columns[n], term);
      assert forall k | 0 <= k < n :: init[k] == columns[k];
      forall i: nat, j: nat | IsLastShown(columns, entries, term, i, j)
        ensures Winner(columns, entries, term) == Some(entries[j])
      {
        if i < n {
          assert !ShownIn(entries, columns[n], term) && IsLastShown(init, entries, term, i, j);
        }
      }
      if IsShown(init, entries, term) {
        var k :| 0 <= k < n && ShownIn(entries, init[k], term);
        assert ShownIn(entries, columns[k], term);
      }
    }
  }

  /** What `match_all` answers, by positions: an asked term shown in a match column, with the last such entry. */
  ghost predicate KeepsLast(columns: seq<string>, extens: seq<string>, entries: seq<SR.Fields>,
                            results: map<string, SR.Fields>) {
    && (forall t :: t in results <==> t in extens && IsShown(columns, entries, t))
    && (forall t, i: nat, j: nat | t in results && IsLastShown(columns, entries, t, i, j) :: results[t] == entries[j])
  }

  lemma WinnersAreLast(cfg: Config, extens: seq<string>, raw: seq<RawResult>, results: map<string, SR.Fields>)
    requires AllFormattable(cfg, raw) && KeepsWinners(cfg, extens, raw, results)
    ensures KeepsLast(cfg.firstMatchedColumns, extens, FormatAll(cfg, raw), results)
  {
    var columns, entries := cfg.firstMatchedColumns, FormatAll(cfg, raw);
    forall t: string
      ensures Winner(columns, entries, t).Some? <==> IsShown(columns, entries, t)
      ensures forall i: nat, j: nat | IsLastShown(columns, entries, t, i, j) ::
        Winner(columns, entries, t) == Some(entries[j])
    {
      WinnerIs(columns, entries, t);
    }
  }

  lemma FourInARow<T>(a: seq<T>, b: seq<T>, c: seq<T>, d: seq<T>)
    ensures a + (b + c + d) == (a + b) + c + d
  {
  }

  /** Referrals are dropped, and every other result is formatted, in its order. */
  lemma {:induction false} FormatAllInOrder(cfg: Config, before: seq<RawResult>, result: RawResult,
                                            after: seq<RawResult>)
    requires AllFormattable(cfg, before + [result] + after)
    ensures AllFormattable(cfg, before) && AllFormattable(cfg, after)
    ensures result.Found? ==> Formattable(cfg, result.attrs)
    ensures FormatAll(cfg, before + [result] + after)
         == FormatAll(cfg, before) + (if result.Found? then [FormatOneResult(cfg, result.attrs)] else [])
            + FormatAll(cfg, after)
  {
    var raw := before + [result] + after;
    assert forall i | 0 <= i < |before| :: before[i] == raw[i];
    assert forall i | 0 <= i < |after| :: after[i] == raw[|before| + 1 + i];
    assert result == raw[|before|];
    if before == [] {
      assert raw[1..] == after;
    } else {
      assert raw[1..] == before[1..] + [result] + after;
      FormatAllInOrder(cfg, before[1..], result, after);
      var first := if raw[0].Found? then [FormatOneResult(cfg, raw[0].attrs)] else [];
      var here := if result.Found? then [FormatOneResult(cfg, result.attrs)] else [];
      FourInARow(first, FormatAll(cfg, before[1..]), here, FormatAll(cfg, after));
    }
  }

  method MatchAll(cfg: Config, extens: seq<string>, raw: seq<RawResult>) returns (results: map<string, SR.Fields>)
    requires AllFormattable(cfg, raw)
    ensures KeepsWinners(cfg, extens, raw, results)
    ensures KeepsLast(cfg.firstMatchedColumns, extens, FormatAll(cfg, raw), results)
  {
    results := map[];
    var columns := cfg.firstMatchedColumns;
    var entries := FormatAll(cfg, raw);
    for i := 0 to |columns|
      invariant forall t :: t in results <==> t in extens && Winner(columns[..i], entries, t).Some?
      invariant forall t | t in results :: Winner(columns[..i], entries, t) == Some(results[t])
    {
      assert columns[..i + 1][..i] == columns[..i];
      results := AbsorbColumn(results, extens, entries, columns[i]);
    }
    assert columns[..|columns|] == columns;
    WinnersAreLast(cfg, extens, raw, results);
  }

  // ---------- The batch agrees with the filters ----------

  function Asked(cfg: Config, e: Entry): Entry {
    match SR.Attributes(cfg.formatColumns, cfg.uniqueColumn)
    case None => e
    case Some(names) => map n | n in e && n in names :: e[n]
  }

  /** The server's answer: exactly the selected entries, cut to the attributes asked for. */
  ghost predicate Answers(raw: seq<RawResult>, cfg: Config, directory: seq<Entry>, filter: Filter, rules: Rules) {
    && (forall i | 0 <= i < |raw| :: raw[i].Found? ==>
          exists e | e in directory :: Satisfies(filter, e, rules) && raw[i].attrs == Asked(cfg, e))
    && (forall e | e in directory :: Satisfies(filter, e, rules) ==> Found(Asked(cfg, e)) in raw)
  }

  /** Match columns that are fetched and shown as they are. */
  predicate PlainMatchColumn(cfg: Config, column: string) {
    && (match SR.Attributes(cfg.formatColumns, cfg.uniqueColumn) case None => true case Some(names) => column in names)
    && (cfg.formatColumns.Some? ==>
          forall i | 0 <= i < |cfg.formatColumns.value| :: cfg.formatColumns.value[i].0 != column)
    && (cfg.binaryUuid ==> cfg.uniqueColumn != Some(column))
  }

  ghost predicate BatchSetting(cfg: Config, directory: seq<Entry>) {
    && WellFormedConfig(cfg)
    && cfg.firstMatchedColumns != []
    && (forall c | c in cfg.firstMatchedColumns :: PlainMatchColumn(cfg, c))
    && (forall e | e in directory :: Formattable(cfg, e))
  }

  lemma SameCustomTree(cfg: Config, a: string, b: string)
    requires WellFormedConfig(cfg) && HasCustomFilter(cfg) && NoQ(cfg.customFilter.value)
    ensures CustomTree(cfg, a) == CustomTree(cfg, b)
  {
    var template := cfg.customFilter.value;
    SubstitutionDenotesSplice(template, a);
    SubstitutionDenotesSplice(template, b);
    ReplaceNoQ(template, Escape(a));
    ReplaceNoQ(template, Escape(b));
  }

  lemma {:induction false} FirstMatchTreesOf(cfg: Config, terms: seq<string>)
    requires WellFormedConfig(cfg) && cfg.firstMatchedColumns != []
    ensures forall f :: f in FirstMatchTrees(cfg, terms) <==> exists t | t in terms :: FirstMatchTree(cfg, t) == Some(f)
  {
    if terms != [] {
      FirstMatchTreesOf(cfg, terms[1..]);
      assert terms == [terms[0]] + terms[1..];
    }
  }

  /** An entry is selected by the batch filter when one of the terms' own filters selects it. */
  lemma BatchFilterSelects(cfg: Config, extens: seq<string>, e: Entry, rules: Rules)
    requires WellFormedConfig(cfg) && cfg.firstMatchedColumns != []
    ensures Meaning(BuildMatchAllFilter(cfg, extens)).Some?
    ensures Satisfies(Meaning(BuildMatchAllFilter(cfg, extens)).value, e, rules)
       <==> exists t | t in extens :: CustomSatisfied(cfg, t, e, rules) && HasValue(cfg.firstMatchedColumns, t, e)
  {
    MatchAllFilterDenotes(cfg, extens);
    var trees := FirstMatchTrees(cfg, extens);
    OrOfSatisfied(trees, e, rules);
    FirstMatchTreesOf(cfg, extens);
    forall t ensures FirstMatchTree(cfg, t).Some?
      && (Satisfies(FirstMatchTree(cfg, t).value, e, rules)
          <==> CustomSatisfied(cfg, t, e, rules) && HasValue(cfg.firstMatchedColumns, t, e))
    {
      FirstMatchTreeSelects(cfg, t, e, rules);
    }
    if exists t | t in extens :: CustomSatisfied(cfg, t, e, rules) && HasValue(cfg.firstMatchedColumns, t, e) {
      var t :| t in extens && CustomSatisfied(cfg, t, e, rules) && HasValue(cfg.firstMatchedColumns, t, e);
      assert FirstMatchTree(cfg, t).value in trees;
    }
  }

  /** A plain match column shows the entry's own value. */
  lemma ColumnShown(cfg: Config, e: Entry, column: string)
    requires Formattable(cfg, e) && PlainMatchColumn(cfg, column)
    ensures Formattable(cfg, Asked(cfg, e))
    ensures SR.Lookup(FormatOneResult(cfg, Asked(cfg, e)), column)
         == (if column in e then Some(e[column]) else None)
  {
    var fields := RawFields(cfg, Asked(cfg, e));
    if cfg.formatColumns.Some? {
      SR.LaterColumnsKeep(cfg.formatColumns.value, fields, column);
    }
  }

  /** A binary unique column shows the canonical text of its octets, unless a format column overwrites it. */
  lemma UniqueColumnShown(cfg: Config, attrs: Entry, column: string)
    requires Formattable(cfg, attrs) && cfg.binaryUuid && cfg.uniqueColumn == Some(column) && column in attrs
    requires cfg.formatColumns.Some? ==>
      forall i | 0 <= i < |cfg.formatColumns.value| :: cfg.formatColumns.value[i].0 != column
    ensures Id.IsBinaryUuid(attrs[column])
    ensures SR.Lookup(FormatOneResult(cfg, attrs), column) == Some(Id.CanonicalText(attrs[column]))
  {
    if cfg.formatColumns.Some? {
      SR.LaterColumnsKeep(cfg.formatColumns.value, RawFields(cfg, attrs), column);
    }
  }

  /** The attributes as texts; a binary unique column as canonical text. */
  predicate IsDecoded(cfg: Config, attrs: Entry, fields: SR.Fields) {
    && fields.Keys == attrs.Keys
    && (forall n | n in attrs && !(cfg.binaryUuid && cfg.uniqueColumn == Some(n)) :: fields[n] == Some(attrs[n]))
    && (forall n | n in attrs && cfg.binaryUuid && cfg.uniqueColumn == Some(n) ::
          Id.IsBinaryUuid(attrs[n]) && fields[n] == Some(Id.CanonicalText(attrs[n])))
  }

  ghost predicate AddsColumns(cfg: Config, fields: SR.Fields, result: SR.Fields) {
    if cfg.formatColumns.Some? then SR.FormatsTo(fields, cfg.formatColumns.value, result) else result == fields
  }

  /** The format columns are added in turn to the decoded attributes. */
  lemma FormatColumnsShown(cfg: Config, attrs: Entry)
    requires Formattable(cfg, attrs)
    ensures exists fields :: IsDecoded(cfg, attrs, fields) && AddsColumns(cfg, fields, FormatOneResult(cfg, attrs))
  {
    var fields := RawFields(cfg, attrs);
    if cfg.formatColumns.Some? {
      SR.FormattedInTurn(fields, cfg.formatColumns.value);
    }
    assert IsDecoded(cfg, attrs, fields) && AddsColumns(cfg, fields, FormatOneResult(cfg, attrs));
  }

  lemma {:induction false} FormatAllMembers(cfg: Config, raw: seq<RawResult>)
    requires AllFormattable(cfg, raw)
    ensures forall r | r in raw && r.Found? ::
      Formattable(cfg, r.attrs) && FormatOneResult(cfg, r.attrs) in FormatAll(cfg, raw)
    ensures forall x | x in FormatAll(cfg, raw) ::
              exists i | 0 <= i < |raw| :: raw[i].Found? && x == FormatOneResult(cfg, raw[i].attrs)
  {
    if raw != [] {
      FormatAllMembers(cfg, raw[1..]);
      assert raw == [raw[0]] + raw[1..];
      forall x | x in FormatAll(cfg, raw)
        ensures exists i | 0 <= i < |raw| :: raw[i].Found? && x == FormatOneResult(cfg, raw[i].attrs)
      {
        if x in FormatAll(cfg, raw[1..]) {
          var i :| 0 <= i < |raw[1..]| && raw[1..][i].Found? && x == FormatOneResult(cfg, raw[1..][i].attrs);
          assert raw[i + 1] == raw[1..][i];
        } else {
          assert raw[0].Found?;
        }
      }
    }
  }

  lemma {:induction false} WinnerIff(columns: seq<string>, entries: seq<SR.Fields>, term: string)
    ensures Winner(columns, entries, term).Some?
       <==> exists c, x | c in columns && x in entries :: SR.Lookup(x, c) == Some(term)
    ensures Winner(columns, entries, term).Some? ==>
              var x := Winner(columns, entries, term).value;
              x in entries && exists c | c in columns :: SR.Lookup(x, c) == Some(term)
  {
    if columns != [] {
      var last, init := columns[|columns| - 1], columns[..|columns| - 1];
      LastInIff(entries, last, term);
      WinnerIff(init, entries, term);
      assert columns == init + [last];
    }
  }

  /** The entry shows the extension in a match column, and the filter of some asked extension selects it. */
  ghost predicate Reaches(cfg: Config, extens: seq<string>, exten: string, e: Entry, rules: Rules)
    requires WellFormedConfig(cfg)
  {
    && HasValue(cfg.firstMatchedColumns, exten, e)
    && exists t | t in extens :: CustomSatisfied(cfg, t, e, rules) && HasValue(cfg.firstMatchedColumns, t, e)
  }

  lemma AnswersFormattable(cfg: Config, directory: seq<Entry>, extens: seq<string>, raw: seq<RawResult>, rules: Rules)
    requires BatchSetting(cfg, directory) && Meaning(BuildMatchAllFilter(cfg, extens)).Some?
    requires Answers(raw, cfg, directory, Meaning(BuildMatchAllFilter(cfg, extens)).value, rules)
    ensures AllFormattable(cfg, raw)
  {
    forall e | e in directory ensures Formattable(cfg, Asked(cfg, e)) {
      ColumnShown(cfg, e, cfg.firstMatchedColumns[0]);
    }
  }

  lemma KeptIsReached(cfg: Config, directory: seq<Entry>, raw: seq<RawResult>, extens: seq<string>,
                      exten: string, i: nat, c: string, rules: Rules) returns (e: Entry)
    requires BatchSetting(cfg, directory) && AllFormattable(cfg, raw)
    requires Meaning(BuildMatchAllFilter(cfg, extens)).Some?
    requires Answers(raw, cfg, directory, Meaning(BuildMatchAllFilter(cfg, extens)).value, rules)
    requires i < |raw| && raw[i].Found? && c in cfg.firstMatchedColumns
    requires SR.Lookup(FormatOneResult(cfg, raw[i].attrs), c) == Some(exten)
    ensures e in directory && raw[i].attrs == Asked(cfg, e) && Reaches(cfg, extens, exten, e, rules)
  {
    var filter := Meaning(BuildMatchAllFilter(cfg, extens)).value;
    e :| e in directory && Satisfies(filter, e, rules) && raw[i].attrs == Asked(cfg, e);
    BatchFilterSelects(cfg, extens, e, rules);
    ColumnShown(cfg, e, c);
  }

  lemma KeptComesFrom(cfg: Config, directory: seq<Entry>, raw: seq<RawResult>, extens: seq<string>,
                      exten: string, x: SR.Fields, rules: Rules)
    requires BatchSetting(cfg, directory) && AllFormattable(cfg, raw)
    requires Meaning(BuildMatchAllFilter(cfg, extens)).Some?
    requires Answers(raw, cfg, directory, Meaning(BuildMatchAllFilter(cfg, extens)).value, rules)
    requires x in FormatAll(cfg, raw) && exists c | c in cfg.firstMatchedColumns :: SR.Lookup(x, c) == Some(exten)
    ensures exists e | e in directory ::
      Reaches(cfg, extens, exten, e, rules) && Formattable(cfg, Asked(cfg, e))
      && x == FormatOneResult(cfg, Asked(cfg, e))
  {
    FormatAllMembers(cfg, raw);
    var c :| c in cfg.firstMatchedColumns && SR.Lookup(x, c) == Some(exten);
    var i :| 0 <= i < |raw| && raw[i].Found? && x == FormatOneResult(cfg, raw[i].attrs);
    var e := KeptIsReached(cfg, directory, raw, extens, exten, i, c, rules);
  }

  lemma ReachedIsKept(cfg: Config, directory: seq<Entry>, raw: seq<RawResult>,
                      extens: seq<string>, exten: string, e: Entry, rules: Rules)
    requires BatchSetting(cfg, directory) && AllFormattable(cfg, raw)
    requires Meaning(BuildMatchAllFilter(cfg, extens)).Some?
    requires Answers(raw, cfg, directory, Meaning(BuildMatchAllFilter(cfg, extens)).value, rules)
    requires e in directory && Reaches(cfg, extens, exten, e, rules)
    ensures exists c, x | c in cfg.firstMatchedColumns && x in FormatAll(cfg, raw) :: SR.Lookup(x, c) == Some(exten)
  {
    BatchFilterSelects(cfg, extens, e, rules);
    var c :| c in cfg.firstMatchedColumns && c in e && e[c] == exten;
    ColumnShown(cfg, e, c);
    FormatAllMembers(cfg, raw);
    assert Found(Asked(cfg, e)) in raw;
  }

  /**
   Whatever one search answers for a batch, a result is kept for an extension exactly when an entry of the
   directory shows it and is selected by some asked extension's filter; the kept result is such an entry.
   */
  lemma BatchKeeps(cfg: Config, directory: seq<Entry>, raw: seq<RawResult>, extens: seq<string>, exten: string,
                   rules: Rules)
    requires BatchSetting(cfg, directory) && Meaning(BuildMatchAllFilter(cfg, extens)).Some?
    requires Answers(raw, cfg, directory, Meaning(BuildMatchAllFilter(cfg, extens)).value, rules)
    ensures AllFormattable(cfg, raw)
    ensures var kept := Winner(cfg.firstMatchedColumns, FormatAll(cfg, raw), exten);
            && (kept.Some? <==> exists e | e in directory :: Reaches(cfg, extens, exten, e, rules))
            && (kept.Some? ==> exists e | e in directory :: Reaches(cfg, extens, exten, e, rules)
                                 && kept.value == FormatOneResult(cfg, Asked(cfg, e)))
            && (kept.Some? ==> exists c | c in cfg.firstMatchedColumns :: SR.Lookup(kept.value, c) == Some(exten))
  {
    AnswersFormattable(cfg, directory, extens, raw, rules);
    var entries := FormatAll(cfg, raw);
    WinnerIff(cfg.firstMatchedColumns, entries, exten);
    if exists e | e in directory :: Reaches(cfg, extens, exten, e, rules) {
      var e :| e in directory && Reaches(cfg, extens, exten, e, rules);
      ReachedIsKept(cfg, directory, raw, extens, exten, e, rules);
    }
    var kept := Winner(cfg.firstMatchedColumns, entries, exten);
    if kept.Some? {
      KeptComesFrom(cfg, directory, raw, extens, exten, kept.value, rules);
    }
  }

  // ---------- When one search agrees with one filter for each extension ----------

  /** The entry satisfies the filter printed for this extension alone. */
  predicate OwnFilterSelects(cfg: Config, exten: string, e: Entry, rules: Rules) {
    var text := BuildFirstMatchFilter(cfg, exten);
    text.Some? && Meaning(text.value).Some? && Satisfies(Meaning(text.value).value, e, rules)
  }

  lemma OwnFilterIff(cfg: Config, exten: string, e: Entry, rules: Rules)
    requires WellFormedConfig(cfg) && cfg.firstMatchedColumns != []
    ensures OwnFilterSelects(cfg, exten, e, rules)
       <==> CustomSatisfied(cfg, exten, e, rules) && HasValue(cfg.firstMatchedColumns, exten, e)
  {
    FirstMatchFilterDenotes(cfg, exten);
    FirstMatchTreeSelects(cfg, exten, e, rules);
  }

  predicate ShowsBoth(cfg: Config, e: Entry, x: string, y: string) {
    Formattable(cfg, e) && HasValue(cfg.firstMatchedColumns, x, e) && HasValue(cfg.firstMatchedColumns, y, e)
  }

  /** The custom filter, filled with one or the other extension that an entry shows, judges the entry alike. */
  ghost predicate SameVerdict(cfg: Config, rules: Rules)
    requires WellFormedConfig(cfg)
  {
    forall e, x, y | ShowsBoth(cfg, e, x, y) :: CustomSatisfied(cfg, x, e, rules) ==> CustomSatisfied(cfg, y, e, rules)
  }

  lemma NoTermSameVerdict(cfg: Config, rules: Rules)
    requires WellFormedConfig(cfg) && (HasCustomFilter(cfg) ==> NoQ(cfg.customFilter.value))
    ensures SameVerdict(cfg, rules)
  {
    if HasCustomFilter(cfg) {
      forall x, y ensures CustomTree(cfg, x) == CustomTree(cfg, y) {
        SameCustomTree(cfg, x, y);
      }
    }
  }

  lemma OneColumnSameVerdict(cfg: Config, rules: Rules)
    requires WellFormedConfig(cfg)
    requires forall c, d | c in cfg.firstMatchedColumns && d in cfg.firstMatchedColumns :: c == d
    ensures SameVerdict(cfg, rules)
  {
  }

  /** An answer to the search for a batch: some entry is kept exactly when some entry's own filter selects it. */
  ghost predicate AgreesOn(cfg: Config, directory: seq<Entry>, raw: seq<RawResult>, exten: string, rules: Rules)
    requires AllFormattable(cfg, raw)
  {
    Winner(cfg.firstMatchedColumns, FormatAll(cfg, raw), exten).Some?
    <==> exists e | e in directory :: OwnFilterSelects(cfg, exten, e, rules)
  }

  ghost predicate IsAnswer(cfg: Config, directory: seq<Entry>, extens: seq<string>, raw: seq<RawResult>, rules: Rules) {
    Meaning(BuildMatchAllFilter(cfg, extens)).Some?
    && Answers(raw, cfg, directory, Meaning(BuildMatchAllFilter(cfg, extens)).value, rules)
  }

  ghost predicate AlwaysAgrees(cfg: Config, rules: Rules) {
    forall directory, extens, raw, exten |
      BatchSetting(cfg, directory) && IsAnswer(cfg, directory, extens, raw, rules) && AllFormattable(cfg, raw)
      && exten in extens
      :: AgreesOn(cfg, directory, raw, exten, rules)
  }

  lemma ReachesIff(cfg: Config, extens: seq<string>, exten: string, e: Entry, rules: Rules)
    requires WellFormedConfig(cfg) && cfg.firstMatchedColumns != [] && exten in extens
    requires SameVerdict(cfg, rules) && Formattable(cfg, e)
    ensures Reaches(cfg, extens, exten, e, rules) <==> OwnFilterSelects(cfg, exten, e, rules)
  {
    OwnFilterIff(cfg, exten, e, rules);
  }

  lemma SameVerdictAgrees(cfg: Config, directory: seq<Entry>, extens: seq<string>, raw: seq<RawResult>, exten: string,
                          rules: Rules)
    requires BatchSetting(cfg, directory) && IsAnswer(cfg, directory, extens, raw, rules) && AllFormattable(cfg, raw)
    requires exten in extens && SameVerdict(cfg, rules)
    ensures AgreesOn(cfg, directory, raw, exten, rules)
  {
    BatchKeeps(cfg, directory, raw, extens, exten, rules);
    forall e | e in directory
      ensures Reaches(cfg, extens, exten, e, rules) <==> OwnFilterSelects(cfg, exten, e, rules)
    {
      ReachesIff(cfg, extens, exten, e, rules);
    }
  }

  /** An entry that shows two extensions is the answer to a batch of both, when the filter of the first accepts it. */
  lemma OneEntryAnswer(cfg: Config, e: Entry, x: string, y: string, rules: Rules)
    requires BatchSetting(cfg, []) && Formattable(cfg, e)
    requires HasValue(cfg.firstMatchedColumns, x, e) && HasValue(cfg.firstMatchedColumns, y, e)
    requires CustomSatisfied(cfg, x, e, rules)
    ensures BatchSetting(cfg, [e]) && IsAnswer(cfg, [e], [x, y], [Found(Asked(cfg, e))], rules)
    ensures Reaches(cfg, [x, y], y, e, rules)
  {
    var extens := [x, y];
    assert x in extens && e in [e];
    BatchFilterSelects(cfg, extens, e, rules);
  }

  /** A directory of that one entry, and a batch of the two. */
  lemma AgreementOnOne(cfg: Config, e: Entry, x: string, y: string, rules: Rules)
    requires BatchSetting(cfg, []) && AlwaysAgrees(cfg, rules) && Formattable(cfg, e)
    requires HasValue(cfg.firstMatchedColumns, x, e) && HasValue(cfg.firstMatchedColumns, y, e)
    requires CustomSatisfied(cfg, x, e, rules)
    ensures CustomSatisfied(cfg, y, e, rules)
  {
    OneEntryAnswer(cfg, e, x, y, rules);
    var directory, extens, raw := [e], [x, y], [Found(Asked(cfg, e))];
    BatchKeeps(cfg, directory, raw, extens, y, rules);
    assert y in extens && e in directory && Reaches(cfg, extens, y, e, rules);
    assert AgreesOn(cfg, directory, raw, y, rules);
    OwnFilterIff(cfg, y, e, rules);
  }

  /**
   The answer to a batch agrees with each extension's own filter, whatever the directory and the batch,
   if and only if the custom filter judges alike the extensions that one entry shows.
   */
  lemma AgreementIff(cfg: Config, rules: Rules)
    requires BatchSetting(cfg, [])
    ensures AlwaysAgrees(cfg, rules) <==> SameVerdict(cfg, rules)
  {
    if SameVerdict(cfg, rules) {
      forall directory, extens, raw, exten |
        BatchSetting(cfg, directory) && IsAnswer(cfg, directory, extens, raw, rules) && AllFormattable(cfg, raw)
        && exten in extens
        ensures AgreesOn(cfg, directory, raw, exten, rules)
      {
        SameVerdictAgrees(cfg, directory, extens, raw, exten, rules);
      }
    }
    if AlwaysAgrees(cfg, rules) {
      forall e, x, y | ShowsBoth(cfg, e, x, y) && CustomSatisfied(cfg, x, e, rules)
        ensures CustomSatisfied(cfg, y, e, rules)
      {
        AgreementOnOne(cfg, e, x, y, rules);
      }
    }
  }

  /**
   Under that condition `match_all` answers exactly the asked extensions whose own printed first-match filter some entry
   satisfies, each with such an entry, formatted, that shows the extension in a match column.
   */
  lemma BatchMatchesFilters(cfg: Config, directory: seq<Entry>, extens: seq<string>, raw: seq<RawResult>,
                            results: map<string, SR.Fields>, rules: Rules)
    requires BatchSetting(cfg, directory) && IsAnswer(cfg, directory, extens, raw, rules)
    requires SameVerdict(cfg, rules)
    requires AllFormattable(cfg, raw) && KeepsWinners(cfg, extens, raw, results)
    ensures forall t :: t in results <==> t in extens && exists e | e in directory :: OwnFilterSelects(cfg, t, e, rules)
    ensures forall t | t in results ::
      exists e | e in directory ::
        OwnFilterSelects(cfg, t, e, rules) && results[t] == FormatOneResult(cfg, Asked(cfg, e))
    ensures forall t | t in results :: exists c | c in cfg.firstMatchedColumns :: SR.Lookup(results[t], c) == Some(t)
  {
    forall e | e in directory ensures Formattable(cfg, Asked(cfg, e)) {
      ColumnShown(cfg, e, cfg.firstMatchedColumns[0]);
    }
    forall t | t in extens
      ensures AgreesOn(cfg, directory, raw, t, rules)
    {
      SameVerdictAgrees(cfg, directory, extens, raw, t, rules);
    }
    forall t | t in results
      ensures exists e | e in directory ::
        OwnFilterSelects(cfg, t, e, rules) && results[t] == FormatOneResult(cfg, Asked(cfg, e))
      ensures exists c | c in cfg.firstMatchedColumns :: SR.Lookup(results[t], c) == Some(t)
    {
      BatchKeeps(cfg, directory, raw, extens, t, rules);
      var e :| e in directory && Reaches(cfg, extens, t, e, rules) && results[t] == FormatOneResult(cfg, Asked(cfg, e));
      ReachesIff(cfg, extens, t, e, rules);
    }
  }

  // ---------- A custom filter that holds the term ----------

  lemma TermTemplate()
    ensures Parse("(o=%Q)") == Some(Compare(Equal, "o", "%Q"))
  {
    var f := Compare(Equal, "o", "%Q");
    assert Encoded("%Q") by {
      assert "%Q"[1..] == "Q" && "Q"[1..] == "";
    }
    assert Pieces(f) == ["%Q"] && Join(["%Q"]) == "%Q";
    assert WellFormed(f);
    PrintItem(f, "(o=");
    assert Print(f) == "(o=%Q)";
    ParseIff("(o=%Q)", f);
  }

  lemma TermFilled(q: string, term: string)
    requires AtQ(q) && |q| == 2
    ensures Canonical(Splice(Compare(Equal, "o", q), term)) == Compare(Equal, "o", term)
  {
    assert q[2..] == "" && FillValue(q[2..], term) == "";
    assert term + "" == term;
  }

  /** Two match columns, and a custom filter on a third one. */
  const TERM_CONFIG := Config(Some("(o=%Q)"), [], ["a", "b"], None, false, None)

  lemma TermConfigTree(term: string)
    ensures HasCustomFilter(TERM_CONFIG) && WellFormedConfig(TERM_CONFIG)
    ensures CustomTree(TERM_CONFIG, term) == Compare(Equal, "o", term)
  {
    TermTemplate();
    TermFilled("%Q", term);
  }

  /** This configuration fails the condition: an entry shows two extensions, and its filter accepts one. */
  lemma TermInCustomFilterDisagrees(x: string, y: string, rules: Rules)
    requires x != y
    ensures WellFormedConfig(TERM_CONFIG)
    ensures !SameVerdict(TERM_CONFIG, rules) && !AlwaysAgrees(TERM_CONFIG, rules)
    ensures var e: Entry := map["a" := x, "b" := y, "o" := x];
            Reaches(TERM_CONFIG, [x, y], y, e, rules) && !OwnFilterSelects(TERM_CONFIG, y, e, rules)
  {
    var e: Entry := map["a" := x, "b" := y, "o" := x];
    TermConfigTree(x);
    TermConfigTree(y);
    var columns := TERM_CONFIG.firstMatchedColumns;
    assert "a" in columns && "b" in columns;
    assert x in [x, y] && CustomSatisfied(TERM_CONFIG, x, e, rules) && ShowsBoth(TERM_CONFIG, e, x, y);
    assert !CustomSatisfied(TERM_CONFIG, y, e, rules) && Formattable(TERM_CONFIG, e);
    OwnFilterIff(TERM_CONFIG, y, e, rules);
    AgreementIff(TERM_CONFIG, rules);
  }
}
