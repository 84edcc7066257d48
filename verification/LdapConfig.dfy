/**
 The search filters printed by `_LDAPConfig`, and the tree each one denotes.
 */
module LdapConfig {
  import opened Wrappers
  import opened Rfc4515

  datatype Config = Config(
    customFilter: Option<string>,
    searchedColumns: seq<string>,
    firstMatchedColumns: seq<string>,
    uniqueColumn: Option<string>,
    binaryUuid: bool,
    formatColumns: Option<seq<(string, string)>>)

  /** A configured custom filter; the empty text counts as none. */
  predicate HasCustomFilter(cfg: Config) {
    cfg.customFilter.Some? && cfg.customFilter.value != ""
  }

  /** What the constructor accepts; it raises LookupError on anything else. */
  predicate Accepted(cfg: Config) {
    HasCustomFilter(cfg) || cfg.searchedColumns != []
  }

  // ---------- Escaping and substitution ----------

  /** `escape_filter_chars`: the escaping rule of section 3 of RFC 4515. */
  function EscapeChar(c: char): string {
    if c == '\\' then "\\5c"
    else if c == '*' then "\\2a"
    else if c == '(' then "\\28"
    else if c == ')' then "\\29"
    else if c == '\0' then "\\00"
    else [c]
  }

  function Escape(term: string): string {
    if term == "" then "" else EscapeChar(term[0]) + Escape(term[1..])
  }

  predicate AtQ(v: string) {
    |v| >= 2 && v[0] == '%' && v[1] == 'Q'
  }

  /** `text.replace('%Q', e)`: left to right, never rescanning what was put in. */
  function ReplaceQ(s: string, e: string): string {
    if s == "" then ""
    else if AtQ(s) then e + ReplaceQ(s[2..], e)
    else [s[0]] + ReplaceQ(s[1..], e)
  }

  /** A template value with the term in place of each `%Q` and its own escapes decoded. */
  function FillValue(v: string, term: string): string {
    if v == "" then ""
    else if AtQ(v) then term + FillValue(v[2..], term)
    else [UnitChar(v)] + FillValue(v[Unit(v)..], term)
  }

  function Replacer(e: string): string -> string {
    v => ReplaceQ(v, e)
  }

  function Filler(term: string): string -> string {
    v => FillValue(v, term)
  }

  /** The template's own tree with the term spliced into its assertion values. */
  function Splice(template: Filter, term: string): Filter {
    MapValues(template, Filler(term))
  }

  // ---------- The filter builders ----------

  function Concat(list: seq<string>): string {
    if list == [] then "" else list[0] + Concat(list[1..])
  }

  function BuildFilterFromList(list: seq<string>): string {
    if |list| == 1 then list[0] else "(|" + Concat(list) + ")"
  }

  function SearchItems(columns: seq<string>, escaped: string): seq<string> {
    if columns == [] then []
    else ["(" + columns[0] + "=*" + escaped + "*)"] + SearchItems(columns[1..], escaped)
  }

  function ExactItems(columns: seq<string>, escaped: string): seq<string> {
    if columns == [] then []
    else ["(" + columns[0] + "=" + escaped + ")"] + ExactItems(columns[1..], escaped)
  }

  function BuildFilter(cfg: Config, columns: seq<string>, items: seq<string>, escaped: string): Option<string> {
    if HasCustomFilter(cfg) && columns != [] then
      Some("(&" + ReplaceQ(cfg.customFilter.value, escaped) + BuildFilterFromList(items) + ")")
    else if HasCustomFilter(cfg) then Some(ReplaceQ(cfg.customFilter.value, escaped))
    else if columns != [] then Some(BuildFilterFromList(items))
    else None
  }

  function BuildSearchFilter(cfg: Config, term: string): Option<string> {
    var e := Escape(term);
    BuildFilter(cfg, cfg.searchedColumns, SearchItems(cfg.searchedColumns, e), e)
  }

  function BuildFirstMatchFilter(cfg: Config, term: string): Option<string> {
    var e := Escape(term);
    BuildFilter(cfg, cfg.firstMatchedColumns, ExactItems(cfg.firstMatchedColumns, e), e)
  }

  /** The filters of the terms that have a non-empty one, in order. */
  function FirstMatchFilters(cfg: Config, terms: seq<string>): seq<string> {
    if terms == [] then []
    else
      var filter := BuildFirstMatchFilter(cfg, terms[0]);
      (if filter.Some? && filter.value != "" then [filter.value] else [])
        + FirstMatchFilters(cfg, terms[1..])
  }

  function BuildMatchAllFilter(cfg: Config, terms: seq<string>): string {
    BuildFilterFromList(FirstMatchFilters(cfg, terms))
  }

  // ---------- The trees they denote ----------

  predicate WellFormedConfig(cfg: Config) {
    && (forall c | c in cfg.searchedColumns :: WellFormedAttr(Equal, c))
    && (forall c | c in cfg.firstMatchedColumns :: WellFormedAttr(Equal, c))
    && (HasCustomFilter(cfg) ==> Parse(cfg.customFilter.value).Some?)
  }

  function OrOf(fs: seq<Filter>): Filter {
    if |fs| == 1 then fs[0] else Or(fs)
  }

  function CustomTree(cfg: Config, term: string): Filter
    requires HasCustomFilter(cfg) && WellFormedConfig(cfg)
  {
    Canonical(Splice(Parse(cfg.customFilter.value).value, term))
  }

  function SearchTests(columns: seq<string>, term: string): seq<Filter> {
    if columns == [] then []
    else [Substring(columns[0], "", [term], "")] + SearchTests(columns[1..], term)
  }

  function ExactTests(columns: seq<string>, term: string): seq<Filter> {
    if columns == [] then []
    else [Compare(Equal, columns[0], term)] + ExactTests(columns[1..], term)
  }

  function Tree(cfg: Config, tests: seq<Filter>, term: string): Option<Filter>
    requires WellFormedConfig(cfg)
  {
    if HasCustomFilter(cfg) && tests != [] then Some(And([CustomTree(cfg, term), OrOf(tests)]))
    else if HasCustomFilter(cfg) then Some(CustomTree(cfg, term))
    else if tests != [] then Some(OrOf(tests))
    else None
  }

  function FirstMatchTree(cfg: Config, term: string): Option<Filter>
    requires WellFormedConfig(cfg)
  {
    Tree(cfg, ExactTests(cfg.firstMatchedColumns, term), term)
  }

  function FirstMatchTrees(cfg: Config, terms: seq<string>): seq<Filter>
    requires WellFormedConfig(cfg)
  {
    if terms == [] then []
    else
      var tree := FirstMatchTree(cfg, terms[0]);
      (if tree.Some? then [tree.value] else []) + FirstMatchTrees(cfg, terms[1..])
  }

  // ---------- Escaping loses nothing ----------

  lemma SliceConcat(a: string, b: string, n: nat)
    requires n <= |a|
    ensures (a + b)[n..] == a[n..] + b
  {
  }

  lemma UnitConcat(a: string, b: string)
    requires a != "" && Encoded(a)
    ensures Unit(a + b) == Unit(a) && UnitChar(a + b) == UnitChar(a)
    ensures (a + b)[Unit(a)..] == a[Unit(a)..] + b
  {
    var n := Unit(a);
    assert (a + b)[0] == a[0] && (n == 3 ==> (a + b)[1] == a[1] && (a + b)[2] == a[2]);
    assert n == 1 ==> a[0] != '\\';
    SliceConcat(a, b, n);
  }

  lemma FirstUnit(a: string, b: string)
    requires a != "" && Encoded(a)
    ensures Encoded(a[Unit(a)..])
    ensures Encoded(a[Unit(a)..] + b) ==> Encoded(a + b)
    ensures DecodeValue(a + b) == [UnitChar(a)] + DecodeValue(a[Unit(a)..] + b)
  {
    UnitConcat(a, b);
    assert (a + b)[0] == a[0];
  }

  lemma ConcatAssociates(a: string, b: string, c: string)
    ensures a + (b + c) == (a + b) + c
  {
  }

  lemma {:induction false} EncodedConcat(a: string, b: string)
    requires Encoded(a) && Encoded(b)
    ensures Encoded(a + b) && DecodeValue(a + b) == DecodeValue(a) + DecodeValue(b)
  {
    if a == "" {
      assert a + b == b;
    } else {
      var rest := a[Unit(a)..];
      FirstUnit(a, b);
      EncodedConcat(rest, b);
      ConcatAssociates([UnitChar(a)], DecodeValue(rest), DecodeValue(b));
    }
  }

  lemma EscapeCharDecodes(c: char)
    ensures Encoded(EscapeChar(c)) && DecodeValue(EscapeChar(c)) == [c]
  {
    var v := EscapeChar(c);
    if |v| == 3 {
      assert v[3..] == "";
      assert c == (16 * HexValue(v[1]) + HexValue(v[2])) as char;
    } else {
      assert v[1..] == "";
    }
  }

  /** Every term, whatever its characters, is escaped to one valid value that decodes to it. */
  lemma {:induction false} EscapeRoundTrip(term: string)
    ensures Encoded(Escape(term)) && DecodeValue(Escape(term)) == term
  {
    if term != "" {
      assert term == [term[0]] + term[1..];
      EscapeRoundTrip(term[1..]);
      EscapeCharDecodes(term[0]);
      EncodedConcat(EscapeChar(term[0]), Escape(term[1..]));
    }
  }

  // ---------- What is substituted in a text ----------

  /** No two characters in a row are `%Q`. */
  predicate NoQ(s: string) {
    forall i | 0 <= i < |s| - 1 :: !(s[i] == '%' && s[i + 1] == 'Q')
  }

  lemma {:induction false} ReplaceNoQ(s: string, e: string)
    requires NoQ(s)
    ensures ReplaceQ(s, e) == s
  {
    if s != "" {
      assert forall i | 0 <= i < |s| - 1 :: s[1..][i] == s[i + 1];
      ReplaceNoQ(s[1..], e);
    }
  }

  /** The first `%Q` of a text gives way to the replacement, and what follows it is replaced in its turn. */
  lemma {:induction false} ReplaceFirstQ(before: string, after: string, e: string)
    requires NoQ(before)
    ensures ReplaceQ(before + ("%Q" + after), e) == before + (e + ReplaceQ(after, e))
  {
    var s := before + ("%Q" + after);
    if before == "" {
      assert s == "%Q" + after && s[2..] == after;
    } else {
      var tail := before[1..] + ("%Q" + after);
      assert s[1..] == tail && s[0] == before[0];
      assert !AtQ(s) by {
        assert |before| > 1 ==> s[1] == before[1];
        assert |before| == 1 ==> s[1] == '%';
      }
      assert forall i | 0 <= i < |before| - 1 :: before[1..][i] == before[i + 1];
      ReplaceFirstQ(before[1..], after, e);
      assert [before[0]] + (before[1..] + (e + ReplaceQ(after, e))) == before + (e + ReplaceQ(after, e));
    }
  }

  // ---------- Substituting in the text is splicing in the tree ----------

  lemma {:induction false} ReplaceConcat(a: string, b: string, e: string)
    requires a == "" || b == "" || a[|a| - 1] != '%' || b[0] != 'Q'
    ensures ReplaceQ(a + b, e) == ReplaceQ(a, e) + ReplaceQ(b, e)
  {
    if a == "" {
      assert a + b == b;
    } else {
      var n := if AtQ(a) then 2 else 1;
      assert AtQ(a + b) == AtQ(a);
      assert (a + b)[n..] == a[n..] + b;
      ReplaceConcat(a[n..], b, e);
    }
  }

  lemma {:induction false} ReplaceNothing(s: string, e: string)
    requires '%' !in s
    ensures ReplaceQ(s, e) == s
  {
    if |s| >= 2 {
      ReplaceNothing(s[1..], e);
    }
  }

  lemma {:induction false} ReplaceInJoin(ps: seq<string>, e: string)
    requires |ps| >= 1
    ensures ReplaceQ(Join(ps), e) == Join(MapText(Replacer(e), ps))
  {
    var g := Replacer(e);
    assert MapText(g, ps)[1..] == MapText(g, ps[1..]);
    if |ps| > 1 {
      ReplaceInJoin(ps[1..], e);
      var tail := "*" + Join(ps[1..]);
      ReplaceConcat(ps[0], tail, e);
      ReplaceConcat("*", Join(ps[1..]), e);
      assert Join(ps) == ps[0] + tail;
    }
  }

  lemma {:induction false} MapTextConcat(g: string -> string, a: seq<string>, b: seq<string>)
    ensures MapText(g, a + b) == MapText(g, a) + MapText(g, b)
  {
    if a == [] {
      assert a + b == b;
    } else {
      assert (a + b)[1..] == a[1..] + b;
      MapTextConcat(g, a[1..], b);
    }
  }

  lemma MapPieces(f: Filter, g: string -> string)
    requires IsItem(f)
    requires f.Present? ==> g("") == ""
    ensures IsItem(MapValues(f, g)) && Pieces(MapValues(f, g)) == MapText(g, Pieces(f))
  {
    if f.Substring? {
      MapTextConcat(g, [f.initial] + f.middle, [f.final]);
      MapTextConcat(g, [f.initial], f.middle);
    }
  }

  lemma ReplaceInBrackets(head: string, text: string, e: string)
    requires '%' !in head && head != ""
    ensures ReplaceQ(head + text + ")", e) == head + ReplaceQ(text, e) + ")"
  {
    assert head[|head| - 1] in head;
    ReplaceNothing(head, e);
    ReplaceConcat(head + text, ")", e);
    ReplaceConcat(head, text, e);
  }

  lemma PrintItem(f: Filter, head: string)
    requires IsItem(f) && head == "(" + f.attr + OpText(ItemOp(f))
    ensures Print(f) == head + Join(Pieces(f)) + ")"
  {
  }

  lemma ReplaceInItem(f: Filter, e: string)
    requires IsItem(f) && WellFormed(f)
    ensures ReplaceQ(Print(f), e) == Print(MapValues(f, Replacer(e)))
  {
    MakeItemPieces(f);
    var mapped := MapValues(f, Replacer(e));
    var head := "(" + f.attr + OpText(ItemOp(f));
    assert '%' !in head;
    MapPieces(f, Replacer(e));
    ReplaceInJoin(Pieces(f), e);
    ReplaceInBrackets(head, Join(Pieces(f)), e);
    PrintItem(f, head);
    PrintItem(mapped, head);
  }

  /** Replacing `%Q` in the text of a filter only rewrites its values. */
  lemma {:induction false} ReplaceInPrint(f: Filter, e: string)
    requires WellFormed(f)
    ensures ReplaceQ(Print(f), e) == Print(MapValues(f, Replacer(e)))
    decreases f, 1
  {
    if IsItem(f) {
      ReplaceInItem(f, e);
    } else {
      var open := if f.And? then "(&" else if f.Or? then "(|" else "(!";
      var inner := if f.Not? then Print(f.part) else PrintAll(f.parts);
      if f.Not? {
        ReplaceInPrint(f.part, e);
      } else {
        ReplaceInPrintAll(f.parts, e);
      }
      assert Print(f) == open + inner + ")";
      ReplaceInBrackets(open, inner, e);
    }
  }

  lemma {:induction false} ReplaceInPrintAll(fs: seq<Filter>, e: string)
    requires forall f | f in fs :: WellFormed(f)
    ensures ReplaceQ(PrintAll(fs), e) == PrintAll(MapAllValues(fs, Replacer(e)))
    decreases fs, 0
  {
    if fs != [] {
      ReplaceInPrint(fs[0], e);
      ReplaceInPrintAll(fs[1..], e);
      var p := Print(fs[0]);
      assert p[|p| - 1] == ')';
      ReplaceConcat(p, PrintAll(fs[1..]), e);
    }
  }

  lemma {:induction false} CanonicalPrint(f: Filter)
    ensures Print(Canonical(f)) == Print(f)
    decreases f, 1
  {
    if f.And? || f.Or? {
      CanonicalPrintAll(f.parts);
    } else if f.Not? {
      CanonicalPrint(f.part);
    }
  }

  lemma {:induction false} CanonicalPrintAll(fs: seq<Filter>)
    ensures PrintAll(CanonicalAll(fs)) == PrintAll(fs)
    decreases fs, 0
  {
    if fs != [] {
      CanonicalPrint(fs[0]);
      CanonicalPrintAll(fs[1..]);
    }
  }

  /** A template value is replaced one encoded octet at a time. */
  lemma ReplaceUnit(v: string, e: string)
    requires v != "" && Encoded(v) && !AtQ(v)
    ensures ReplaceQ(v, e) == v[..Unit(v)] + ReplaceQ(v[Unit(v)..], e)
  {
    var u := Unit(v);
    assert v == v[..u] + v[u..];
    if u == 3 {
      assert forall c | c in v[..3] :: c != '%';
      ReplaceNothing(v[..3], e);
      ReplaceConcat(v[..3], v[3..], e);
    }
  }

  lemma EncodedHead(v: string)
    requires v != "" && Encoded(v)
    ensures Encoded(v[..Unit(v)]) && DecodeValue(v[..Unit(v)]) == [UnitChar(v)]
  {
    var head := v[..Unit(v)];
    assert Unit(head) == Unit(v) && UnitChar(head) == UnitChar(v) && head[Unit(v)..] == "";
  }

  lemma {:induction false} ReplaceEncoded(v: string, e: string)
    requires Encoded(v) && Encoded(e)
    ensures Encoded(ReplaceQ(v, e))
  {
    if v == "" {
    } else if AtQ(v) {
      assert v[1..][1..] == v[2..];
      ReplaceEncoded(v[2..], e);
      EncodedConcat(e, ReplaceQ(v[2..], e));
    } else {
      ReplaceUnit(v, e);
      ReplaceEncoded(v[Unit(v)..], e);
      EncodedHead(v);
      EncodedConcat(v[..Unit(v)], ReplaceQ(v[Unit(v)..], e));
    }
  }

  lemma {:induction false} DecodeReplaced(v: string, term: string)
    requires Encoded(v)
    ensures DecodeValue(ReplaceQ(v, Escape(term))) == FillValue(v, term)
  {
    var e := Escape(term);
    EscapeRoundTrip(term);
    if v == "" {
    } else if AtQ(v) {
      assert v[1..][1..] == v[2..];
      DecodeReplaced(v[2..], term);
      ReplaceEncoded(v[2..], e);
      EncodedConcat(e, ReplaceQ(v[2..], e));
    } else {
      ReplaceUnit(v, e);
      DecodeReplaced(v[Unit(v)..], term);
      ReplaceEncoded(v[Unit(v)..], e);
      EncodedHead(v);
      EncodedConcat(v[..Unit(v)], ReplaceQ(v[Unit(v)..], e));
    }
  }

  lemma {:induction false} ReplacedTexts(ps: seq<string>, term: string)
    requires forall p | p in ps :: Encoded(p)
    ensures var raw := MapText(Replacer(Escape(term)), ps);
            && (forall p | p in raw :: Encoded(p))
            && MapText(DecodeValue, raw) == MapText(Filler(term), ps)
  {
    if ps != [] {
      EscapeRoundTrip(term);
      ReplaceEncoded(ps[0], Escape(term));
      DecodeReplaced(ps[0], term);
      ReplacedTexts(ps[1..], term);
    }
  }

  lemma ReplacedItem(f: Filter, term: string)
    requires IsItem(f) && WellFormed(f)
    ensures var raw := Canonical(MapValues(f, Replacer(Escape(term))));
            WellFormed(raw) && Decode(raw) == Canonical(Splice(f, term))
  {
    if f.Compare? {
      ReplacedTexts([f.value], term);
      assert MapText(Replacer(Escape(term)), [f.value]) == [ReplaceQ(f.value, Escape(term))];
      DecodeReplaced(f.value, term);
    } else if f.Substring? {
      ReplacedTexts(f.middle, term);
      EscapeRoundTrip(term);
      ReplaceEncoded(f.initial, Escape(term));
      ReplaceEncoded(f.final, Escape(term));
      DecodeReplaced(f.initial, term);
      DecodeReplaced(f.final, term);
    }
  }

  lemma {:induction false} ReplacedTree(f: Filter, term: string)
    requires WellFormed(f)
    ensures var raw := Canonical(MapValues(f, Replacer(Escape(term))));
            WellFormed(raw) && Decode(raw) == Canonical(Splice(f, term))
    decreases f, 1
  {
    if f.And? || f.Or? {
      ReplacedTrees(f.parts, term);
    } else if f.Not? {
      ReplacedTree(f.part, term);
    } else {
      ReplacedItem(f, term);
    }
  }

  lemma {:induction false} ReplacedTrees(fs: seq<Filter>, term: string)
    requires forall f | f in fs :: WellFormed(f)
    ensures var raw := CanonicalAll(MapAllValues(fs, Replacer(Escape(term))));
            && (forall f | f in raw :: WellFormed(f))
            && MapAllValues(raw, DecodeValue) == CanonicalAll(MapAllValues(fs, Filler(term)))
    decreases fs, 0
  {
    if fs != [] {
      ReplacedTree(fs[0], term);
      ReplacedTrees(fs[1..], term);
    }
  }

  /**
   For every well-formed custom filter and every term, the text with `%Q` replaced by
   the escaped term denotes the template's own tree with the raw term in its values.
   The term cannot add, remove or regroup anything, even when it contains `%Q`.
   */
  lemma SubstitutionDenotesSplice(template: string, term: string)
    requires Parse(template).Some?
    ensures Meaning(ReplaceQ(template, Escape(term)))
         == Some(Canonical(Splice(Parse(template).value, term)))
  {
    var f := Parse(template).value;
    ParseIff(template, f);
    ReplaceInPrint(f, Escape(term));
    var raw := MapValues(f, Replacer(Escape(term)));
    CanonicalPrint(raw);
    ReplacedTree(f, term);
    ParseIff(ReplaceQ(template, Escape(term)), Canonical(raw));
  }

  // ---------- When the substitution keeps the template's structure ----------

  /** Texts made of nothing but `%Q`. */
  predicate OnlyQ(v: string) {
    v == "" || (AtQ(v) && OnlyQ(v[2..]))
  }

  /** A prefix or suffix test (or both) that has no text of its own beside `%Q`. */
  predicate HasBareTest(f: Filter)
    decreases f
  {
    match f
    case And(parts) => exists p | p in parts :: HasBareTest(p)
    case Or(parts) => exists p | p in parts :: HasBareTest(p)
    case Not(p) => HasBareTest(p)
    case Compare(_, _, _) => false
    case Present(_) => false
    case Substring(_, i, m, x) => m == [] && OnlyQ(i) && OnlyQ(x)
  }

  lemma {:induction false} FillsEmpty(v: string, term: string)
    ensures FillValue(v, term) == "" <==> OnlyQ(v) && (v == "" || term == "")
  {
    if AtQ(v) {
      FillsEmpty(v[2..], term);
    }
  }

  lemma {:induction false} CanonicalIffNotBare(f: Filter, term: string)
    requires WellFormed(f)
    ensures Canonical(Splice(f, term)) == Splice(f, term) <==> !(term == "" && HasBareTest(f))
    decreases f, 1
  {
    if f.And? || f.Or? {
      CanonicalAllIffNotBare(f.parts, term);
    } else if f.Not? {
      CanonicalIffNotBare(f.part, term);
    } else if f.Substring? {
      FillsEmpty(f.initial, term);
      FillsEmpty(f.final, term);
    }
  }

  lemma {:induction false} CanonicalAllIffNotBare(fs: seq<Filter>, term: string)
    requires forall f | f in fs :: WellFormed(f)
    ensures CanonicalAll(MapAllValues(fs, Filler(term))) == MapAllValues(fs, Filler(term))
       <==> !(term == "" && exists f | f in fs :: HasBareTest(f))
    decreases fs, 0
  {
    if fs != [] {
      CanonicalIffNotBare(fs[0], term);
      CanonicalAllIffNotBare(fs[1..], term);
      assert fs == [fs[0]] + fs[1..];
      assert MapAllValues(fs, Filler(term)) == [Splice(fs[0], term)] + MapAllValues(fs[1..], Filler(term));
    }
  }

  /**
   The structure of the template is kept exactly when the term is not empty or no prefix
   or suffix test consists of `%Q` alone.
   */
  lemma SubstitutionKeepsStructure(template: string, term: string)
    requires Parse(template).Some?
    ensures Meaning(ReplaceQ(template, Escape(term))) == Some(Splice(Parse(template).value, term))
       <==> !(term == "" && HasBareTest(Parse(template).value))
  {
    SubstitutionDenotesSplice(template, term);
    ParseIff(template, Parse(template).value);
    CanonicalIffNotBare(Parse(template).value, term);
  }

  lemma PrefixTemplate()
    ensures Parse("(cn=%Q*)") == Some(Substring("cn", "%Q", [], ""))
  {
    var f := Substring("cn", "%Q", [], "");
    assert Encoded("%Q") by {
      assert "%Q"[1..] == "Q" && "Q"[1..] == "";
    }
    assert Pieces(f) == ["%Q", ""] && ["%Q", ""][1..] == [""];
    assert Join([""]) == "" && Join(Pieces(f)) == "%Q*";
    assert WellFormed(f);
    assert Print(f) == "(cn=%Q*)";
    ParseIff("(cn=%Q*)", f);
  }

  lemma SplicedPrefix(q: string)
    requires AtQ(q) && |q| == 2
    ensures Canonical(Splice(Substring("cn", q, [], ""), "")) == Present("cn")
  {
    assert q[2..] == "" && OnlyQ(q[2..]);
    FillsEmpty(q, "");
    FillsEmpty("", "");
  }

  /** With an empty term, the prefix test of "(cn=%Q*)" becomes a presence test. */
  lemma EmptyTermDropsPrefixTest()
    ensures Parse("(cn=%Q*)") == Some(Substring("cn", "%Q", [], ""))
    ensures Meaning(ReplaceQ("(cn=%Q*)", Escape(""))) == Some(Present("cn"))
  {
    PrefixTemplate();
    SubstitutionDenotesSplice("(cn=%Q*)", "");
    SplicedPrefix("%Q");
  }

  // ---------- What the printed filters denote ----------

  ghost predicate Denotes(texts: seq<string>, trees: seq<Filter>) {
    |texts| == |trees| && forall i | 0 <= i < |texts| :: Meaning(texts[i]) == Some(trees[i])
  }

  lemma {:induction false} ConcatDenotes(texts: seq<string>, trees: seq<Filter>) returns (raw: seq<Filter>)
    requires Denotes(texts, trees)
    ensures |raw| == |texts| && forall f | f in raw :: WellFormed(f)
    ensures forall i | 0 <= i < |raw| :: Print(raw[i]) == texts[i]
    ensures PrintAll(raw) == Concat(texts) && MapAllValues(raw, DecodeValue) == trees
  {
    if texts == [] {
      raw := [];
    } else {
      assert Meaning(texts[0]) == Some(trees[0]);
      var f := Parse(texts[0]).value;
      ParseIff(texts[0], f);
      forall i | 0 <= i < |texts| - 1 ensures Meaning(texts[1..][i]) == Some(trees[1..][i]) {
        assert texts[1..][i] == texts[i + 1] && trees[1..][i] == trees[i + 1];
      }
      var rest := ConcatDenotes(texts[1..], trees[1..]);
      raw := [f] + rest;
      assert raw[1..] == rest;
    }
  }

  lemma OrDenotes(texts: seq<string>, trees: seq<Filter>)
    requires Denotes(texts, trees)
    ensures Meaning(BuildFilterFromList(texts)) == Some(OrOf(trees))
  {
    var raw := ConcatDenotes(texts, trees);
    if |texts| != 1 {
      ParseIff(BuildFilterFromList(texts), Or(raw));
    }
  }

  lemma PrintAllOfOne(f: Filter)
    ensures PrintAll([f]) == Print(f)
  {
    assert [f][1..] == [] && PrintAll([]) == "";
    assert Print(f) + "" == Print(f);
  }

  lemma PrintAllOfTwo(fa: Filter, fb: Filter)
    ensures PrintAll([fa, fb]) == Print(fa) + Print(fb)
  {
    assert [fa, fb][1..] == [fb];
    PrintAllOfOne(fb);
  }

  lemma PrintAndOfTwo(fa: Filter, fb: Filter)
    ensures Print(And([fa, fb])) == "(&" + Print(fa) + Print(fb) + ")"
  {
    PrintAllOfTwo(fa, fb);
    ConcatAssociates("(&", Print(fa), Print(fb));
  }

  lemma DecodeTwo(fa: Filter, fb: Filter)
    ensures Decode(And([fa, fb])) == And([Decode(fa), Decode(fb)])
  {
    assert [fa, fb][1..] == [fb] && [fb][1..] == [];
    assert MapAllValues([fb], DecodeValue) == [Decode(fb)] + MapAllValues([], DecodeValue);
    assert MapAllValues([fa, fb], DecodeValue) == [Decode(fa)] + MapAllValues([fb], DecodeValue);
  }

  lemma PrintDenotes(raw: Filter)
    requires WellFormed(raw)
    ensures Meaning(Print(raw)) == Some(Decode(raw))
  {
    ParseIff(Print(raw), raw);
  }

  lemma AndDenotes(a: string, b: string, fa: Filter, fb: Filter)
    requires Meaning(a) == Some(fa) && Meaning(b) == Some(fb)
    ensures Meaning("(&" + a + b + ")") == Some(And([fa, fb]))
  {
    var ra, rb := Parse(a).value, Parse(b).value;
    ParseIff(a, ra);
    ParseIff(b, rb);
    PrintAndOfTwo(ra, rb);
    PrintDenotes(And([ra, rb]));
    DecodeTwo(ra, rb);
  }

  lemma PrintSearchItem(attr: string, e: string)
    ensures Print(Substring(attr, "", [e], "")) == "(" + attr + "=*" + e + "*)"
  {
    var ps := ["", e, ""];
    assert Pieces(Substring(attr, "", [e], "")) == ps;
    assert ps[1..] == [e, ""] && ps[1..][1..] == [""];
    assert Join([e, ""]) == e + "*";
    assert Join(ps) == "*" + e + "*";
  }

  lemma SearchItemDenotes(attr: string, term: string)
    requires WellFormedAttr(Equal, attr)
    ensures Meaning("(" + attr + "=*" + Escape(term) + "*)") == Some(Substring(attr, "", [term], ""))
  {
    EscapeRoundTrip(term);
    PrintSearchItem(attr, Escape(term));
    PrintDenotes(Substring(attr, "", [Escape(term)], ""));
    assert MapText(DecodeValue, [Escape(term)]) == [term];
  }

  lemma {:induction false} SearchItemsDenote(columns: seq<string>, term: string)
    requires forall c | c in columns :: WellFormedAttr(Equal, c)
    ensures Denotes(SearchItems(columns, Escape(term)), SearchTests(columns, term))
  {
    if columns != [] {
      SearchItemsDenote(columns[1..], term);
      SearchItemDenotes(columns[0], term);
    }
  }

  lemma ExactItemDenotes(attr: string, value: string)
    requires WellFormedAttr(Equal, attr) && Encoded(value)
    ensures Meaning("(" + attr + "=" + value + ")") == Some(Compare(Equal, attr, DecodeValue(value)))
  {
    var raw := Compare(Equal, attr, value);
    assert Pieces(raw) == [value] && Join([value]) == value;
    PrintItem(raw, "(" + attr + "=");
    PrintDenotes(raw);
  }

  lemma {:induction false} ExactItemsDenote(columns: seq<string>, term: string)
    requires forall c | c in columns :: WellFormedAttr(Equal, c)
    ensures Denotes(ExactItems(columns, Escape(term)), ExactTests(columns, term))
  {
    if columns != [] {
      ExactItemsDenote(columns[1..], term);
      EscapeRoundTrip(term);
      ExactItemDenotes(columns[0], Escape(term));
    }
  }

  lemma BuiltFilterDenotes(cfg: Config, columns: seq<string>, items: seq<string>,
                           tests: seq<Filter>, term: string)
    requires WellFormedConfig(cfg) && Denotes(items, tests) && |items| == |columns|
    ensures var text := BuildFilter(cfg, columns, items, Escape(term));
            var tree := Tree(cfg, tests, term);
            (text.Some? <==> tree.Some?) && (text.Some? ==> Meaning(text.value) == tree)
  {
    if HasCustomFilter(cfg) {
      SubstitutionDenotesSplice(cfg.customFilter.value, term);
    }
    if columns != [] {
      OrDenotes(items, tests);
      if HasCustomFilter(cfg) {
        AndDenotes(ReplaceQ(cfg.customFilter.value, Escape(term)), BuildFilterFromList(items),
                   CustomTree(cfg, term), OrOf(tests));
      }
    }
  }

  lemma {:induction columns} SearchLengths(columns: seq<string>, e: string)
    ensures |SearchItems(columns, e)| == |ExactItems(columns, e)| == |columns|
  {
  }

  /**
   The search filter of any term denotes: one substring test of the raw term per searched
   column, joined by "or" unless there is one, and-ed with the filled custom filter if any.
   */
  lemma SearchFilterDenotes(cfg: Config, term: string)
    requires WellFormedConfig(cfg)
    ensures var text := BuildSearchFilter(cfg, term);
            var tree := Tree(cfg, SearchTests(cfg.searchedColumns, term), term);
            (text.Some? <==> tree.Some?) && (text.Some? ==> Meaning(text.value) == tree)
    ensures Accepted(cfg) ==> BuildSearchFilter(cfg, term).Some?
  {
    SearchItemsDenote(cfg.searchedColumns, term);
    SearchLengths(cfg.searchedColumns, Escape(term));
    BuiltFilterDenotes(cfg, cfg.searchedColumns, SearchItems(cfg.searchedColumns, Escape(term)),
                       SearchTests(cfg.searchedColumns, term), term);
  }

  /** The first-match filter, likewise, with one equality test per first-matched column. */
  lemma FirstMatchFilterDenotes(cfg: Config, term: string)
    requires WellFormedConfig(cfg)
    ensures var text := BuildFirstMatchFilter(cfg, term);
            var tree := FirstMatchTree(cfg, term);
            (text.Some? <==> tree.Some?) && (text.Some? ==> Meaning(text.value) == tree)
  {
    ExactItemsDenote(cfg.firstMatchedColumns, term);
    SearchLengths(cfg.firstMatchedColumns, Escape(term));
    BuiltFilterDenotes(cfg, cfg.firstMatchedColumns, ExactItems(cfg.firstMatchedColumns, Escape(term)),
                       ExactTests(cfg.firstMatchedColumns, term), term);
  }

  lemma {:induction false} FirstMatchFiltersDenote(cfg: Config, terms: seq<string>)
    requires WellFormedConfig(cfg)
    ensures Denotes(FirstMatchFilters(cfg, terms), FirstMatchTrees(cfg, terms))
  {
    if terms != [] {
      FirstMatchFilterDenotes(cfg, terms[0]);
      FirstMatchFiltersDenote(cfg, terms[1..]);
      var text := BuildFirstMatchFilter(cfg, terms[0]);
      assert text.Some? ==> text.value != "" by {
        if text.Some? {
          assert Parse(text.value).Some?;
        }
      }
    }
  }

  /** The batch filter denotes the disjunction of the terms' own first-match trees. */
  lemma MatchAllFilterDenotes(cfg: Config, terms: seq<string>)
    requires WellFormedConfig(cfg)
    ensures Meaning(BuildMatchAllFilter(cfg, terms)) == Some(OrOf(FirstMatchTrees(cfg, terms)))
  {
    FirstMatchFiltersDenote(cfg, terms);
    OrDenotes(FirstMatchFilters(cfg, terms), FirstMatchTrees(cfg, terms));
  }
}
