/**
 Results of a source and their formatted columns: `_SourceResult`, `_NoErrorFormatter`,
 and the attributes an LDAP source asks for because its format columns need them.

 A template is literal text with `{name}` fields.  Conversions, format specifications,
 attribute or index lookups and doubled braces are not part of this model.
 */
module SourceResult {
  import opened Wrappers
  import Rfc4515

  type Fields = map<string, Option<string>>
  type Columns = seq<(string, string)>

  datatype Piece = Char(c: char) | Field(name: string)

  // ---------- Templates ----------

  predicate IsNameChar(c: char) {
    c != '{' && c != '}' && c != '!' && c != ':' && c != '.' && c != '['
  }

  /** `\w`; non-ASCII octets belong to letters. */
  predicate IsWordChar(c: char) {
    Rfc4515.IsAlpha(c) || Rfc4515.IsDigit(c) || c == '_' || c as int >= 128
  }

  predicate IsWord(name: string) {
    name != "" && forall c | c in name :: IsWordChar(c)
  }

  function ParseTemplate(s: string): Option<seq<Piece>>
    decreases |s|
  {
    if s == "" then Some([])
    else if s[0] == '}' then None
    else if s[0] == '{' then
      var (name, rest) := Rfc4515.Span(IsNameChar, s[1..]);
      if rest != "" && rest[0] == '}' then
        var ps :- ParseTemplate(rest[1..]);
        Some([Field(name)] + ps)
      else None
    else
      var ps :- ParseTemplate(s[1..]);
      Some([Char(s[0])] + ps)
  }

  /** `re.findall(r'{(\w+)}', s)` */
  function FindFields(s: string): seq<string>
    decreases |s|
  {
    if s == "" then []
    else if s[0] == '{' then
      var (word, rest) := Rfc4515.Span(IsWordChar, s[1..]);
      if word != "" && rest != "" && rest[0] == '}' then [word] + FindFields(rest[1..])
      else FindFields(s[1..])
    else FindFields(s[1..])
  }

  function WordFields(ps: seq<Piece>): seq<string> {
    if ps == [] then []
    else (if ps[0].Field? && IsWord(ps[0].name) then [ps[0].name] else []) + WordFields(ps[1..])
  }

  // ---------- Formatting ----------

  predicate IsSpace(c: char) {
    c == ' ' || '\t' <= c <= '\r' || 28 <= c as int <= 31
  }

  function StripLeft(s: string): string {
    if s != "" && IsSpace(s[0]) then StripLeft(s[1..]) else s
  }

  function StripRight(s: string): string {
    if s != "" && IsSpace(s[|s| - 1]) then StripRight(s[..|s| - 1]) else s
  }

  /** An empty or numeric name asks for a positional argument, and there is none: formatting fails. */
  predicate IsPositional(name: string) {
    forall c | c in name :: Rfc4515.IsDigit(c)
  }

  predicate Fails(ps: seq<Piece>) {
    exists p | p in ps :: p.Field? && IsPositional(p.name)
  }

  /** A missing key and a None value both read as nothing. */
  function Lookup(fields: Fields, name: string): Option<string> {
    if name in fields then fields[name] else None
  }

  function FieldText(fields: Fields, name: string): string {
    match Lookup(fields, name)
    case None => ""
    case Some(v) => v
  }

  function Fill(ps: seq<Piece>, fields: Fields): string {
    if ps == [] then ""
    else (match ps[0] case Char(c) => [c] case Field(n) => FieldText(fields, n)) + Fill(ps[1..], fields)
  }

  predicate IsSimple(template: string) {
    ParseTemplate(template).Some?
  }

  /** `_NoErrorFormatter.format(...) or None` */
  function Format(template: string, fields: Fields): Option<string>
    requires IsSimple(template)
  {
    var ps := ParseTemplate(template).value;
    if Fails(ps) then None
    else
      var text := StripRight(StripLeft(Fill(ps, fields)));
      if text == "" then None else Some(text)
  }

  predicate SimpleColumns(columns: Columns) {
    forall i | 0 <= i < |columns| :: IsSimple(columns[i].1)
  }

  /** Each column in turn, reading what the earlier ones wrote. */
  function Formatted(fields: Fields, columns: Columns): Fields
    requires SimpleColumns(columns)
    decreases columns
  {
    if columns == [] then fields
    else Formatted(fields[columns[0].0 := Format(columns[0].1, fields)], columns[1..])
  }

  /** `get_unique`, taken before any column is formatted: the unique column's text, "None" for a None. */
  function EntryId(fields: Fields, uniqueColumn: Option<string>): Option<string> {
    if uniqueColumn.None? || uniqueColumn.value == "" || uniqueColumn.value !in fields then None
    else match fields[uniqueColumn.value] case None => Some("None") case Some(v) => Some(v)
  }

  // ---------- What a formatted column holds ----------

  /** What a piece contributes: itself, or the value of its field; nothing for a missing or None one. */
  predicate IsTextOf(p: Piece, fields: Fields, text: string) {
    match p
    case Char(c) => text == [c]
    case Field(n) => text == if n in fields && fields[n].Some? then fields[n].value else ""
  }

  predicate IsTextAt(p: Piece, fields: Fields, text: string, lo: nat, hi: nat) {
    lo <= hi <= |text| && IsTextOf(p, fields, text[lo..hi])
  }

  /** The text falls apart, in order and without gaps, into what the pieces contribute. */
  predicate IsDivided(offsets: seq<nat>, ps: seq<Piece>, fields: Fields, text: string) {
    && |offsets| == |ps| + 1 && offsets[0] == 0 && offsets[|ps|] == |text|
    && (forall i | 0 <= i < |ps| :: IsTextAt(ps[i], fields, text, offsets[i], offsets[i + 1]))
  }

  ghost predicate IsFilled(ps: seq<Piece>, fields: Fields, text: string) {
    exists offsets :: IsDivided(offsets, ps, fields, text)
  }

  /** The text without the white space at both ends. */
  predicate IsTrimmed(text: string, kept: string, lo: nat, hi: nat) {
    && lo <= hi <= |text| && kept == text[lo..hi]
    && (forall i | 0 <= i < |text| && !(lo <= i < hi) :: IsSpace(text[i]))
    && (lo < hi ==> !IsSpace(text[lo]) && !IsSpace(text[hi - 1]))
  }

  /** The value of a formatted column: none for a positional field, and for nothing but white space. */
  ghost predicate IsFormatted(ps: seq<Piece>, fields: Fields, value: Option<string>) {
    if exists p | p in ps :: p.Field? && forall c | c in p.name :: '0' <= c <= '9' then value == None
    else
      exists text, kept, lo, hi :: IsFilled(ps, fields, text) && IsTrimmed(text, kept, lo, hi)
        && value == if kept == "" then None else Some(kept)
  }

  function Shifted(offsets: seq<nat>, width: nat): seq<nat> {
    [0] + seq(|offsets|, i requires 0 <= i < |offsets| => offsets[i] + width)
  }

  lemma ShiftedDivides(ps: seq<Piece>, fields: Fields, head: string, tail: string, rest: seq<nat>)
    requires ps != [] && IsTextOf(ps[0], fields, head) && IsDivided(rest, ps[1..], fields, tail)
    ensures IsDivided(Shifted(rest, |head|), ps, fields, head + tail)
  {
    var offsets, text := Shifted(rest, |head|), head + tail;
    assert text[0..|head|] == head;
    forall i | 0 < i < |ps| ensures IsTextAt(ps[i], fields, text, offsets[i], offsets[i + 1]) {
      assert IsTextAt(ps[1..][i - 1], fields, tail, rest[i - 1], rest[i - 1 + 1]);
      assert text[rest[i - 1] + |head|..rest[i] + |head|] == tail[rest[i - 1]..rest[i]];
    }
  }

  lemma {:induction false} FillIsFilled(ps: seq<Piece>, fields: Fields) returns (offsets: seq<nat>)
    ensures IsDivided(offsets, ps, fields, Fill(ps, fields))
  {
    if ps == [] {
      offsets := [0];
    } else {
      var rest := FillIsFilled(ps[1..], fields);
      var head := match ps[0] case Char(c) => [c] case Field(n) => FieldText(fields, n);
      offsets := Shifted(rest, |head|);
      ShiftedDivides(ps, fields, head, Fill(ps[1..], fields), rest);
    }
  }

  lemma {:induction false} StripLeftIs(s: string) returns (lo: nat)
    ensures lo <= |s| && StripLeft(s) == s[lo..] && (forall i | 0 <= i < lo :: IsSpace(s[i]))
    ensures lo < |s| ==> !IsSpace(s[lo])
  {
    if s != "" && IsSpace(s[0]) {
      var more := StripLeftIs(s[1..]);
      lo := more + 1;
      assert forall i | 0 < i < lo :: s[i] == s[1..][i - 1];
    } else {
      lo := 0;
    }
  }

  lemma {:induction false} StripRightIs(s: string) returns (hi: nat)
    ensures hi <= |s| && StripRight(s) == s[..hi] && (forall i | hi <= i < |s| :: IsSpace(s[i]))
    ensures hi > 0 ==> !IsSpace(s[hi - 1])
  {
    if s != "" && IsSpace(s[|s| - 1]) {
      var init := s[..|s| - 1];
      hi := StripRightIs(init);
      assert forall i | 0 <= i < |init| :: init[i] == s[i];
    } else {
      hi := |s|;
    }
  }

  lemma StripIsTrimmed(s: string) returns (lo: nat, hi: nat)
    ensures IsTrimmed(s, StripRight(StripLeft(s)), lo, hi)
  {
    lo := StripLeftIs(s);
    var rest := s[lo..];
    var n := StripRightIs(rest);
    hi := lo + n;
    assert forall i | 0 <= i < |rest| :: rest[i] == s[lo + i];
    assert s[lo..hi] == rest[..n];
  }

  /** Formatting gives the pieces' own texts one after the other, cut at both ends. */
  lemma FormatIs(template: string, fields: Fields)
    requires IsSimple(template)
    ensures IsFormatted(ParseTemplate(template).value, fields, Format(template, fields))
  {
    var ps := ParseTemplate(template).value;
    var text := Fill(ps, fields);
    var offsets := FillIsFilled(ps, fields);
    var lo, hi := StripIsTrimmed(text);
    if !Fails(ps) {
      assert IsFilled(ps, fields, text) && IsTrimmed(text, StripRight(StripLeft(text)), lo, hi);
    }
  }

  ghost predicate WritesColumn(column: (string, string), before: Fields, after: Fields, ps: seq<Piece>,
                               value: Option<string>) {
    && ParseTemplate(column.1) == Some(ps) && IsFormatted(ps, before, value)
    && after == before[column.0 := value]
  }

  ghost predicate FormatsColumn(column: (string, string), before: Fields, after: Fields) {
    exists ps, value :: WritesColumn(column, before, after, ps, value)
  }

  /** The fields before the first column, between the columns, and after the last one. */
  ghost predicate FormatsInTurn(columns: Columns, states: seq<Fields>) {
    && |states| == |columns| + 1
    && (forall i | 0 <= i < |columns| :: FormatsColumn(columns[i], states[i], states[i + 1]))
  }

  /** Column after column, each formatted from the fields as the earlier ones left them. */
  ghost predicate FormatsTo(before: Fields, columns: Columns, after: Fields) {
    exists states :: FormatsInTurn(columns, states) && states[0] == before && states[|columns|] == after
  }

  lemma ColumnIsFormatted(column: (string, string), fields: Fields)
    requires IsSimple(column.1)
    ensures FormatsColumn(column, fields, fields[column.0 := Format(column.1, fields)])
  {
    FormatIs(column.1, fields);
    var ps, value := ParseTemplate(column.1).value, Format(column.1, fields);
    assert WritesColumn(column, fields, fields[column.0 := value], ps, value);
  }

  lemma InTurnCons(fields: Fields, columns: Columns, rest: seq<Fields>)
    requires columns != [] && FormatsInTurn(columns[1..], rest) && FormatsColumn(columns[0], fields, rest[0])
    ensures FormatsTo(fields, columns, rest[|columns| - 1])
  {
    var states := [fields] + rest;
    forall i | 0 <= i < |columns| ensures FormatsColumn(columns[i], states[i], states[i + 1]) {
      if i > 0 {
        assert FormatsColumn(columns[1..][i - 1], rest[i - 1], rest[i - 1 + 1]);
      }
    }
    assert FormatsInTurn(columns, states);
  }

  lemma {:induction false} FormattedInTurn(fields: Fields, columns: Columns)
    requires SimpleColumns(columns)
    ensures FormatsTo(fields, columns, Formatted(fields, columns))
    decreases columns
  {
    if columns == [] {
      assert FormatsInTurn(columns, [fields]);
    } else {
      var next := fields[columns[0].0 := Format(columns[0].1, fields)];
      ColumnIsFormatted(columns[0], fields);
      FormattedInTurn(next, columns[1..]);
      var rest :| FormatsInTurn(columns[1..], rest) && rest[0] == next
               && rest[|columns| - 1] == Formatted(next, columns[1..]);
      InTurnCons(fields, columns, rest);
    }
  }

  // ---------- Templates and their text ----------

  function PieceText(p: Piece): string {
    match p
    case Char(c) => [c]
    case Field(n) => "{" + n + "}"
  }

  predicate IsPlainPiece(p: Piece) {
    match p
    case Char(c) => c != '{' && c != '}'
    case Field(n) => forall c | c in n :: IsNameChar(c)
  }

  function TemplateText(ps: seq<Piece>): string {
    if ps == [] then "" else PieceText(ps[0]) + TemplateText(ps[1..])
  }

  lemma FieldFirst(name: string, rest: string)
    requires forall c | c in name :: IsNameChar(c)
    ensures var s := "{" + name + "}" + rest;
      s[0] == '{' && Rfc4515.Span(IsNameChar, s[1..]) == (name, "}" + rest) && ("}" + rest)[1..] == rest
  {
    var s, after := "{" + name + "}" + rest, "}" + rest;
    assert s[1..] == name + after;
    Rfc4515.SpanIs(IsNameChar, name, after);
  }

  lemma PieceParses(p: Piece, rest: string, ps: seq<Piece>)
    requires IsPlainPiece(p) && ParseTemplate(rest) == Some(ps)
    ensures ParseTemplate(PieceText(p) + rest) == Some([p] + ps)
  {
    match p {
      case Char(c) => assert ([c] + rest)[1..] == rest;
      case Field(n) => FieldFirst(n, rest);
    }
  }

  lemma {:induction false} TemplateParses(ps: seq<Piece>)
    requires forall i | 0 <= i < |ps| :: IsPlainPiece(ps[i])
    ensures ParseTemplate(TemplateText(ps)) == Some(ps)
  {
    if ps != [] {
      assert forall i | 0 <= i < |ps| - 1 :: ps[1..][i] == ps[i + 1];
      TemplateParses(ps[1..]);
      assert [ps[0]] + ps[1..] == ps;
      PieceParses(ps[0], TemplateText(ps[1..]), ps[1..]);
    }
  }

  lemma Uncons(s: string)
    requires s != ""
    ensures s == [s[0]] + s[1..]
  {
  }

  lemma FieldParts(s: string)
    requires IsSimple(s) && s != "" && s[0] == '{'
    ensures var (name, rest) := Rfc4515.Span(IsNameChar, s[1..]);
            rest != "" && s == "{" + name + "}" + rest[1..]
  {
    var (name, rest) := Rfc4515.Span(IsNameChar, s[1..]);
    assert rest[0] == '}';
    Uncons(s);
    Uncons(rest);
    assert "{" + name + "}" + rest[1..] == "{" + (name + ("}" + rest[1..]));
  }

  lemma {:induction false} ParsedText(s: string)
    requires IsSimple(s)
    ensures var ps := ParseTemplate(s).value;
      TemplateText(ps) == s && forall i | 0 <= i < |ps| :: IsPlainPiece(ps[i])
    decreases |s|
  {
    if s != "" {
      var ps := ParseTemplate(s).value;
      if s[0] == '{' {
        var (name, rest) := Rfc4515.Span(IsNameChar, s[1..]);
        ParsedText(rest[1..]);
        FieldParts(s);
        assert ps[1..] == ParseTemplate(rest[1..]).value && ps[0] == Field(name);
      } else {
        ParsedText(s[1..]);
        assert ps[1..] == ParseTemplate(s[1..]).value && ps[0] == Char(s[0]);
        Uncons(s);
      }
    }
  }

  /** A template is its pieces and nothing else: literal characters, and names between braces. */
  lemma TemplateIff(s: string, ps: seq<Piece>)
    ensures ParseTemplate(s) == Some(ps) <==>
      TemplateText(ps) == s && forall i | 0 <= i < |ps| :: IsPlainPiece(ps[i])
  {
    if ParseTemplate(s) == Some(ps) {
      ParsedText(s);
    }
    if TemplateText(ps) == s && forall i | 0 <= i < |ps| :: IsPlainPiece(ps[i]) {
      TemplateParses(ps);
    }
  }

  class SourceResult {
    var fields: Fields
    var sourceEntryId: Option<string>

    constructor (initial: Fields, uniqueColumn: Option<string>, formatColumns: Columns)
      requires SimpleColumns(formatColumns)
      ensures fields == Formatted(initial, formatColumns)
      ensures FormatsTo(initial, formatColumns, fields)
      ensures uniqueColumn.None? || uniqueColumn.value == "" || uniqueColumn.value !in initial ==> sourceEntryId == None
      ensures uniqueColumn.Some? && uniqueColumn.value != "" && uniqueColumn.value in initial ==>
        sourceEntryId == Some(if initial[uniqueColumn.value].Some? then initial[uniqueColumn.value].value else "None")
    {
      fields := initial;
      sourceEntryId := EntryId(initial, uniqueColumn);
      new;
      AddFormattedColumns(formatColumns);
    }

    method AddFormattedColumns(formatColumns: Columns)
      requires SimpleColumns(formatColumns)
      modifies this`fields
      ensures fields == Formatted(old(fields), formatColumns)
      ensures FormatsTo(old(fields), formatColumns, fields)
    {
      FormattedInTurn(fields, formatColumns);
      assert formatColumns[0..] == formatColumns;
      for i := 0 to |formatColumns|
        invariant Formatted(fields, formatColumns[i..]) == Formatted(old(fields), formatColumns)
      {
        var (column, template) := formatColumns[i];
        assert formatColumns[i..][0] == formatColumns[i] && formatColumns[i..][1..] == formatColumns[i + 1..];
        fields := fields[column := Format(template, fields)];
      }
    }
  }

  function Chars(s: string): seq<Piece> {
    seq(|s|, i requires 0 <= i < |s| => Char(s[i]))
  }

  lemma CharsStep(s: string, ps: seq<Piece>)
    requires s != ""
    ensures Chars(s) + ps == [Char(s[0])] + (Chars(s[1..]) + ps)
  {
  }

  lemma Reassociated(c: char, rest: string, more: string, s: string)
    requires s != "" && s[0] == c && s[1..] == rest
    ensures [c] + (rest + more) == s + more
  {
    assert s == [c] + rest;
  }

  lemma {:induction false} CharsText(s: string, ps: seq<Piece>)
    ensures TemplateText(Chars(s) + ps) == s + TemplateText(ps)
  {
    if s == "" {
      assert Chars(s) + ps == ps;
    } else {
      CharsStep(s, ps);
      CharsText(s[1..], ps);
      Reassociated(s[0], s[1..], TemplateText(ps), s);
    }
  }

  lemma {:induction false} CharsFill(s: string, ps: seq<Piece>, fields: Fields)
    ensures Fill(Chars(s) + ps, fields) == s + Fill(ps, fields)
  {
    if s == "" {
      assert Chars(s) + ps == ps;
    } else {
      CharsStep(s, ps);
      CharsFill(s[1..], ps, fields);
      Reassociated(s[0], s[1..], Fill(ps, fields), s);
    }
  }

  lemma OneFieldParses(pre: string, name: string, post: string, fields: Fields)
    requires forall c | c in pre + post :: c != '{' && c != '}'
    requires forall c | c in name :: IsNameChar(c)
    ensures var ps := Chars(pre) + ([Field(name)] + Chars(post));
      && ParseTemplate(pre + ("{" + name + "}" + post)) == Some(ps)
      && Fill(ps, fields) == pre + (FieldText(fields, name) + post)
  {
    var end, inner := Chars(post), [Field(name)] + Chars(post);
    CharsText(post, []);
    CharsFill(post, [], fields);
    assert end + [] == end && post + "" == post && inner[1..] == end;
    CharsText(pre, inner);
    CharsFill(pre, inner, fields);
    var ps := Chars(pre) + inner;
    forall i | 0 <= i < |ps| ensures IsPlainPiece(ps[i]) {
      assert i < |pre| ==> ps[i] == Char(pre[i]) && pre[i] in pre + post;
      assert i > |pre| ==> ps[i] == Char(post[i - |pre| - 1]) && post[i - |pre| - 1] in pre + post;
    }
    TemplateParses(ps);
  }

  lemma OneFieldDoesNotFail(pre: string, name: string, post: string)
    requires exists c | c in name :: !('0' <= c <= '9')
    ensures !Fails(Chars(pre) + ([Field(name)] + Chars(post)))
  {
    var ps := Chars(pre) + ([Field(name)] + Chars(post));
    forall i | 0 <= i < |ps| ensures ps[i] == Field(name) || ps[i].Char? {
      assert i > |pre| ==> ps[i] == Chars(post)[i - |pre| - 1];
    }
    assert forall p | p in ps :: p == Field(name) || p.Char?;
  }

  /** The column of a template "pre{name}post" holds pre, the field's value and post, in this order. */
  lemma OneFieldColumn(pre: string, name: string, post: string, fields: Fields, value: string)
    requires forall c | c in pre + post :: c != '{' && c != '}'
    requires (forall c | c in name :: IsNameChar(c)) && exists c | c in name :: !('0' <= c <= '9')
    requires name in fields && fields[name] == Some(value)
    requires var text := pre + (value + post); text != "" && !IsSpace(text[0]) && !IsSpace(text[|text| - 1])
    ensures IsSimple(pre + ("{" + name + "}" + post))
    ensures Format(pre + ("{" + name + "}" + post), fields) == Some(pre + (value + post))
  {
    OneFieldParses(pre, name, post, fields);
    OneFieldDoesNotFail(pre, name, post);
    var text := pre + (value + post);
    assert FieldText(fields, name) == value && StripLeft(text) == text && StripRight(text) == text;
  }

  // ---------- The attributes a source asks for ----------

  function TemplateFields(columns: Columns): seq<string> {
    if columns == [] then [] else FindFields(columns[0].1) + TemplateFields(columns[1..])
  }

  /** None asks for every attribute. */
  function Attributes(formatColumns: Option<Columns>, uniqueColumn: Option<string>): Option<seq<string>> {
    if formatColumns.None? || formatColumns.value == [] then None
    else
      var names := TemplateFields(formatColumns.value);
      if uniqueColumn.Some? && uniqueColumn.value != "" && uniqueColumn.value !in names
      then Some(names + [uniqueColumn.value])
      else Some(names)
  }

  function Project(fields: Fields, names: seq<string>): Fields {
    map n | n in fields && n in names :: fields[n]
  }

  // ---------- The regular expression finds exactly the word fields ----------

  lemma {:induction false} FindSkips(a: string, b: string)
    requires '{' !in a
    ensures FindFields(a + b) == FindFields(b)
  {
    if a == "" {
      assert a + b == b;
    } else {
      assert (a + b)[1..] == a[1..] + b;
      FindSkips(a[1..], b);
    }
  }

  lemma NonWordStops(name: string, after: string, word: string, tail: string)
    requires forall c | c in name :: IsNameChar(c)
    requires !IsWord(name) && after != "" && after[0] == '}'
    requires name + after == word + tail && forall c | c in word :: IsWordChar(c)
    ensures word == "" || (tail != "" && tail[0] != '}') || tail == ""
  {
    var s := name + after;
    assert forall j | 0 <= j < |word| :: s[j] == word[j] && IsWordChar(word[j]);
    assert s[|name|] == '}';
    assert |word| <= |name|;
    if name != "" {
      var i :| 0 <= i < |name| && !IsWordChar(name[i]);
      assert s[i] == name[i];
      assert |word| <= i;
      assert tail[0] == (word + tail)[|word|] == s[|word|] == name[|word|];
      assert name[|word|] in name;
    }
  }

  lemma FindAtField(name: string, rest: string)
    requires forall c | c in name :: IsNameChar(c)
    ensures FindFields("{" + name + "}" + rest) == (if IsWord(name) then [name] else []) + FindFields(rest)
  {
    var s := "{" + name + "}" + rest;
    var after := "}" + rest;
    assert s[1..] == name + after && after[1..] == rest;
    if IsWord(name) {
      Rfc4515.SpanIs(IsWordChar, name, after);
    } else {
      var (word, tail) := Rfc4515.Span(IsWordChar, name + after);
      NonWordStops(name, after, word, tail);
      assert s[1..] == (name + "}") + rest;
      FindSkips(name + "}", rest);
    }
  }

  /** `findall` returns the names of the word fields, whatever the other fields are. */
  lemma {:induction false} FindFieldsAreWords(s: string)
    requires IsSimple(s)
    ensures FindFields(s) == WordFields(ParseTemplate(s).value)
    decreases |s|
  {
    if s != "" {
      if s[0] == '{' {
        var (name, rest) := Rfc4515.Span(IsNameChar, s[1..]);
        FindFieldsAreWords(rest[1..]);
        FieldParts(s);
        FindAtField(name, rest[1..]);
      } else {
        FindFieldsAreWords(s[1..]);
      }
    }
  }

  // ---------- Asking only for those attributes ----------

  function Names(ps: seq<Piece>): set<string> {
    set p | p in ps && p.Field? :: p.name
  }

  /** The names a template reads; none when formatting fails whatever the fields are. */
  function Reads(template: string): set<string>
    requires IsSimple(template)
  {
    var ps := ParseTemplate(template).value;
    if Fails(ps) then {} else Names(ps)
  }

  /** Every name read is available: asked for, or written by an earlier column. */
  predicate Covered(columns: Columns, available: set<string>)
    requires SimpleColumns(columns)
  {
    columns == [] ||
    (Reads(columns[0].1) <= available && Covered(columns[1..], available + {columns[0].0}))
  }

  predicate DistinctColumns(columns: Columns) {
    forall i, j | 0 <= i < j < |columns| :: columns[i].0 != columns[j].0
  }

  function ColumnNames(columns: Columns): set<string> {
    set i | 0 <= i < |columns| :: columns[i].0
  }

  ghost predicate SameColumns(a: Fields, b: Fields, columns: Columns)
    requires SimpleColumns(columns)
  {
    forall i | 0 <= i < |columns| ::
      Lookup(Formatted(a, columns), columns[i].0) == Lookup(Formatted(b, columns), columns[i].0)
  }

  ghost predicate Agree(a: Fields, b: Fields, names: set<string>) {
    forall n | n in names :: Lookup(a, n) == Lookup(b, n)
  }

  lemma {:induction false} FillAgrees(ps: seq<Piece>, a: Fields, b: Fields)
    requires Agree(a, b, Names(ps))
    ensures Fill(ps, a) == Fill(ps, b)
  {
    if ps != [] {
      assert Names(ps[1..]) <= Names(ps);
      assert ps[0].Field? ==> ps[0].name in Names(ps);
      FillAgrees(ps[1..], a, b);
    }
  }

  lemma FormatAgrees(template: string, a: Fields, b: Fields)
    requires IsSimple(template) && Agree(a, b, Reads(template))
    ensures Format(template, a) == Format(template, b)
  {
    var ps := ParseTemplate(template).value;
    if !Fails(ps) {
      FillAgrees(ps, a, b);
    }
  }

  lemma {:induction false} CoveredAgrees(columns: Columns, a: Fields, b: Fields, available: set<string>)
    requires SimpleColumns(columns) && Covered(columns, available) && Agree(a, b, available)
    ensures Agree(Formatted(a, columns), Formatted(b, columns), available + ColumnNames(columns))
    decreases columns
  {
    if columns != [] {
      var (column, template) := columns[0];
      FormatAgrees(template, a, b);
      var a', b' := a[column := Format(template, a)], b[column := Format(template, b)];
      CoveredAgrees(columns[1..], a', b', available + {column});
      assert available + ColumnNames(columns) <= available + {column} + ColumnNames(columns[1..]) by {
        forall i | 0 < i < |columns| ensures columns[i].0 in ColumnNames(columns[1..]) {
          assert columns[1..][i - 1] == columns[i];
        }
      }
    }
  }

  // ---------- ... and when that is not enough ----------

  function Count(s: string): nat {
    if s == "" then 0 else (if s[0] == 'x' then 1 else 0) + Count(s[1..])
  }

  lemma {:induction false} CountConcat(a: string, b: string)
    ensures Count(a + b) == Count(a) + Count(b)
  {
    if a == "" {
      assert a + b == b;
    } else {
      assert (a + b)[1..] == a[1..] + b;
      CountConcat(a[1..], b);
    }
  }

  lemma {:induction false} CountStripRight(s: string)
    ensures Count(StripRight(s)) == Count(s)
  {
    if s != "" && IsSpace(s[|s| - 1]) {
      var init, last := s[..|s| - 1], [s[|s| - 1]];
      assert s == init + last && last[1..] == "";
      CountConcat(init, last);
      CountStripRight(init);
    }
  }

  lemma {:induction s} CountStripLeft(s: string)
    ensures Count(StripLeft(s)) == Count(s)
  {
  }

  /** Where one run reads "x" and the other nothing, the filled text has more of them. */
  lemma {:induction false} FillCounts(ps: seq<Piece>, a: Fields, b: Fields, name: string)
    requires Lookup(a, name) == Some("x") && Lookup(b, name) == None
    requires forall n | n in Names(ps) :: Lookup(a, n) == Lookup(b, n) || (Lookup(b, n) == None)
    ensures Count(Fill(ps, a)) >= Count(Fill(ps, b))
    ensures name in Names(ps) ==> Count(Fill(ps, a)) > Count(Fill(ps, b))
  {
    if ps != [] {
      assert Names(ps[1..]) <= Names(ps);
      FillCounts(ps[1..], a, b, name);
      var ta := match ps[0] case Char(c) => [c] case Field(n) => FieldText(a, n);
      var tb := match ps[0] case Char(c) => [c] case Field(n) => FieldText(b, n);
      CountConcat(ta, Fill(ps[1..], a));
      CountConcat(tb, Fill(ps[1..], b));
      assert ps[0].Field? ==> ps[0].name in Names(ps);
      assert "x"[1..] == "" && Count("x") == 1;
      assert name in Names(ps) ==> ps[0] == Field(name) || name in Names(ps[1..]);
    }
  }

  lemma FormatDiffers(template: string, a: Fields, b: Fields, name: string)
    requires IsSimple(template) && name in Reads(template)
    requires Lookup(a, name) == Some("x") && Lookup(b, name) == None
    requires forall n | n in Reads(template) :: Lookup(a, n) == Lookup(b, n) || (Lookup(b, n) == None)
    ensures Format(template, a) != Format(template, b)
  {
    var ps := ParseTemplate(template).value;
    FillCounts(ps, a, b, name);
    var ta, tb := Fill(ps, a), Fill(ps, b);
    CountStripLeft(ta);
    CountStripLeft(tb);
    CountStripRight(StripLeft(ta));
    CountStripRight(StripLeft(tb));
  }

  lemma {:induction false} LaterColumnsKeep(columns: Columns, fields: Fields, name: string)
    requires SimpleColumns(columns) && forall i | 0 <= i < |columns| :: columns[i].0 != name
    ensures Lookup(Formatted(fields, columns), name) == Lookup(fields, name)
  {
    if columns != [] {
      LaterColumnsKeep(columns[1..], fields[columns[0].0 := Format(columns[0].1, fields)], name);
    }
  }

  /** The index of the first column that reads something unavailable, and the name it reads. */
  lemma {:induction false} FirstUncovered(columns: Columns, available: set<string>) returns (k: nat, name: string)
    requires SimpleColumns(columns) && !Covered(columns, available)
    ensures k < |columns| && name in Reads(columns[k].1)
    ensures name !in available && forall i | 0 <= i < k :: columns[i].0 != name
    ensures SimpleColumns(columns[..k]) && Covered(columns[..k], available)
  {
    if Reads(columns[0].1) <= available {
      k, name := FirstUncovered(columns[1..], available + {columns[0].0});
      assert columns[..k + 1][1..] == columns[1..][..k];
      assert forall i | 0 < i < k + 1 :: columns[i] == columns[1..][i - 1];
      k := k + 1;
    } else {
      name :| name in Reads(columns[0].1) && name !in available;
      k := 0;
    }
  }

  lemma {:induction false} FormattedConcat(fields: Fields, a: Columns, b: Columns)
    requires SimpleColumns(a) && SimpleColumns(b)
    ensures SimpleColumns(a + b) && Formatted(fields, a + b) == Formatted(Formatted(fields, a), b)
    decreases a
  {
    if a == [] {
      assert a + b == b;
    } else {
      assert (a + b)[1..] == a[1..] + b;
      FormattedConcat(fields[a[0].0 := Format(a[0].1, fields)], a[1..], b);
    }
  }

  /** Before the first unavailable name is read, only that name differs. */
  lemma OneSidedDifference(before: Columns, name: string, names: seq<string>)
    requires SimpleColumns(before) && Covered(before, set n | n in names)
    requires name !in names && forall i | 0 <= i < |before| :: before[i].0 != name
    ensures var entry := map[name := Some("x")];
      var a, b := Formatted(entry, before), Formatted(Project(entry, names), before);
      && Lookup(a, name) == Some("x") && Lookup(b, name) == None
      && forall n :: Lookup(a, n) == Lookup(b, n) || Lookup(b, n) == None
  {
    var available := set n | n in names;
    var entry := map[name := Some("x")];
    var other := Project(entry, names);
    LaterColumnsKeep(before, entry, name);
    LaterColumnsKeep(before, other, name);
    CoveredAgrees(before, entry, other, available);
    forall n ensures Lookup(Formatted(entry, before), n) == Lookup(Formatted(other, before), n)
                  || Lookup(Formatted(other, before), n) == None {
      if n != name && !(exists i :: 0 <= i < |before| && before[i].0 == n) {
        LaterColumnsKeep(before, entry, n);
        LaterColumnsKeep(before, other, n);
      }
    }
  }

  lemma ColumnKeepsItsText(columns: Columns, k: nat, fields: Fields)
    requires SimpleColumns(columns) && DistinctColumns(columns) && k < |columns|
    ensures Lookup(Formatted(fields, columns), columns[k].0)
         == Format(columns[k].1, Formatted(fields, columns[..k]))
  {
    var before, rest := columns[..k], columns[k..];
    assert columns == before + rest && rest[0] == columns[k];
    FormattedConcat(fields, before, rest);
    var a := Formatted(fields, before);
    forall i | 0 <= i < |rest[1..]| ensures rest[1..][i].0 != columns[k].0 {
      assert rest[1..][i] == columns[k + 1 + i];
    }
    LaterColumnsKeep(rest[1..], a[columns[k].0 := Format(columns[k].1, a)], columns[k].0);
  }

  /** Some entry shows the difference as soon as one column reads an unavailable name. */
  lemma UncoveredDiffers(columns: Columns, names: seq<string>) returns (entry: Fields)
    requires SimpleColumns(columns) && DistinctColumns(columns)
    requires !Covered(columns, set n | n in names)
    ensures !SameColumns(entry, Project(entry, names), columns)
  {
    var k, name := FirstUncovered(columns, set n | n in names);
    entry := map[name := Some("x")];
    var other := Project(entry, names);
    OneSidedDifference(columns[..k], name, names);
    FormatDiffers(columns[k].1, Formatted(entry, columns[..k]), Formatted(other, columns[..k]), name);
    ColumnKeepsItsText(columns, k, entry);
    ColumnKeepsItsText(columns, k, other);
  }

  /**
   Formatting the projected entry gives the columns of the full entry, for all entries,
   exactly when every name a template reads is asked for or written by an earlier column.
   */
  lemma ProjectionPreservesColumns(columns: Columns, names: seq<string>)
    requires SimpleColumns(columns) && DistinctColumns(columns)
    ensures (forall entry: Fields :: SameColumns(entry, Project(entry, names), columns))
       <==> Covered(columns, set n | n in names)
  {
    var available := set n | n in names;
    if Covered(columns, available) {
      forall entry: Fields ensures SameColumns(entry, Project(entry, names), columns) {
        var other := Project(entry, names);
        CoveredAgrees(columns, entry, other, available);
        forall i | 0 <= i < |columns|
          ensures Lookup(Formatted(entry, columns), columns[i].0) == Lookup(Formatted(other, columns), columns[i].0)
        {
          assert columns[i].0 in ColumnNames(columns);
        }
      }
    } else {
      var entry := UncoveredDiffers(columns, names);
    }
  }

  // ---------- The attributes of a source cover its templates ----------

  predicate WordTemplate(template: string)
    requires IsSimple(template)
  {
    forall n | n in Reads(template) :: IsWord(n)
  }

  lemma {:induction false} NamesAreWordFields(ps: seq<Piece>)
    requires forall n | n in Names(ps) :: IsWord(n)
    ensures forall n :: n in Names(ps) <==> n in WordFields(ps)
  {
    if ps != [] {
      assert forall n :: n in Names(ps) <==> n in Names(ps[1..]) || (ps[0].Field? && ps[0].name == n);
      NamesAreWordFields(ps[1..]);
    }
  }

  lemma {:induction false} WordTemplatesCovered(columns: Columns, available: set<string>)
    requires SimpleColumns(columns) && forall i | 0 <= i < |columns| :: WordTemplate(columns[i].1)
    requires forall n | n in TemplateFields(columns) :: n in available
    ensures Covered(columns, available)
  {
    if columns != [] {
      FindFieldsAreWords(columns[0].1);
      var ps := ParseTemplate(columns[0].1).value;
      if !Fails(ps) {
        NamesAreWordFields(ps);
      }
      WordTemplatesCovered(columns[1..], available + {columns[0].0});
    }
  }

  lemma {:induction false} WordFieldsIff(ps: seq<Piece>, n: string)
    ensures n in WordFields(ps) <==> IsWord(n) && Field(n) in ps
  {
    if ps != [] {
      WordFieldsIff(ps[1..], n);
      assert ps == [ps[0]] + ps[1..];
    }
  }

  lemma {:induction false} TemplateFieldsIff(columns: Columns, n: string)
    requires SimpleColumns(columns)
    ensures n in TemplateFields(columns) <==>
      IsWord(n) && exists k | 0 <= k < |columns| :: Field(n) in ParseTemplate(columns[k].1).value
  {
    if columns != [] {
      TemplateFieldsIff(columns[1..], n);
      FindFieldsAreWords(columns[0].1);
      WordFieldsIff(ParseTemplate(columns[0].1).value, n);
      assert forall k | 0 <= k < |columns| - 1 :: columns[1..][k] == columns[k + 1];
    }
  }

  /** Every attribute without format columns; else the words between braces in a template, and the unique column. */
  lemma AttributesAre(formatColumns: Option<Columns>, uniqueColumn: Option<string>)
    requires formatColumns.Some? ==> SimpleColumns(formatColumns.value)
    ensures var names := Attributes(formatColumns, uniqueColumn);
      && (names == None <==> formatColumns == None || formatColumns == Some([]))
      && (names.Some? ==> forall n :: n in names.value <==>
            (n != "" && uniqueColumn == Some(n))
            || (IsWord(n) && exists k | 0 <= k < |formatColumns.value| ::
                  Field(n) in ParseTemplate(formatColumns.value[k].1).value))
  {
    if formatColumns.Some? {
      forall n ensures n in TemplateFields(formatColumns.value) <==>
        IsWord(n) && exists k | 0 <= k < |formatColumns.value| ::
          Field(n) in ParseTemplate(formatColumns.value[k].1).value {
        TemplateFieldsIff(formatColumns.value, n);
      }
    }
  }

  /**
   With templates of literal text and word fields, an entry restricted to the source's
   attributes is formatted, and identified, like the full entry.
   */
  lemma ProjectionPushdown(columns: Columns, uniqueColumn: Option<string>, entry: Fields)
    requires SimpleColumns(columns) && DistinctColumns(columns)
    requires forall i | 0 <= i < |columns| :: WordTemplate(columns[i].1)
    ensures var names := Attributes(Some(columns), uniqueColumn);
            names.Some? ==>
              && SameColumns(entry, Project(entry, names.value), columns)
              && EntryId(Project(entry, names.value), uniqueColumn) == EntryId(entry, uniqueColumn)
  {
    var names := Attributes(Some(columns), uniqueColumn);
    if names.Some? {
      WordTemplatesCovered(columns, set n | n in names.value);
      ProjectionPreservesColumns(columns, names.value);
    }
  }
}
