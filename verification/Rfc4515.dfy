/**
 The string form of LDAP search filters: section 3 of RFC 4515, with the empty
 lists "(&)" and "(|)" of section 2 of RFC 4526.

 Text is written as its UTF-8 octets, one `char` per octet; every non-ASCII octet
 is an ordinary value character.  A parsed filter keeps its assertion values in
 their encoded form; `Decode` turns them into the octets they stand for.
 */
module Rfc4515 {
  import opened Wrappers

  datatype Op = Equal | Approx | GreaterOrEqual | LessOrEqual | Extensible

  datatype Filter =
    | And(parts: seq<Filter>)
    | Or(parts: seq<Filter>)
    | Not(part: Filter)
    | Compare(op: Op, attr: string, value: string)
    | Present(attr: string)
    | Substring(attr: string, initial: string, middle: seq<string>, final: string)

  // ---------- Characters and assertion values ----------

  predicate IsAlpha(c: char) {
    'a' <= c <= 'z' || 'A' <= c <= 'Z'
  }

  predicate IsDigit(c: char) {
    '0' <= c <= '9'
  }

  predicate IsHex(c: char) {
    IsDigit(c) || 'a' <= c <= 'f' || 'A' <= c <= 'F'
  }

  function HexValue(c: char): (v: nat)
    requires IsHex(c)
    ensures v < 16
  {
    if IsDigit(c) then (c - '0') as int
    else if 'a' <= c then (c - 'a') as int + 10
    else (c - 'A') as int + 10
  }

  /** An attribute description, or (with colons) the left side of an extensible match. */
  predicate IsHeadChar(c: char) {
    IsAlpha(c) || IsDigit(c) || c == '-' || c == '.' || c == ';' || c == ':'
  }

  predicate IsNormal(c: char) {
    c != '\0' && c != '(' && c != ')' && c != '*' && c != '\\'
  }

  predicate NotParen(c: char) {
    c != '(' && c != ')'
  }

  predicate WellFormedAttr(op: Op, attr: string) {
    && attr != ""
    && (forall c | c in attr :: IsHeadChar(c))
    && (op != Extensible ==> ':' !in attr)
  }

  /** The length of the first encoded octet: three for `\hh`, else one. */
  function Unit(v: string): (n: nat)
    requires v != ""
    ensures 1 <= n <= |v|
  {
    if v[0] == '\\' && |v| >= 3 && IsHex(v[1]) && IsHex(v[2]) then 3 else 1
  }

  function UnitChar(v: string): char
    requires v != ""
  {
    if Unit(v) == 3 then (16 * HexValue(v[1]) + HexValue(v[2])) as char else v[0]
  }

  /** The `valueencoding` production. */
  predicate Encoded(v: string) {
    v == "" || ((Unit(v) == 3 || IsNormal(v[0])) && Encoded(v[Unit(v)..]))
  }

  /** The octets an encoded value stands for. */
  function DecodeValue(v: string): string {
    if v == "" then "" else [UnitChar(v)] + DecodeValue(v[Unit(v)..])
  }

  // ---------- Items: attribute, operator and the pieces between asterisks ----------

  function OpText(op: Op): string {
    match op
    case Equal => "="
    case Approx => "~="
    case GreaterOrEqual => ">="
    case LessOrEqual => "<="
    case Extensible => ":="
  }

  predicate IsItem(f: Filter) {
    f.Compare? || f.Present? || f.Substring?
  }

  function ItemOp(f: Filter): Op
    requires IsItem(f)
  {
    if f.Compare? then f.op else Equal
  }

  function Pieces(f: Filter): (ps: seq<string>)
    requires IsItem(f)
    ensures |ps| >= 1
  {
    match f
    case Compare(_, _, v) => [v]
    case Present(_) => ["", ""]
    case Substring(_, i, m, x) => [i] + m + [x]
  }

  /** The item with the given pieces: no asterisk compares, a lone asterisk tests presence. */
  function MakeItem(op: Op, attr: string, ps: seq<string>): Option<Filter>
    requires |ps| >= 1
  {
    if |ps| == 1 then Some(Compare(op, attr, ps[0]))
    else if op != Equal then None
    else if ps == ["", ""] then Some(Present(attr))
    else Some(Substring(attr, ps[0], ps[1..|ps| - 1], ps[|ps| - 1]))
  }

  function Join(ps: seq<string>): string
    requires |ps| >= 1
  {
    if |ps| == 1 then ps[0] else ps[0] + "*" + Join(ps[1..])
  }

  function Split(s: string): (ps: seq<string>)
    ensures |ps| >= 1
  {
    if s == "" then [""]
    else if s[0] == '*' then [""] + Split(s[1..])
    else
      var ps := Split(s[1..]);
      [[s[0]] + ps[0]] + ps[1..]
  }

  function ItemText(f: Filter): string
    requires IsItem(f)
  {
    f.attr + OpText(ItemOp(f)) + Join(Pieces(f))
  }

  // ---------- Well-formed filters and their text ----------

  predicate WellFormed(f: Filter)
    decreases f
  {
    match f
    case And(parts) => forall p | p in parts :: WellFormed(p)
    case Or(parts) => forall p | p in parts :: WellFormed(p)
    case Not(p) => WellFormed(p)
    case Compare(op, attr, v) => WellFormedAttr(op, attr) && Encoded(v)
    case Present(attr) => WellFormedAttr(Equal, attr)
    case Substring(attr, i, m, x) =>
      && WellFormedAttr(Equal, attr)
      && Encoded(i) && Encoded(x) && (forall p | p in m :: Encoded(p))
      && !(i == "" && m == [] && x == "")
  }

  /** The opening bracket with its connective. */
  function Opening(f: Filter): string {
    match f
    case And(_) => "(&"
    case Or(_) => "(|"
    case Not(_) => "(!"
    case _ => "("
  }

  function Inner(f: Filter): string
    decreases f, 1
  {
    match f
    case And(parts) => PrintAll(parts)
    case Or(parts) => PrintAll(parts)
    case Not(p) => Print(p)
    case _ => ItemText(f)
  }

  function Print(f: Filter): string
    decreases f, 2
  {
    Opening(f) + Inner(f) + ")"
  }

  function PrintAll(fs: seq<Filter>): string
    decreases fs, 0
  {
    if fs == [] then "" else Print(fs[0]) + PrintAll(fs[1..])
  }

  // ---------- The parser ----------

  /** The longest prefix whose characters satisfy `p`, and the rest. */
  function Span(p: char -> bool, s: string): (r: (string, string))
    ensures s == r.0 + r.1
    ensures forall c | c in r.0 :: p(c)
    ensures r.1 != "" ==> !p(r.1[0])
  {
    if s == "" || !p(s[0]) then ("", s)
    else
      var r := Span(p, s[1..]);
      ([s[0]] + r.0, r.1)
  }

  predicate At(s: string, i: nat, c: char) {
    i < |s| && s[i] == c
  }

  /** Reads the operator after the run of head characters: (operator, attribute, rest). */
  function ParseOp(head: string, s: string): (r: Option<(Op, string, string)>)
    ensures r.Some? ==> |r.value.2| < |s|
  {
    if head == "" then None
    else if At(s, 0, '=') then
      if head[|head| - 1] == ':' then
        if |head| == 1 then None else Some((Extensible, head[..|head| - 1], s[1..]))
      else if ':' in head then None
      else Some((Equal, head, s[1..]))
    else if ':' in head || !At(s, 1, '=') then None
    else if s[0] == '~' then Some((Approx, head, s[2..]))
    else if s[0] == '>' then Some((GreaterOrEqual, head, s[2..]))
    else if s[0] == '<' then Some((LessOrEqual, head, s[2..]))
    else None
  }

  function ParseItem(s: string): (r: Option<(Filter, string)>)
    ensures r.Some? ==> |r.value.1| < |s|
  {
    var (head, afterHead) := Span(IsHeadChar, s);
    var (op, attr, afterOp) :- ParseOp(head, afterHead);
    var (text, rest) := Span(NotParen, afterOp);
    var ps := Split(text);
    if forall p | p in ps :: Encoded(p) then
      var f :- MakeItem(op, attr, ps);
      Some((f, rest))
    else None
  }

  function Close(f: Filter, s: string): (r: Option<(Filter, string)>)
    ensures r.Some? ==> s == ")" + r.value.1 && r.value.0 == f
  {
    if At(s, 0, ')') then Some((f, s[1..])) else None
  }

  function ParseFilter(s: string): (r: Option<(Filter, string)>)
    ensures r.Some? ==> |r.value.1| < |s|
    decreases |s|, 0
  {
    if !At(s, 0, '(') then None
    else if At(s, 1, '&') then
      var (fs, rest) :- ParseList(s[2..]);
      Close(And(fs), rest)
    else if At(s, 1, '|') then
      var (fs, rest) :- ParseList(s[2..]);
      Close(Or(fs), rest)
    else if At(s, 1, '!') then
      var (f, rest) :- ParseFilter(s[2..]);
      Close(Not(f), rest)
    else
      var (f, rest) :- ParseItem(s[1..]);
      Close(f, rest)
  }

  function ParseList(s: string): (r: Option<(seq<Filter>, string)>)
    ensures r.Some? ==> |r.value.1| <= |s|
    decreases |s|, 1
  {
    if !At(s, 0, '(') then Some(([], s))
    else
      var (f, rest) :- ParseFilter(s);
      var (fs, rest') :- ParseList(rest);
      Some(([f] + fs, rest'))
  }

  /** A whole string as one filter. */
  function Parse(s: string): Option<Filter> {
    var (f, rest) :- ParseFilter(s);
    if rest == "" then Some(f) else None
  }

  // ---------- Trees: rewriting the values, and what a text means ----------

  function MapText(g: string -> string, ps: seq<string>): (r: seq<string>)
    ensures |r| == |ps|
  {
    if ps == [] then [] else [g(ps[0])] + MapText(g, ps[1..])
  }

  /** The same tree with `g` applied to every assertion value. */
  function MapValues(f: Filter, g: string -> string): Filter
    decreases f, 1
  {
    match f
    case And(parts) => And(MapAllValues(parts, g))
    case Or(parts) => Or(MapAllValues(parts, g))
    case Not(p) => Not(MapValues(p, g))
    case Compare(op, attr, v) => Compare(op, attr, g(v))
    case Present(attr) => f
    case Substring(attr, i, m, x) => Substring(attr, g(i), MapText(g, m), g(x))
  }

  function MapAllValues(fs: seq<Filter>, g: string -> string): (r: seq<Filter>)
    ensures |r| == |fs|
    decreases fs, 0
  {
    if fs == [] then [] else [MapValues(fs[0], g)] + MapAllValues(fs[1..], g)
  }

  /** A substring test without any text is written like, and is, a presence test. */
  predicate IsEmptySubstring(f: Filter) {
    f.Substring? && f.initial == "" && f.middle == [] && f.final == ""
  }

  function Canonical(f: Filter): Filter
    decreases f, 1
  {
    match f
    case And(parts) => And(CanonicalAll(parts))
    case Or(parts) => Or(CanonicalAll(parts))
    case Not(p) => Not(Canonical(p))
    case _ => if IsEmptySubstring(f) then Present(f.attr) else f
  }

  function CanonicalAll(fs: seq<Filter>): (r: seq<Filter>)
    ensures |r| == |fs|
    decreases fs, 0
  {
    if fs == [] then [] else [Canonical(fs[0])] + CanonicalAll(fs[1..])
  }

  function Decode(f: Filter): Filter {
    MapValues(f, DecodeValue)
  }

  /** The filter a text denotes, with its assertion values as octets. */
  function Meaning(s: string): Option<Filter> {
    var f :- Parse(s);
    Some(Decode(f))
  }

  // ---------- Splitting and joining at asterisks ----------

  lemma {:induction false} SpanIs(p: char -> bool, a: string, b: string)
    requires forall c | c in a :: p(c)
    requires b != "" ==> !p(b[0])
    ensures Span(p, a + b) == (a, b)
  {
    if a == "" {
      assert a + b == b;
    } else {
      assert (a + b)[1..] == a[1..] + b;
      SpanIs(p, a[1..], b);
      assert [a[0]] + a[1..] == a;
    }
  }

  lemma {:induction false} SplitPlain(a: string)
    requires '*' !in a
    ensures Split(a) == [a]
  {
    if a != "" {
      SplitPlain(a[1..]);
      assert [a[0]] + a[1..] == a;
    }
  }

  lemma {:induction false} SplitAtStar(a: string, b: string)
    requires '*' !in a
    ensures Split(a + "*" + b) == [a] + Split(b)
  {
    var s := a + "*" + b;
    if a == "" {
      assert s[1..] == b;
    } else {
      assert s[1..] == a[1..] + "*" + b;
      SplitAtStar(a[1..], b);
      assert [a[0]] + a[1..] == a;
      assert ([a[1..]] + Split(b))[1..] == Split(b);
    }
  }

  lemma {:induction false} SplitJoin(ps: seq<string>)
    requires |ps| >= 1 && forall p | p in ps :: '*' !in p
    ensures Split(Join(ps)) == ps
  {
    if |ps| == 1 {
      SplitPlain(ps[0]);
    } else {
      SplitAtStar(ps[0], Join(ps[1..]));
      SplitJoin(ps[1..]);
    }
  }

  lemma {:induction false} JoinSplit(s: string)
    ensures Join(Split(s)) == s
    ensures forall p | p in Split(s) :: '*' !in p
  {
    if s != "" {
      JoinSplit(s[1..]);
      var ps := Split(s[1..]);
      if s[0] != '*' {
        assert Split(s)[1..] == ps[1..];
      }
    }
  }

  lemma {:induction false} EncodedChars(v: string)
    requires Encoded(v)
    ensures forall c | c in v :: NotParen(c) && c != '*'
  {
    if v != "" {
      EncodedChars(v[Unit(v)..]);
      assert v == v[..Unit(v)] + v[Unit(v)..];
    }
  }

  lemma {:induction false} JoinNotParen(ps: seq<string>)
    requires |ps| >= 1 && forall p | p in ps :: Encoded(p)
    ensures forall c | c in Join(ps) :: NotParen(c)
  {
    EncodedChars(ps[0]);
    if |ps| > 1 {
      JoinNotParen(ps[1..]);
    }
  }

  // ---------- The parser and the printer are inverse to each other ----------

  lemma MakeItemPieces(f: Filter)
    requires IsItem(f) && WellFormed(f)
    ensures MakeItem(ItemOp(f), f.attr, Pieces(f)) == Some(f)
    ensures WellFormedAttr(ItemOp(f), f.attr)
    ensures forall p | p in Pieces(f) :: Encoded(p)
  {
    if f.Substring? {
      var ps := Pieces(f);
      assert ps[1..|ps| - 1] == f.middle;
      assert |ps| == 2 + |f.middle| && ps[0] == f.initial && ps[|ps| - 1] == f.final;
    }
  }

  lemma PiecesMakeItem(op: Op, attr: string, ps: seq<string>)
    requires |ps| >= 1 && MakeItem(op, attr, ps).Some?
    requires WellFormedAttr(op, attr) && forall p | p in ps :: Encoded(p)
    ensures var f := MakeItem(op, attr, ps).value;
            IsItem(f) && WellFormed(f) && ItemOp(f) == op && f.attr == attr && Pieces(f) == ps
  {
    if |ps| > 1 && ps != ["", ""] {
      assert ps == [ps[0]] + ps[1..|ps| - 1] + [ps[|ps| - 1]];
      if ps[1..|ps| - 1] == [] {
        assert ps == [ps[0], ps[1]];
      }
    }
  }

  lemma ParseExtensibleIs(attr: string, s: string)
    requires WellFormedAttr(Extensible, attr)
    ensures var (head, after) := Span(IsHeadChar, attr + ":=" + s);
            ParseOp(head, after) == Some((Extensible, attr, s))
  {
    var head, after := attr + ":", "=" + s;
    SpanIs(IsHeadChar, head, after);
    assert attr + ":=" + s == head + after;
    assert head[..|head| - 1] == attr && after[1..] == s;
  }

  lemma ParsePlainOpIs(op: Op, attr: string, s: string)
    requires op != Extensible && WellFormedAttr(op, attr)
    ensures ParseOp(attr, OpText(op) + s) == Some((op, attr, s))
  {
    var after := OpText(op) + s;
    assert after[|OpText(op)|..] == s && after[..|OpText(op)|] == OpText(op);
    assert attr[|attr| - 1] in attr;
  }

  lemma ParseOpIs(op: Op, attr: string, s: string)
    requires WellFormedAttr(op, attr)
    ensures var (head, after) := Span(IsHeadChar, attr + OpText(op) + s);
            ParseOp(head, after) == Some((op, attr, s))
  {
    if op == Extensible {
      ParseExtensibleIs(attr, s);
    } else {
      SpanIs(IsHeadChar, attr, OpText(op) + s);
      assert attr + OpText(op) + s == attr + (OpText(op) + s);
      ParsePlainOpIs(op, attr, s);
    }
  }

  lemma ParseOpText(head: string, s: string)
    requires ParseOp(head, s).Some? && forall c | c in head :: IsHeadChar(c)
    ensures var (op, attr, rest) := ParseOp(head, s).value;
            WellFormedAttr(op, attr) && head + s == attr + OpText(op) + rest
  {
    var (op, attr, rest) := ParseOp(head, s).value;
    assert OpText(op)[|OpText(op)| - 1] == '=';
    if op == Extensible {
      assert head == attr + ":" && s == "=" + rest;
    } else {
      assert s == OpText(op) + rest;
    }
  }

  lemma ParseItemPrinted(f: Filter, rest: string)
    requires IsItem(f) && WellFormed(f)
    ensures ParseItem(ItemText(f) + (")" + rest)) == Some((f, ")" + rest))
  {
    MakeItemPieces(f);
    var text := Join(Pieces(f));
    ParseOpIs(ItemOp(f), f.attr, text + (")" + rest));
    assert f.attr + OpText(ItemOp(f)) + text + (")" + rest)
        == f.attr + OpText(ItemOp(f)) + (text + (")" + rest));
    JoinNotParen(Pieces(f));
    SpanIs(NotParen, text, ")" + rest);
    forall p | p in Pieces(f) ensures '*' !in p {
      EncodedChars(p);
    }
    SplitJoin(Pieces(f));
  }

  lemma ParseItemText(s: string)
    requires ParseItem(s).Some?
    ensures var (f, rest) := ParseItem(s).value;
            && IsItem(f) && WellFormed(f)
            && s == ItemText(f) + rest
  {
    var (head, after) := Span(IsHeadChar, s);
    ParseOpText(head, after);
    var (op, attr, afterOp) := ParseOp(head, after).value;
    var (text, rest) := Span(NotParen, afterOp);
    PiecesMakeItem(op, attr, Split(text));
    JoinSplit(text);
    assert s == attr + OpText(op) + (text + rest);
  }

  lemma CloseText(f: Filter, rest: string)
    ensures Close(f, ")" + rest) == Some((f, rest))
  {
    assert (")" + rest)[1..] == rest;
  }

  lemma ParseListNode(s: string, f: Filter, rest: string)
    requires f.And? || f.Or?
    requires At(s, 0, '(') && At(s, 1, if f.And? then '&' else '|')
    requires ParseList(s[2..]) == Some((f.parts, ")" + rest))
    ensures ParseFilter(s) == Some((f, rest))
  {
    CloseText(f, rest);
  }

  lemma ParseNotNode(s: string, f: Filter, rest: string)
    requires f.Not? && At(s, 0, '(') && At(s, 1, '!')
    requires ParseFilter(s[2..]) == Some((f.part, ")" + rest))
    ensures ParseFilter(s) == Some((f, rest))
  {
    CloseText(f, rest);
  }

  lemma ParseItemNode(s: string, f: Filter, rest: string)
    requires At(s, 0, '(') && !At(s, 1, '&') && !At(s, 1, '|') && !At(s, 1, '!')
    requires ParseItem(s[1..]) == Some((f, ")" + rest))
    ensures ParseFilter(s) == Some((f, rest))
  {
    CloseText(f, rest);
  }

  lemma TextTail(open: string, inner: string, rest: string)
    ensures (open + inner + ")" + rest)[|open|..] == inner + (")" + rest)
  {
  }

  lemma ItemTextStarts(f: Filter)
    requires IsItem(f) && WellFormed(f)
    ensures ItemText(f) != "" && IsHeadChar(ItemText(f)[0])
  {
    MakeItemPieces(f);
    assert f.attr[0] in f.attr;
  }

  /** The text after the opening bracket, and after the connective when there is one. */
  lemma PrintTail(f: Filter, rest: string)
    requires WellFormed(f)
    ensures var s := Print(f) + rest;
            && At(s, 0, '(')
            && s[|Opening(f)|..] == Inner(f) + (")" + rest)
            && (f.And? <==> At(s, 1, '&')) && (f.Or? <==> At(s, 1, '|')) && (f.Not? <==> At(s, 1, '!'))
  {
    TextTail(Opening(f), Inner(f), rest);
    if IsItem(f) {
      ItemTextStarts(f);
    }
  }

  /** Parsing printed text gives back the filter and consumes exactly its text. */
  lemma {:induction false} ParsePrint(f: Filter, rest: string)
    requires WellFormed(f)
    ensures ParseFilter(Print(f) + rest) == Some((f, rest))
    decreases f, 1
  {
    var s := Print(f) + rest;
    PrintTail(f, rest);
    if f.And? || f.Or? {
      ParsePrintAll(f.parts, ")" + rest);
      ParseListNode(s, f, rest);
    } else if f.Not? {
      ParsePrint(f.part, ")" + rest);
      ParseNotNode(s, f, rest);
    } else {
      ParseItemPrinted(f, rest);
      ParseItemNode(s, f, rest);
    }
  }

  lemma ParseListCons(f: Filter, fs: seq<Filter>, tail: string, rest: string)
    requires ParseFilter(Print(f) + tail) == Some((f, tail))
    requires ParseList(tail) == Some((fs, rest))
    ensures ParseList(Print(f) + tail) == Some(([f] + fs, rest))
  {
    assert At(Print(f) + tail, 0, '(');
  }

  lemma PrintAllCons(f: Filter, fs: seq<Filter>, rest: string)
    ensures PrintAll([f] + fs) + rest == Print(f) + (PrintAll(fs) + rest)
  {
    assert ([f] + fs)[1..] == fs;
  }

  lemma {:induction false} ParsePrintAll(fs: seq<Filter>, rest: string)
    requires forall f | f in fs :: WellFormed(f)
    requires rest != "" && rest[0] == ')'
    ensures ParseList(PrintAll(fs) + rest) == Some((fs, rest))
    decreases fs, 0
  {
    if fs == [] {
      assert PrintAll(fs) + rest == rest;
    } else {
      var f, fs' := fs[0], fs[1..];
      var tail := PrintAll(fs') + rest;
      ParsePrint(f, tail);
      ParsePrintAll(fs', rest);
      ParseListCons(f, fs', tail, rest);
      PrintAllCons(f, fs', rest);
      assert fs == [f] + fs';
    }
  }

  lemma PrintedNode(f: Filter, s: string, rest: string)
    requires Opening(f) <= s && s[|Opening(f)|..] == Inner(f) + (")" + rest)
    ensures s == Print(f) + rest
  {
    assert s == Opening(f) + s[|Opening(f)|..];
    assert Print(f) + rest == Opening(f) + (Inner(f) + (")" + rest));
  }

  lemma ParsedShape(s: string)
    requires ParseFilter(s).Some?
    ensures var (f, rest) := ParseFilter(s).value;
            && At(s, 0, '(')
            && (f.And? ==> At(s, 1, '&') && ParseList(s[2..]) == Some((f.parts, ")" + rest)))
            && (f.Or? ==> At(s, 1, '|') && ParseList(s[2..]) == Some((f.parts, ")" + rest)))
            && (f.Not? ==> At(s, 1, '!') && ParseFilter(s[2..]) == Some((f.part, ")" + rest)))
            && (IsItem(f) ==> ParseItem(s[1..]) == Some((f, ")" + rest)))
  {
    if At(s, 0, '(') && !At(s, 1, '&') && !At(s, 1, '|') && !At(s, 1, '!') {
      ParseItemText(s[1..]);
    }
  }

  /** Whatever the parser accepts is a well-formed filter followed by the rest. */
  lemma {:induction false} PrintParse(s: string)
    requires ParseFilter(s).Some?
    ensures var (f, rest) := ParseFilter(s).value;
            WellFormed(f) && s == Print(f) + rest
    decreases |s|, 0
  {
    ParsedShape(s);
    var (f, rest) := ParseFilter(s).value;
    if f.And? || f.Or? {
      PrintParseAll(s[2..]);
    } else if f.Not? {
      PrintParse(s[2..]);
    } else {
      ParseItemText(s[1..]);
    }
    PrintedNode(f, s, rest);
  }

  lemma {:induction false} PrintParseAll(s: string)
    requires ParseList(s).Some?
    ensures var (fs, rest) := ParseList(s).value;
            (forall f | f in fs :: WellFormed(f)) && s == PrintAll(fs) + rest
    decreases |s|, 1
  {
    if At(s, 0, '(') {
      PrintParse(s);
      var (f, rest) := ParseFilter(s).value;
      PrintParseAll(rest);
      var (fs, rest') := ParseList(rest).value;
      PrintAllCons(f, fs, rest');
    }
  }

  /** The parser accepts exactly the texts of well-formed filters, and reads each in one way. */
  lemma ParseIff(s: string, f: Filter)
    ensures Parse(s) == Some(f) <==> WellFormed(f) && Print(f) == s
  {
    if WellFormed(f) && Print(f) == s {
      ParsePrint(f, "");
      assert Print(f) + "" == s;
    }
    if Parse(s) == Some(f) {
      PrintParse(s);
    }
  }
}
