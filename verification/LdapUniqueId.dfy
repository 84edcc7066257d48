/**
 Unique identifiers of LDAP entries: the canonical text of a binary UUID (section 3 of
 RFC 4122) and the filters built from lists of identifiers.
 */
module LdapUniqueId {
  import opened Wrappers
  import opened Rfc4515
  import opened LdapConfig

  predicate IsOctets(s: string) {
    forall i | 0 <= i < |s| :: s[i] as int < 256
  }

  predicate IsBinaryUuid(s: string) {
    |s| == 16 && IsOctets(s)
  }

  function HexDigit(n: nat): (c: char)
    requires n < 16
    ensures IsHex(c) && HexValue(c) == n
  {
    if n < 10 then '0' + n as char else 'a' + (n - 10) as char
  }

  /** Two lower-case hexadecimal digits per octet. */
  function HexText(octets: string): (r: string)
    requires IsOctets(octets)
    ensures |r| == 2 * |octets| && forall c | c in r :: IsHex(c)
  {
    if octets == "" then ""
    else [HexDigit(octets[0] as int / 16), HexDigit(octets[0] as int % 16)] + HexText(octets[1..])
  }

  /** `str(uuid.UUID(bytes=value))` */
  function CanonicalText(octets: string): string
    requires IsBinaryUuid(octets)
  {
    var h := HexText(octets);
    h[..8] + "-" + (h[8..12] + "-" + (h[12..16] + "-" + (h[16..20] + "-" + h[20..])))
  }

  function RemoveHyphens(s: string): string {
    if s == "" then ""
    else if s[0] == '-' then RemoveHyphens(s[1..])
    else [s[0]] + RemoveHyphens(s[1..])
  }

  function FromHex(h: string): (r: string)
    requires |h| % 2 == 0 && forall c | c in h :: IsHex(c)
    ensures |r| == |h| / 2 && IsOctets(r)
  {
    if h == "" then ""
    else [(16 * HexValue(h[0]) + HexValue(h[1])) as char] + FromHex(h[2..])
  }

  /** The 32 hexadecimal digits left once hyphens are dropped. */
  function DigitsUuid(text: string): (r: Option<string>)
    ensures r.Some? ==> IsBinaryUuid(r.value)
  {
    var h := RemoveHyphens(text);
    if |h| == 32 && forall c | c in h :: IsHex(c) then Some(FromHex(h)) else None
  }

  predicate StartsWith(s: string, word: string) {
    |word| <= |s| && forall i | 0 <= i < |word| :: s[i] == word[i]
  }

  /** `text.replace(word, '')` */
  function RemoveAll(s: string, word: string): string
    requires word != ""
  {
    if s == "" then ""
    else if StartsWith(s, word) then RemoveAll(s[|word|..], word)
    else [s[0]] + RemoveAll(s[1..], word)
  }

  predicate IsBrace(c: char) {
    c == '{' || c == '}'
  }

  /** `text.strip('{}')` */
  function StripBraces(s: string): string {
    if s == "" then ""
    else if IsBrace(s[0]) then StripBraces(s[1..])
    else if IsBrace(s[|s| - 1]) then StripBraces(s[..|s| - 1])
    else s
  }

  /** `uuid.UUID(text)`: the prefixes, the braces and the hyphens are ignored. */
  function ParseUuid(text: string): (r: Option<string>)
    ensures r.Some? ==> IsBinaryUuid(r.value)
  {
    DigitsUuid(StripBraces(RemoveAll(RemoveAll(text, "urn:"), "uuid:")))
  }

  function BackslashPairs(h: string): string
    requires |h| % 2 == 0
  {
    if h == "" then "" else ['\\', h[0], h[1]] + BackslashPairs(h[2..])
  }

  /** The escaped assertion value of a binary identifier; None when UUID raises ValueError. */
  function ConvertBinaryUid(uid: string): Option<string> {
    var octets :- ParseUuid(uid);
    Some(BackslashPairs(HexText(octets)))
  }

  datatype ListFilter = NoFilter | ListFilter(text: string) | InvalidUuid

  function UniqueItems(column: string, uids: seq<string>): seq<string> {
    if uids == [] then [] else ["(" + column + "=" + uids[0] + ")"] + UniqueItems(column, uids[1..])
  }

  function ConvertUids(cfg: Config, uids: seq<string>): Option<seq<string>> {
    if !cfg.binaryUuid then Some(uids)
    else if uids == [] then Some([])
    else
      var first :- ConvertBinaryUid(uids[0]);
      var rest :- ConvertUids(cfg, uids[1..]);
      Some([first] + rest)
  }

  function BuildListFilter(cfg: Config, uids: seq<string>): ListFilter
    requires cfg.uniqueColumn.Some?
  {
    if uids == [] then NoFilter
    else
      match ConvertUids(cfg, uids)
      case None => InvalidUuid
      case Some(values) => ListFilter(BuildFilterFromList(UniqueItems(cfg.uniqueColumn.value, values)))
  }

  // ---------- Binary identifiers ----------

  lemma {:induction false} RemoveHyphensConcat(a: string, b: string)
    ensures RemoveHyphens(a + b) == RemoveHyphens(a) + RemoveHyphens(b)
  {
    if a == "" {
      assert a + b == b;
    } else {
      assert (a + b)[1..] == a[1..] + b;
      RemoveHyphensConcat(a[1..], b);
    }
  }

  lemma {:induction false} RemoveNoHyphens(s: string)
    requires '-' !in s
    ensures RemoveHyphens(s) == s
  {
    if s != "" {
      RemoveNoHyphens(s[1..]);
    }
  }

  lemma RemoveHyphenBetween(a: string, b: string, h: string)
    requires '-' !in a && RemoveHyphens(b) == h
    ensures RemoveHyphens(a + "-" + b) == a + h
  {
    RemoveHyphensConcat(a + "-", b);
    RemoveHyphensConcat(a, "-");
    RemoveNoHyphens(a);
    assert "-"[1..] == "";
  }

  lemma HyphenAt(h: string, lo: nat, hi: nat, b: string)
    requires lo <= hi <= |h| && '-' !in h && RemoveHyphens(b) == h[hi..]
    ensures RemoveHyphens(h[lo..hi] + "-" + b) == h[lo..]
  {
    RemoveHyphenBetween(h[lo..hi], b, h[hi..]);
    assert h[lo..hi] + h[hi..] == h[lo..];
  }

  lemma {:induction false} FromHexText(octets: string)
    requires IsOctets(octets)
    ensures FromHex(HexText(octets)) == octets
  {
    if octets != "" {
      FromHexText(octets[1..]);
      assert HexText(octets)[2..] == HexText(octets[1..]);
      assert (16 * (octets[0] as int / 16) + octets[0] as int % 16) as char == octets[0];
    }
  }

  lemma DigitsOfCanonical(octets: string)
    requires IsBinaryUuid(octets)
    ensures DigitsUuid(CanonicalText(octets)) == Some(octets)
  {
    var h := HexText(octets);
    assert '-' !in h;
    RemoveNoHyphens(h[20..]);
    HyphenAt(h, 16, 20, h[20..]);
    var c := h[16..20] + "-" + h[20..];
    HyphenAt(h, 12, 16, c);
    var b := h[12..16] + "-" + c;
    HyphenAt(h, 8, 12, b);
    HyphenAt(h, 0, 8, h[8..12] + "-" + b);
    FromHexText(octets);
  }

  lemma {:induction false} RemoveAbsent(s: string, word: string)
    requires word != "" && word[0] !in s
    ensures RemoveAll(s, word) == s
  {
    if s != "" {
      RemoveAbsent(s[1..], word);
    }
  }

  lemma RemovePrefix(word: string, s: string)
    requires word != "" && word[0] !in s
    ensures RemoveAll(word + s, word) == s
  {
    assert StartsWith(word + s, word) && (word + s)[|word|..] == s;
    RemoveAbsent(s, word);
  }

  lemma StripBetween(s: string)
    requires s != "" && !IsBrace(s[0]) && !IsBrace(s[|s| - 1])
    ensures StripBraces("{" + s + "}") == s
  {
    var t := s + "}";
    var braced := "{" + s + "}";
    assert braced[0] == '{' && braced[1..] == t;
    assert t[0] == s[0] && t[|t| - 1] == '}' && t[..|t| - 1] == s;
    assert StripBraces(t) == StripBraces(s);
    assert StripBraces(s) == s;
  }

  predicate IsCanonicalChar(c: char) {
    IsHex(c) || c == '-'
  }

  lemma CanonicalChars(octets: string)
    requires IsBinaryUuid(octets)
    ensures CanonicalText(octets) != "" && forall c | c in CanonicalText(octets) :: IsCanonicalChar(c)
  {
    var h := HexText(octets);
    assert forall lo, hi, c | 0 <= lo <= hi <= |h| && c in h[lo..hi] :: c in h;
  }

  lemma PlainSpelling(text: string)
    requires 'u' !in text && text != "" && !IsBrace(text[0]) && !IsBrace(text[|text| - 1])
    ensures ParseUuid(text) == DigitsUuid(text)
  {
    RemoveAbsent(text, "urn:");
    RemoveAbsent(text, "uuid:");
    assert StripBraces(text) == text;
  }

  lemma SkipChar(s: string, word: string)
    requires |s| >= 2 && |word| >= 2 && s[1] != word[1]
    ensures RemoveAll(s, word) == [s[0]] + RemoveAll(s[1..], word)
  {
    assert !StartsWith(s, word);
  }

  lemma UrnPrefix(text: string)
    requires 'u' !in text
    ensures RemoveAll("urn:" + ("uuid:" + text), "urn:") == "uuid:" + text
  {
    var rest := "uuid:" + text;
    assert StartsWith("urn:" + rest, "urn:") && ("urn:" + rest)[4..] == rest;
    assert rest[1..] == "uid:" + text;
    assert rest[0] == 'u' && rest[1] == 'u' && "urn:"[1] == 'r';
    SkipChar(rest, "urn:");
    var tail := "uid:" + text;
    assert tail[0] == 'u' && tail[1] == 'i' && tail[1..] == "id:" + text;
    SkipChar(tail, "urn:");
    RemoveAbsent("id:" + text, "urn:");
    assert ['u'] + ("id:" + text) == tail && ['u'] + tail == rest;
  }

  lemma UrnSpelling(text: string)
    requires 'u' !in text && text != "" && !IsBrace(text[0]) && !IsBrace(text[|text| - 1])
    ensures ParseUuid("urn:" + ("uuid:" + text)) == DigitsUuid(text)
  {
    UrnPrefix(text);
    RemovePrefix("uuid:", text);
    assert StripBraces(text) == text;
  }

  lemma BracedSpelling(text: string)
    requires 'u' !in text && text != "" && !IsBrace(text[0]) && !IsBrace(text[|text| - 1])
    ensures ParseUuid("{" + text + "}") == DigitsUuid(text)
  {
    var braced := "{" + text + "}";
    RemoveAbsent(braced, "urn:");
    RemoveAbsent(braced, "uuid:");
    StripBetween(text);
  }

  predicate IsLowerHex(c: char) {
    '0' <= c <= '9' || 'a' <= c <= 'f'
  }

  /** Where the digit number `d` of a UUID stands in its canonical text. */
  function Place(d: nat): nat {
    d + (if d < 8 then 0 else if d < 12 then 1 else if d < 16 then 2 else if d < 20 then 3 else 4)
  }

  lemma {:induction false} HexTextAt(octets: string, i: nat)
    requires IsOctets(octets) && i < |octets|
    ensures var h := HexText(octets);
      && IsLowerHex(h[2 * i]) && IsLowerHex(h[2 * i + 1])
      && 16 * HexValue(h[2 * i]) + HexValue(h[2 * i + 1]) == octets[i] as int
  {
    if i > 0 {
      HexTextAt(octets[1..], i - 1);
      assert HexText(octets)[2..] == HexText(octets[1..]);
      assert HexText(octets)[2 * i] == HexText(octets[1..])[2 * (i - 1)];
      assert HexText(octets)[2 * i + 1] == HexText(octets[1..])[2 * (i - 1) + 1];
    }
  }

  lemma CanonicalAt(octets: string, d: nat)
    requires IsBinaryUuid(octets) && d < 32
    ensures |CanonicalText(octets)| == 36 && CanonicalText(octets)[Place(d)] == HexText(octets)[d]
  {
  }

  /** The canonical text: groups of 8, 4, 4, 4 and 12 lower-case digits, two for each octet, the high one first. */
  lemma CanonicalShape(octets: string)
    requires IsBinaryUuid(octets)
    ensures var text := CanonicalText(octets);
      && |text| == 36 && text[8] == text[13] == text[18] == text[23] == '-'
      && (forall d | 0 <= d < 32 :: IsLowerHex(text[Place(d)]))
      && (forall i: nat | i < 16 ::
            octets[i] as int == 16 * HexValue(text[Place(2 * i)]) + HexValue(text[Place(2 * i + 1)]))
  {
    var text := CanonicalText(octets);
    forall d: nat | d < 32 ensures |text| == 36 && IsLowerHex(text[Place(d)]) {
      CanonicalAt(octets, d);
      HexTextAt(octets, d / 2);
    }
    forall i: nat | i < 16
      ensures octets[i] as int == 16 * HexValue(text[Place(2 * i)]) + HexValue(text[Place(2 * i + 1)])
    {
      CanonicalAt(octets, 2 * i);
      CanonicalAt(octets, 2 * i + 1);
      HexTextAt(octets, i);
    }
  }

  /** Reading the canonical text of 16 octets gives back those octets, also as a URN or in braces. */
  lemma ParseCanonical(octets: string)
    requires IsBinaryUuid(octets)
    ensures ParseUuid(CanonicalText(octets)) == Some(octets)
    ensures ParseUuid("urn:" + ("uuid:" + CanonicalText(octets))) == Some(octets)
    ensures ParseUuid("{" + CanonicalText(octets) + "}") == Some(octets)
  {
    var text := CanonicalText(octets);
    CanonicalChars(octets);
    DigitsOfCanonical(octets);
    assert text[0] in text && text[|text| - 1] in text;
    assert !IsCanonicalChar('u') && !IsCanonicalChar('{') && !IsCanonicalChar('}');
    PlainSpelling(text);
    UrnSpelling(text);
    BracedSpelling(text);
  }

  lemma PairFirst(a: char, b: char, rest: string)
    requires IsHex(a) && IsHex(b) && Encoded(rest)
    ensures Encoded(['\\', a, b] + rest)
    ensures DecodeValue(['\\', a, b] + rest) == [(16 * HexValue(a) + HexValue(b)) as char] + DecodeValue(rest)
  {
    assert (['\\', a, b] + rest)[3..] == rest;
  }

  lemma {:induction false} PairsDecode(h: string)
    requires |h| % 2 == 0 && forall c | c in h :: IsHex(c)
    ensures Encoded(BackslashPairs(h)) && DecodeValue(BackslashPairs(h)) == FromHex(h)
  {
    if h != "" {
      PairsDecode(h[2..]);
      PairFirst(h[0], h[1], BackslashPairs(h[2..]));
    }
  }

  /** Whatever spelling of a UUID is given, its assertion value stands for the 16 octets. */
  lemma ConvertedUidDecodes(uid: string, octets: string)
    requires ParseUuid(uid) == Some(octets)
    ensures ConvertBinaryUid(uid).Some?
    ensures var v := ConvertBinaryUid(uid).value; Encoded(v) && DecodeValue(v) == octets
  {
    PairsDecode(HexText(octets));
    FromHexText(octets);
  }

  /**
   An identifier shown in a result and fed back to the list filter becomes an assertion
   value of the very same octets, and different identifiers become different values.
   */
  lemma BinaryUidRoundTrip(a: string, b: string)
    requires IsBinaryUuid(a) && IsBinaryUuid(b)
    ensures var va, vb := ConvertBinaryUid(CanonicalText(a)), ConvertBinaryUid(CanonicalText(b));
            && va.Some? && vb.Some?
            && Encoded(va.value) && DecodeValue(va.value) == a
            && (va == vb <==> a == b)
  {
    ParseCanonical(a);
    ParseCanonical(b);
    ConvertedUidDecodes(CanonicalText(a), a);
    ConvertedUidDecodes(CanonicalText(b), b);
  }

  function UniqueTests(column: string, values: seq<string>): seq<Filter> {
    if values == [] then []
    else [Compare(Equal, column, values[0])] + UniqueTests(column, values[1..])
  }

  lemma UniqueItemsCons(column: string, value: string, rest: seq<string>, ids: seq<string>)
    requires WellFormedAttr(Equal, column) && ids != []
    requires Encoded(value) && DecodeValue(value) == ids[0]
    requires Denotes(UniqueItems(column, rest), UniqueTests(column, ids[1..]))
    ensures Denotes(UniqueItems(column, [value] + rest), UniqueTests(column, ids))
  {
    ExactItemDenotes(column, value);
    assert ([value] + rest)[1..] == rest;
    assert UniqueItems(column, [value] + rest) == ["(" + column + "=" + value + ")"] + UniqueItems(column, rest);
    assert UniqueTests(column, ids) == [Compare(Equal, column, ids[0])] + UniqueTests(column, ids[1..]);
  }

  lemma {:induction false} ConvertedUidsDenote(cfg: Config, uids: seq<string>, ids: seq<string>)
    requires cfg.binaryUuid && cfg.uniqueColumn.Some? && WellFormedAttr(Equal, cfg.uniqueColumn.value)
    requires |uids| == |ids| && forall i | 0 <= i < |uids| :: ParseUuid(uids[i]) == Some(ids[i])
    ensures ConvertUids(cfg, uids).Some?
    ensures Denotes(UniqueItems(cfg.uniqueColumn.value, ConvertUids(cfg, uids).value),
                    UniqueTests(cfg.uniqueColumn.value, ids))
  {
    if uids != [] {
      assert ParseUuid(uids[0]) == Some(ids[0]);
      ConvertedUidDecodes(uids[0], ids[0]);
      forall i | 0 <= i < |uids| - 1 ensures ParseUuid(uids[1..][i]) == Some(ids[1..][i]) {
        assert uids[1..][i] == uids[i + 1] && ids[1..][i] == ids[i + 1];
      }
      ConvertedUidsDenote(cfg, uids[1..], ids[1..]);
      var value, rest := ConvertBinaryUid(uids[0]).value, ConvertUids(cfg, uids[1..]).value;
      assert ConvertUids(cfg, uids).value == [value] + rest;
      UniqueItemsCons(cfg.uniqueColumn.value, value, rest, ids);
    }
  }

  /** The list filter of binary identifiers tests the unique column for exactly their octets. */
  lemma BinaryListFilterDenotes(cfg: Config, uids: seq<string>, ids: seq<string>)
    requires cfg.binaryUuid && cfg.uniqueColumn.Some? && WellFormedAttr(Equal, cfg.uniqueColumn.value)
    requires uids != [] && |uids| == |ids|
    requires forall i | 0 <= i < |uids| :: ParseUuid(uids[i]) == Some(ids[i])
    ensures BuildListFilter(cfg, uids).ListFilter?
    ensures Meaning(BuildListFilter(cfg, uids).text) == Some(OrOf(UniqueTests(cfg.uniqueColumn.value, ids)))
  {
    ConvertedUidsDenote(cfg, uids, ids);
    OrDenotes(UniqueItems(cfg.uniqueColumn.value, ConvertUids(cfg, uids).value),
              UniqueTests(cfg.uniqueColumn.value, ids));
  }

  lemma {:induction false} ConvertUidsIff(cfg: Config, uids: seq<string>)
    requires cfg.binaryUuid
    ensures ConvertUids(cfg, uids).Some? <==> forall i | 0 <= i < |uids| :: ParseUuid(uids[i]).Some?
  {
    if uids != [] {
      ConvertUidsIff(cfg, uids[1..]);
      assert forall i | 0 <= i < |uids| - 1 :: uids[1..][i] == uids[i + 1];
    }
  }

  /** With binary identifiers, the filter cannot be built exactly when one of them is not a UUID. */
  lemma ListFilterRaisesIff(cfg: Config, uids: seq<string>)
    requires cfg.uniqueColumn.Some? && cfg.binaryUuid
    ensures BuildListFilter(cfg, uids) == InvalidUuid <==> exists i | 0 <= i < |uids| :: ParseUuid(uids[i]).None?
  {
    ConvertUidsIff(cfg, uids);
  }

  // ---------- Textual identifiers are not escaped ----------

  /** No character of the identifier needs escaping. */
  predicate AllNormal(uid: string) {
    forall c | c in uid :: IsNormal(c)
  }

  lemma {:induction false} DecodeShrinks(v: string)
    ensures |DecodeValue(v)| <= |v|
    ensures Encoded(v) && DecodeValue(v) == v ==> forall c | c in v :: IsNormal(c)
  {
    if v != "" {
      DecodeShrinks(v[Unit(v)..]);
      if Unit(v) == 1 {
        assert DecodeValue(v)[1..] == DecodeValue(v[1..]);
        assert v == [v[0]] + v[1..];
      }
    }
  }

  lemma {:induction false} NormalDecodes(v: string)
    requires forall c | c in v :: IsNormal(c)
    ensures Encoded(v) && DecodeValue(v) == v
  {
    if v != "" {
      NormalDecodes(v[1..]);
    }
  }

  lemma BetweenUnique(head: string, a: string, b: string)
    requires head + a + ")" == head + b + ")"
    ensures a == b
  {
    var s := head + a + ")";
    assert a == s[|head|..|s| - 1] && b == (head + b + ")")[|head|..|s| - 1];
  }

  lemma EqualTextUnique(column: string, uid: string, raw: Filter)
    requires Decode(raw) == Compare(Equal, column, uid)
    requires Print(raw) == "(" + column + "=" + uid + ")"
    ensures raw == Compare(Equal, column, uid)
  {
    assert raw.Compare? && raw.op == Equal && raw.attr == column;
    var head := "(" + column + "=";
    PrintItem(raw, head);
    assert Join(Pieces(raw)) == raw.value;
    BetweenUnique(head, raw.value, uid);
  }

  /**
   The filter of a textual identifier compares with exactly it if and only if it holds none of the
   characters that the escaping rule covers.
   */
  lemma TextUidDenotesItself(column: string, uid: string)
    requires WellFormedAttr(Equal, column)
    ensures Meaning("(" + column + "=" + uid + ")") == Some(Compare(Equal, column, uid))
       <==> AllNormal(uid)
  {
    var text := "(" + column + "=" + uid + ")";
    if AllNormal(uid) {
      NormalDecodes(uid);
      ExactItemDenotes(column, uid);
    } else if Meaning(text) == Some(Compare(Equal, column, uid)) {
      var raw := Parse(text).value;
      ParseIff(text, raw);
      EqualTextUnique(column, uid, raw);
      DecodeShrinks(uid);
      assert false;
    }
  }

  /** An assertion value as long as what it stands for has no escape in it. */
  lemma {:induction false} SameLengthIsNormal(v: string)
    requires Encoded(v) && |DecodeValue(v)| == |v|
    ensures DecodeValue(v) == v && forall c | c in v :: IsNormal(c)
  {
    if v != "" {
      DecodeShrinks(v[Unit(v)..]);
      SameLengthIsNormal(v[1..]);
      assert v == [v[0]] + v[1..];
    }
  }

  lemma {:induction false} NormalUidsDenote(column: string, uids: seq<string>)
    requires WellFormedAttr(Equal, column) && forall u | u in uids :: AllNormal(u)
    ensures Denotes(UniqueItems(column, uids), UniqueTests(column, uids))
  {
    if uids != [] {
      NormalUidsDenote(column, uids[1..]);
      assert uids[0] in uids;
      NormalDecodes(uids[0]);
      assert uids == [uids[0]] + uids[1..];
      UniqueItemsCons(column, uids[0], uids[1..], uids);
    }
  }

  /** The text of a test for an identifier is at least as long as the unescaped one, and longer if it has an escape. */
  lemma TestLength(column: string, uid: string, raw: Filter)
    requires WellFormed(raw) && Decode(raw) == Compare(Equal, column, uid)
    ensures |Print(raw)| >= |"(" + column + "=" + uid + ")"|
    ensures |Print(raw)| == |"(" + column + "=" + uid + ")"| ==> AllNormal(uid)
  {
    assert raw.Compare? && raw.op == Equal && raw.attr == column;
    PrintItem(raw, "(" + column + "=");
    assert Join(Pieces(raw)) == raw.value;
    DecodeShrinks(raw.value);
    if |raw.value| == |uid| {
      SameLengthIsNormal(raw.value);
    }
  }

  lemma ItemsLength(column: string, uids: seq<string>)
    requires uids != []
    ensures |Concat(UniqueItems(column, uids))|
         == |"(" + column + "=" + uids[0] + ")"| + |Concat(UniqueItems(column, uids[1..]))|
  {
    var item, rest := "(" + column + "=" + uids[0] + ")", UniqueItems(column, uids[1..]);
    assert ([item] + rest)[1..] == rest;
  }

  lemma {:induction false} TestsLength(column: string, uids: seq<string>, raws: seq<Filter>)
    requires forall f | f in raws :: WellFormed(f)
    requires MapAllValues(raws, DecodeValue) == UniqueTests(column, uids)
    ensures |PrintAll(raws)| >= |Concat(UniqueItems(column, uids))|
    ensures |PrintAll(raws)| == |Concat(UniqueItems(column, uids))| ==> forall u | u in uids :: AllNormal(u)
  {
    if uids == [] {
      assert raws == [] || MapAllValues(raws, DecodeValue) != [];
    } else {
      assert raws != [];
      var tests := UniqueTests(column, uids);
      assert tests[0] == Compare(Equal, column, uids[0]) && tests[1..] == UniqueTests(column, uids[1..]);
      assert MapAllValues(raws, DecodeValue)[1..] == MapAllValues(raws[1..], DecodeValue);
      TestLength(column, uids[0], raws[0]);
      TestsLength(column, uids[1..], raws[1..]);
      ItemsLength(column, uids);
      assert uids == [uids[0]] + uids[1..];
    }
  }

  lemma {:induction uids} UniqueLengths(column: string, uids: seq<string>)
    ensures |UniqueItems(column, uids)| == |UniqueTests(column, uids)| == |uids|
  {
  }

  lemma ListTextIsNormal(column: string, uids: seq<string>, text: string)
    requires text == "(|" + Concat(UniqueItems(column, uids)) + ")"
    requires Meaning(text) == Some(Or(UniqueTests(column, uids)))
    ensures forall u | u in uids :: AllNormal(u)
  {
    var raw := Parse(text).value;
    ParseIff(text, raw);
    assert raw.Or? && MapAllValues(raw.parts, DecodeValue) == UniqueTests(column, uids);
    assert |Print(raw)| == |"(|"| + |PrintAll(raw.parts)| + 1;
    TestsLength(column, uids, raw.parts);
  }

  /**
   The list filter of textual identifiers compares the unique column with exactly those identifiers if and
   only if none of them holds a character that the escaping rule covers.
   */
  lemma TextListDenotesItself(cfg: Config, uids: seq<string>)
    requires cfg.uniqueColumn.Some? && WellFormedAttr(Equal, cfg.uniqueColumn.value) && !cfg.binaryUuid && uids != []
    ensures BuildListFilter(cfg, uids).ListFilter?
    ensures Meaning(BuildListFilter(cfg, uids).text) == Some(OrOf(UniqueTests(cfg.uniqueColumn.value, uids)))
       <==> forall u | u in uids :: AllNormal(u)
  {
    var column := cfg.uniqueColumn.value;
    var text, tests := BuildListFilter(cfg, uids).text, UniqueTests(column, uids);
    UniqueLengths(column, uids);
    if forall u | u in uids :: AllNormal(u) {
      NormalUidsDenote(column, uids);
      OrDenotes(UniqueItems(column, uids), tests);
    }
    if Meaning(text) == Some(OrOf(tests)) {
      if |uids| == 1 {
        TextUidDenotesItself(column, uids[0]);
        assert uids == [uids[0]];
      } else {
        ListTextIsNormal(column, uids, text);
      }
    }
  }

  lemma PresenceDenotes(column: string)
    requires WellFormedAttr(Equal, column)
    ensures Meaning("(" + column + "=" + "*" + ")") == Some(Present(column))
  {
    var f := Present(column);
    assert ["", ""][1..] == [""];
    assert Join(Pieces(f)) == "*";
    PrintItem(f, "(" + column + "=");
    PrintDenotes(f);
  }

  /** The identifier "*" makes a filter that every entry having the column satisfies. */
  lemma StarUidTestsPresence(cfg: Config)
    requires cfg.uniqueColumn.Some? && WellFormedAttr(Equal, cfg.uniqueColumn.value) && !cfg.binaryUuid
    ensures BuildListFilter(cfg, ["*"]).ListFilter?
    ensures Meaning(BuildListFilter(cfg, ["*"]).text) == Some(Present(cfg.uniqueColumn.value))
  {
    var column := cfg.uniqueColumn.value;
    PresenceDenotes(column);
    assert ["*"][1..] == [];
    assert UniqueItems(column, ["*"]) == ["(" + column + "=" + "*" + ")"] + UniqueItems(column, []);
  }
}
