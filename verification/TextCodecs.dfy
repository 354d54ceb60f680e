/** src/service-manager-probe.ts: the decoders applied to service definitions and task listings. */
module TextCodecs {
  import opened TextLines

  // ---------- XML entities

  /** `text.replace(/entity/g, by)` for a literal entity. */
  function ReplaceAll(text: string, entity: string, replacement: string): string
    requires entity != ""
    decreases |text|
  {
    if text == "" then ""
    else if entity <= text then replacement + ReplaceAll(text[|entity|..], entity, replacement)
    else [text[0]] + ReplaceAll(text[1..], entity, replacement)
  }

  const SPECIAL := {'<', '>', '"', '\'', '&'}

  function EntityOf(c: char): string {
    match c
    case '<' => "&lt;"
    case '>' => "&gt;"
    case '"' => "&quot;"
    case '\'' => "&apos;"
    case _ => "&amp;"
  }

  /** The writer: each special character of `escaped` becomes its entity, one character at a time. */
  function Escape(s: string, escaped: set<char>): string {
    if s == "" then ""
    else (if s[0] in escaped then EntityOf(s[0]) else [s[0]]) + Escape(s[1..], escaped)
  }

  /** The decoder of task definitions. */
  function DecodeXmlEntities(value: string): string {
    ReplaceAll(ReplaceAll(ReplaceAll(ReplaceAll(ReplaceAll(
      value, "&quot;", "\""), "&lt;", "<"), "&gt;", ">"), "&apos;", "'"), "&amp;", "&")
  }

  /** The decoder of property lists: the same replacements in another order, `&amp;` last again. */
  function PlistStringValue(raw: string): string {
    ReplaceAll(ReplaceAll(ReplaceAll(ReplaceAll(ReplaceAll(
      raw, "&lt;", "<"), "&gt;", ">"), "&quot;", "\""), "&apos;", "'"), "&amp;", "&")
  }

  /** No occurrence of the entity starts inside `head`, whatever follows. */
  ghost predicate Inert(head: string, entity: string) {
    forall i, rest: string :: 0 <= i < |head| ==> !OccursFrom(entity, head, i, rest)
  }

  ghost predicate OccursFrom(entity: string, head: string, i: int, rest: string)
    requires 0 <= i < |head|
  {
    entity <= head[i..] + rest
  }

  lemma {:induction false} InertPasses(head: string, rest: string, entity: string, replacement: string)
    requires entity != "" && Inert(head, entity)
    ensures ReplaceAll(head + rest, entity, replacement) == head + ReplaceAll(rest, entity, replacement)
    decreases |head|
  {
    if head == "" {
      assert head + rest == rest;
    } else {
      assert !OccursFrom(entity, head, 0, rest);
      assert head[0..] + rest == head + rest;
      assert (head + rest)[1..] == head[1..] + rest;
      forall i, r: string | 0 <= i < |head[1..]| ensures !OccursFrom(entity, head[1..], i, r) {
        assert head[1..][i..] == head[i + 1..];
        assert !OccursFrom(entity, head, i + 1, r);
      }
      InertPasses(head[1..], rest, entity, replacement);
    }
  }

  /** An entity starts with an ampersand, and has no second one. */
  lemma EntityShape(c: char)
    requires c in SPECIAL
    ensures var e := EntityOf(c); |e| >= 4 && e[0] == '&' && forall i :: 0 < i < |e| ==> e[i] != '&'
  {
  }

  lemma EntitiesDiffer(c: char, d: char)
    requires c in SPECIAL && d in SPECIAL && c != d
    ensures EntityOf(c)[1] != EntityOf(d)[1] || EntityOf(c)[2] != EntityOf(d)[2]
  {
  }

  lemma DiffersAt(entity: string, head: string, i: int, rest: string, k: nat)
    requires 0 <= i && i + k < |head| && k < |entity| && entity[k] != head[i + k]
    ensures !OccursFrom(entity, head, i, rest)
  {
    assert (head[i..] + rest)[k] == head[i + k];
  }

  /** Neither an unescaped character nor another character's entity is mistaken for `c`'s entity. */
  lemma OthersInert(c: char, d: char)
    requires c in SPECIAL
    ensures d != '&' ==> Inert([d], EntityOf(c))
    ensures d in SPECIAL && d != c ==> Inert(EntityOf(d), EntityOf(c))
  {
    EntityShape(c);
    var e := EntityOf(c);
    if d != '&' {
      forall i, rest: string | 0 <= i < |[d]| ensures !OccursFrom(e, [d], i, rest) {
        DiffersAt(e, [d], i, rest, 0);
      }
    }
    if d in SPECIAL && d != c {
      EntityShape(d);
      EntitiesDiffer(c, d);
      var other := EntityOf(d);
      forall i, rest: string | 0 <= i < |other| ensures !OccursFrom(e, other, i, rest) {
        DiffersAt(e, other, i, rest, if i > 0 then 0 else if e[1] != other[1] then 1 else 2);
      }
    }
  }

  /** One global replacement undoes the escaping of its character and nothing else, while `&` stays escaped. */
  lemma {:induction false} ReplaceUnescapes(s: string, escaped: set<char>, c: char)
    requires c in escaped && escaped <= SPECIAL && (c != '&' ==> '&' in escaped) && (c == '&' ==> escaped == {'&'})
    ensures EntityOf(c) != "" && ReplaceAll(Escape(s, escaped), EntityOf(c), [c]) == Escape(s, escaped - {c})
  {
    EntityShape(c);
    if s != "" {
      ReplaceUnescapes(s[1..], escaped, c);
      var rest := Escape(s[1..], escaped);
      var e := EntityOf(c);
      if s[0] == c {
        assert e <= e + rest && (e + rest)[|e|..] == rest;
      } else {
        OthersInert(c, s[0]);
        InertPasses(if s[0] in escaped then EntityOf(s[0]) else [s[0]], rest, e, [c]);
      }
    }
  }

  lemma {:induction false} NothingEscaped(s: string)
    ensures Escape(s, {}) == s
  {
    if s != "" { NothingEscaped(s[1..]); }
  }

  /** The ampersand comes last. */
  lemma LastAmpersand(s: string)
    ensures ReplaceAll(Escape(s, {'&'}), "&amp;", "&") == s
  {
    ReplaceUnescapes(s, {'&'}, '&');
    assert {'&'} - {'&'} == {};
    NothingEscaped(s);
  }

  lemma XmlInvertsEscape(s: string)
    ensures DecodeXmlEntities(Escape(s, SPECIAL)) == s
  {
    ReplaceUnescapes(s, SPECIAL, '"');
    ReplaceUnescapes(s, SPECIAL - {'"'}, '<');
    ReplaceUnescapes(s, SPECIAL - {'"'} - {'<'}, '>');
    ReplaceUnescapes(s, SPECIAL - {'"'} - {'<'} - {'>'}, '\'');
    assert SPECIAL - {'"'} - {'<'} - {'>'} - {'\''} == {'&'};
    LastAmpersand(s);
  }

  lemma PlistInvertsEscape(s: string)
    ensures PlistStringValue(Escape(s, SPECIAL)) == s
  {
    ReplaceUnescapes(s, SPECIAL, '<');
    ReplaceUnescapes(s, SPECIAL - {'<'}, '>');
    ReplaceUnescapes(s, SPECIAL - {'<'} - {'>'}, '"');
    ReplaceUnescapes(s, SPECIAL - {'<'} - {'>'} - {'"'}, '\'');
    assert SPECIAL - {'<'} - {'>'} - {'"'} - {'\''} == {'&'};
    LastAmpersand(s);
  }

  /** Both decoders invert the per-character escaping, for every string: the double-escaped ones included. */
  lemma DecodersInvertEscape(s: string)
    ensures DecodeXmlEntities(Escape(s, SPECIAL)) == s
    ensures PlistStringValue(Escape(s, SPECIAL)) == s
  {
    XmlInvertsEscape(s);
    PlistInvertsEscape(s);
  }

  lemma EscapedLessThan()
    ensures Escape("&lt;", SPECIAL) == "&amp;lt;"
  {
    assert "&lt;"[1..] == "lt;" && "lt;"[1..] == "t;" && "t;"[1..] == ";" && ";"[1..] == "";
    assert Escape(";", SPECIAL) == ";";
    assert Escape("t;", SPECIAL) == "t;";
    assert Escape("lt;", SPECIAL) == "lt;";
  }

  lemma NoEntityLeft()
    ensures ReplaceAll("lt;", "&amp;", "&") == "lt;"
  {
    assert "lt;"[1..] == "t;" && "t;"[1..] == ";" && ";"[1..] == "";
    assert ReplaceAll(";", "&amp;", "&") == ";";
    assert ReplaceAll("t;", "&amp;", "&") == "t;";
  }

  /** Why `&amp;` has to go last: decoding it first turns a literal "&lt;" into "<". */
  lemma AmpersandFirstLosesText()
    ensures Escape("&lt;", SPECIAL) == "&amp;lt;"
    ensures ReplaceAll(ReplaceAll("&amp;lt;", "&amp;", "&"), "&lt;", "<") == "<"
    ensures "<" != "&lt;"
  {
    EscapedLessThan();
    NoEntityLeft();
    assert "&amp;lt;"[5..] == "lt;" && "&lt;"[4..] == "";
    assert ReplaceAll("&amp;lt;", "&amp;", "&") == "&lt;";
  }

  // ---------- the first CSV field

  /** The writer: a quoted field with its quotes doubled (section 2 of RFC 4180). */
  function QuoteBody(field: string): string {
    if field == "" then ""
    else (if field[0] == '"' then "\"\"" else [field[0]]) + QuoteBody(field[1..])
  }

  function QuoteField(field: string): string {
    "\"" + QuoteBody(field) + "\""
  }

  /** The value read from just behind the opening quote. */
  function UnquoteFrom(s: string): string
    decreases |s|
  {
    if s == "" then ""
    else if s[0] != '"' then [s[0]] + UnquoteFrom(s[1..])
    else if |s| > 1 && s[1] == '"' then "\"" + UnquoteFrom(s[2..])
    else ""
  }

  function BeforeComma(s: string): string {
    if s == "" || s[0] == ',' then "" else [s[0]] + BeforeComma(s[1..])
  }

  /** What the first field of a listing line is. */
  function FirstField(line: string): string {
    var trimmed := Trim(line);
    if trimmed == "" || trimmed[0] != '"' then Trim(BeforeComma(trimmed)) else UnquoteFrom(trimmed[1..])
  }

  method CsvFirstField(line: string) returns (value: string)
    ensures value == FirstField(line)
  {
    var trimmed := Trim(line);
    if trimmed == "" || trimmed[0] != '"' { return Trim(BeforeComma(trimmed)); }
    value := "";
    var i := 1;
    while i < |trimmed|
      invariant 1 <= i <= |trimmed|
      invariant value + UnquoteFrom(trimmed[i..]) == UnquoteFrom(trimmed[1..])
    {
      var ch := trimmed[i];
      ghost var s := trimmed[i..];
      assert s[1..] == trimmed[i + 1..] && (|s| > 1 ==> s[1] == trimmed[i + 1] && s[2..] == trimmed[i + 2..]);
      if ch != '"' {
        assert value + ([ch] + UnquoteFrom(s[1..])) == (value + [ch]) + UnquoteFrom(s[1..]);
        value := value + [ch];
        i := i + 1;
      } else if i + 1 < |trimmed| && trimmed[i + 1] == '"' {
        assert value + ("\"" + UnquoteFrom(s[2..])) == (value + "\"") + UnquoteFrom(s[2..]);
        value := value + "\"";
        i := i + 2;
      } else {
        return;
      }
    }
  }

  lemma {:induction false} UnquoteInverts(field: string, rest: string)
    requires rest == "" || rest[0] != '"'
    ensures UnquoteFrom(QuoteBody(field) + "\"" + rest) == field
    decreases |field|
  {
    var s := QuoteBody(field) + "\"" + rest;
    if field == "" {
      assert s == "\"" + rest;
    } else {
      UnquoteInverts(field[1..], rest);
      var tail := QuoteBody(field[1..]) + "\"" + rest;
      if field[0] == '"' {
        assert s == "\"\"" + tail && s[2..] == tail;
      } else {
        assert s == [field[0]] + tail && s[1..] == tail;
      }
    }
  }

  lemma {:induction false} TrimEndKeepsHead(head: string, rest: string)
    requires head != "" && !IsSpace(head[|head| - 1])
    ensures exists k :: 0 <= k <= |rest| && TrimEnd(head + rest) == head + rest[..k]
    decreases |rest|
  {
    if rest == "" {
      assert head + rest == head && head == head + rest[..0];
    } else if IsSpace(rest[|rest| - 1]) {
      var shorter := rest[..|rest| - 1];
      assert (head + rest)[..|head + rest| - 1] == head + shorter;
      TrimEndKeepsHead(head, shorter);
      var k :| 0 <= k <= |shorter| && TrimEnd(head + shorter) == head + shorter[..k];
      assert shorter[..k] == rest[..k];
    } else {
      assert rest[..|rest|] == rest;
    }
  }

  /** The reader returns the field that was written, whatever the following columns are. */
  lemma FirstFieldInverts(field: string, rest: string)
    requires rest == "" || rest[0] != '"'
    ensures FirstField(QuoteField(field) + rest) == field
  {
    var head := QuoteField(field);
    TrimEndKeepsHead(head, rest);
    var k :| 0 <= k <= |rest| && TrimEnd(head + rest) == head + rest[..k];
    assert head[0] == '"';
    assert TrimStart(head + rest) == head + rest;
    var kept := rest[..k];
    assert (head + kept)[1..] == QuoteBody(field) + "\"" + kept;
    UnquoteInverts(field, kept);
  }

  /** A field without quotes ends at the first comma. */
  lemma {:induction false} BeforeCommaIs(field: string, rest: string)
    requires ',' !in field && (rest == "" || rest[0] == ',')
    ensures BeforeComma(field + rest) == field
  {
    if field == "" {
      assert field + rest == rest;
    } else {
      assert (field + rest)[1..] == field[1..] + rest && field[0] in field;
      BeforeCommaIs(field[1..], rest);
    }
  }

  /** An unquoted field is read back too, less the white space around it. */
  lemma PlainFieldRead(line: string, field: string, rest: string)
    requires Trimmed(line, field + rest) && ',' !in field && (rest == "" || rest[0] == ',')
    requires field + rest == "" || (field + rest)[0] != '"'
    ensures FirstField(line) == Trim(field)
  {
    TrimIff(line, field + rest);
    BeforeCommaIs(field, rest);
  }

  lemma EscapedAlone(c: char)
    requires c in SPECIAL
    ensures Escape([c], SPECIAL) == EntityOf(c)
  {
    assert [c][1..] == "" && Escape("", SPECIAL) == "";
  }

  lemma EntityDecoded(c: char)
    requires c in SPECIAL
    ensures DecodeXmlEntities(EntityOf(c)) == [c] && PlistStringValue(EntityOf(c)) == [c]
  {
    EscapedAlone(c);
    DecodersInvertEscape([c]);
  }

  /** The five predefined entities (section 4.6 of XML 1.0) are decoded to their characters. */
  lemma PredefinedEntity(c: char, entity: string)
    requires (c, entity) in {('<', "&lt;"), ('>', "&gt;"), ('&', "&amp;"), ('"', "&quot;"), ('\'', "&apos;")}
    ensures DecodeXmlEntities(entity) == [c] && PlistStringValue(entity) == [c]
  {
    IsTheEntity(c, entity);
    EntityDecoded(c);
  }

  lemma IsTheEntity(c: char, entity: string)
    requires (c, entity) in {('<', "&lt;"), ('>', "&gt;"), ('&', "&amp;"), ('"', "&quot;"), ('\'', "&apos;")}
    ensures c in SPECIAL && entity == EntityOf(c)
  {
  }
}
