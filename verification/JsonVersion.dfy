/** scripts/release-version-sources.ts: the rule that moves the top-level "version" of a JSON file. */
module JsonVersion {
  import opened TextLines
  import opened TomlLines

  /**
   * A parsed JSON text as the rule sees it: its top-level `version`, when that is a string, and everything
   * else. Two of them are equal exactly when `JSON.stringify` writes the same text for both.
   */
  datatype Doc = Doc(version: Option<string>, rest: string)

  type Parser = string -> Option<Doc>

  const QUOTED_KEY: string := "\"version\""

  /** Where `"version"`, a colon and a quote end, white space between them; 0 when the text starts otherwise. */
  function OpenOf(s: string): (n: nat)
    ensures n <= |s| && (n > 0 ==> |QUOTED_KEY| < n && QUOTED_KEY <= s && s[n - 1] == '"')
  {
    if !(QUOTED_KEY <= s) then 0
    else
      var colon := After(s, |QUOTED_KEY|, ':');
      if colon < 0 then 0 else After(s, colon + 1, '"') + 1
  }

  /** Just behind the closing quote of a match at the front, or 0. */
  function MatchEnd(s: string): (n: nat)
    ensures n <= |s|
  {
    var open := OpenOf(s);
    if open == 0 then 0 else
      var quote := QuoteAt(s[open..]);
      if quote < 0 then 0 else open + quote + 1
  }

  /** The value of the first match replaced; a text without a match is left alone. */
  function WithValue(s: string, version: string): string {
    if s == "" then ""
    else if MatchEnd(s) > 0 then s[..OpenOf(s)] + version + s[MatchEnd(s) - 1..]
    else [s[0]] + WithValue(s[1..], version)
  }

  function Read(text: string, parse: Parser): Option<string> {
    match parse(text)
    case None => None
    case Some(doc) => doc.version
  }

  /** The replaced text, when it parses to the same document but for the version. */
  function Rewrite(text: string, version: string, parse: Parser): Option<string> {
    match parse(text)
    case None => None
    case Some(doc) =>
      var rewritten := WithValue(text, version);
      if doc.version.Some? && parse(rewritten) == Some(doc.(version := Some(version))) then Some(rewritten) else None
  }

  // ---------- the first match stays the first match

  lemma {:induction false} SpacesLead(s: string, i: nat)
    requires i < LeadingSpaces(s)
    ensures IsSpace(s[i])
  {
    if i > 0 { SpacesLead(s[1..], i - 1); }
  }

  lemma OpenPrefix(s: string, t: string)
    requires OpenOf(s) > 0 && |s| <= |t| && s == t[..|s|]
    ensures OpenOf(t) == OpenOf(s)
  {
    assert QUOTED_KEY <= t by { assert t[..|s|][..|QUOTED_KEY|] == t[..|QUOTED_KEY|]; }
    var colon := After(s, |QUOTED_KEY|, ':');
    AfterPrefix(s, t, |QUOTED_KEY|, ':');
    AfterPrefix(s, t, colon + 1, '"');
  }

  lemma OpenCut(s: string)
    requires OpenOf(s) > 0
    ensures OpenOf(s[..OpenOf(s)]) == OpenOf(s)
  {
    var n := OpenOf(s);
    var colon := After(s, |QUOTED_KEY|, ':');
    assert QUOTED_KEY <= s[..n] by { assert s[..n][..|QUOTED_KEY|] == s[..|QUOTED_KEY|]; }
    AfterCut(s, n, |QUOTED_KEY|, ':');
    AfterCut(s, n, colon + 1, '"');
  }

  lemma {:induction false} QuoteBy(s: string, k: nat)
    requires k < |s| && s[k] == '"'
    ensures 0 <= QuoteAt(s) <= k
  {
    if k > 0 && s[0] != '"' { QuoteBy(s[1..], k - 1); }
  }

  lemma QuotePrefix(s: string, t: string)
    requires 0 <= QuoteAt(s) < |t| && s[..QuoteAt(s) + 1] == t[..QuoteAt(s) + 1]
    ensures QuoteAt(t) == QuoteAt(s)
  {
    var k := QuoteAt(s);
    assert t[k] == t[..k + 1][k] == s[..k + 1][k];
    QuoteBy(t, k);
    var j := QuoteAt(t);
    assert s[j] == s[..k + 1][j] == t[..k + 1][j];
    QuoteBy(s, j);
  }

  lemma TakeShared(s: string, t: string, n: nat, k: nat)
    requires k <= n <= |s| && n <= |t| && s[..n] == t[..n]
    ensures s[..k] == t[..k]
  {
    assert s[..k] == s[..n][..k] && t[..k] == t[..n][..k];
  }

  lemma OpenShared(s: string, t: string, n: nat)
    requires 0 < OpenOf(s) <= n <= |s| && n <= |t| && s[..n] == t[..n]
    ensures OpenOf(t) == OpenOf(s)
  {
    OpenCut(s);
    TakeShared(s, t, n, OpenOf(s));
    OpenPrefix(s[..OpenOf(s)], t);
  }

  /** A match that lies within what two texts share is a match of both. */
  lemma MatchShared(s: string, t: string, n: nat)
    requires 0 < MatchEnd(s) <= n <= |s| && n <= |t| && s[..n] == t[..n]
    ensures OpenOf(t) == OpenOf(s) && MatchEnd(t) == MatchEnd(s)
  {
    var open := OpenOf(s);
    OpenShared(s, t, n);
    SliceShared(s, t, n, open, QuoteAt(s[open..]) + 1);
    QuotePrefix(s[open..], t[open..]);
  }

  lemma SliceShared(s: string, t: string, n: nat, from: nat, k: nat)
    requires from + k <= n <= |s| && n <= |t| && s[..n] == t[..n]
    ensures s[from..][..k] == t[from..][..k]
  {
    assert s[from..][..k] == s[..n][from..from + k] && t[from..][..k] == t[..n][from..from + k];
  }

  /** The quotes of an opening part: its first character, the end of the key, and its last character. */
  lemma OpenQuotes(s: string, p: nat)
    requires 0 < p < OpenOf(s) && s[p] == '"'
    ensures p == |QUOTED_KEY| - 1 || p == OpenOf(s) - 1
  {
    var colon := After(s, |QUOTED_KEY|, ':');
    if p < |QUOTED_KEY| {
      assert s[p] == QUOTED_KEY[p];
    } else if p < colon {
      SpacesLead(s[|QUOTED_KEY|..], p - |QUOTED_KEY|);
    } else if colon < p < OpenOf(s) - 1 {
      SpacesLead(s[colon + 1..], p - colon - 1);
    }
  }

  /** Behind the key of an opening part stands white space or a colon. */
  lemma BehindKey(s: string)
    requires OpenOf(s) > 0
    ensures |QUOTED_KEY| < |s| && s[|QUOTED_KEY|] != 'v'
  {
    if After(s, |QUOTED_KEY|, ':') > |QUOTED_KEY| { SpacesLead(s[|QUOTED_KEY|..], 0); }
  }

  /** A match that starts in front of a quoted key ends with its closing quote at the latest. */
  lemma MatchMeetsKey(s: string, p: nat)
    requires MatchEnd(s) > 0 && 0 < p <= |s| && QUOTED_KEY <= s[p..]
    ensures MatchEnd(s) <= p + |QUOTED_KEY|
  {
    var open := OpenOf(s);
    var last := |QUOTED_KEY| - 1;
    assert s[p] == s[p..][0] == QUOTED_KEY[0] && s[p + last] == s[p..][last] == QUOTED_KEY[last];
    assert s[p + 1] == s[p..][1] == QUOTED_KEY[1];
    if p >= open {
      QuoteBy(s[open..], p - open);
    } else {
      OpenQuotes(s, p);
      BehindKey(s);
      QuoteBy(s[open..], p + last - open);
    }
  }

  // ---------- replacing twice

  /** The replacement leaves everything up to the opening part of the first match, whose place is `at`. */
  ghost predicate KeptUpTo(s: string, r: string, at: nat) {
    && at < |s| && OpenOf(s[at..]) > 0 && at + OpenOf(s[at..]) <= |r|
    && s[..at + OpenOf(s[at..])] == r[..at + OpenOf(s[at..])]
  }

  lemma {:induction false} ValueKeeps(s: string, version: string)
    ensures WithValue(s, version) == s || exists at :: KeptUpTo(s, WithValue(s, version), at)
  {
    if s != "" {
      if MatchEnd(s) > 0 {
        KeptHere(s, version);
      } else {
        ValueKeeps(s[1..], version);
        var r := WithValue(s[1..], version);
        if r == s[1..] {
          assert WithValue(s, version) == s;
        } else {
          var at :| KeptUpTo(s[1..], r, at);
          KeptOneOn(s, r, at);
        }
      }
    }
  }

  lemma KeptHere(s: string, version: string)
    requires MatchEnd(s) > 0
    ensures KeptUpTo(s, WithValue(s, version), 0)
  {
    assert s[0..] == s;
  }

  lemma KeptOneOn(s: string, r: string, at: nat)
    requires s != "" && KeptUpTo(s[1..], r, at)
    ensures KeptUpTo(s, [s[0]] + r, at + 1)
  {
    assert s[1..][at..] == s[at + 1..];
    var n := at + OpenOf(s[at + 1..]);
    assert s[..n + 1] == [s[0]] + s[1..][..n] && ([s[0]] + r)[..n + 1] == [s[0]] + r[..n];
  }

  lemma KeyKept(s: string, r: string, at: nat)
    requires KeptUpTo(s, r, at)
    ensures at <= |r| && QUOTED_KEY <= r[at..]
  {
    SliceShared(s, r, at + OpenOf(s[at..]), at, |QUOTED_KEY|);
    KeyInFront(s[at..], r[at..]);
  }

  lemma KeyInFront(s: string, t: string)
    requires QUOTED_KEY <= s && |QUOTED_KEY| <= |t| && s[..|QUOTED_KEY|] == t[..|QUOTED_KEY|]
    ensures QUOTED_KEY <= t
  {
    assert QUOTED_KEY == s[..|QUOTED_KEY|];
  }

  lemma NoMatchAcross(s: string, r: string, p: nat, n: nat)
    requires MatchEnd(s) == 0 && n <= |s| && n <= |r| && s[..n] == r[..n]
    requires 0 < p && p + |QUOTED_KEY| <= n && QUOTED_KEY <= r[p..]
    ensures MatchEnd(r) == 0
  {
    if MatchEnd(r) > 0 {
      MatchMeetsKey(r, p);
      MatchShared(r, s, n);
    }
  }

  /** Where the text in front holds no match, the replaced text holds none there either. */
  lemma NoEarlierMatch(s: string, r: string, at: nat)
    requires MatchEnd(s) == 0 && at > 0 && KeptUpTo(s, r, at)
    ensures MatchEnd(r) == 0
  {
    KeyKept(s, r, at);
    NoMatchAcross(s, r, at, at + OpenOf(s[at..]));
  }

  lemma StillNoMatchAt(s: string, r: string, at: nat)
    requires s != "" && MatchEnd(s) == 0 && KeptUpTo(s[1..], r, at)
    ensures MatchEnd([s[0]] + r) == 0
  {
    KeptOneOn(s, r, at);
    NoEarlierMatch(s, [s[0]] + r, at + 1);
  }

  lemma HeadAndRest(s: string)
    requires s != ""
    ensures [s[0]] + s[1..] == s
  {
  }

  lemma StillNoMatch(s: string, version: string)
    requires s != "" && MatchEnd(s) == 0
    ensures MatchEnd([s[0]] + WithValue(s[1..], version)) == 0
  {
    ValueKeeps(s[1..], version);
    if WithValue(s[1..], version) == s[1..] {
      HeadAndRest(s);
    } else {
      var at :| KeptUpTo(s[1..], WithValue(s[1..], version), at);
      StillNoMatchAt(s, WithValue(s[1..], version), at);
    }
  }

  lemma ValueCons(c: char, s: string, version: string)
    requires MatchEnd([c] + s) == 0
    ensures WithValue([c] + s, version) == [c] + WithValue(s, version)
  {
    assert ([c] + s)[1..] == s;
  }

  /** Replacing in a replaced text is replacing once. */
  lemma {:induction false} ValueTwice(s: string, first: string, second: string)
    requires '"' !in first
    ensures WithValue(WithValue(s, first), second) == WithValue(s, second)
  {
    if s != "" {
      if MatchEnd(s) > 0 {
        ValueHere(s, first, second);
      } else {
        ValueTwice(s[1..], first, second);
        StillNoMatch(s, first);
        ValueCons(s[0], WithValue(s[1..], first), second);
      }
    }
  }

  lemma ValueHere(s: string, first: string, second: string)
    requires MatchEnd(s) > 0 && '"' !in first
    ensures WithValue(WithValue(s, first), second) == WithValue(s, second)
  {
    OpenCut(s);
    ValueSet(s[..OpenOf(s)], first, s[MatchEnd(s) - 1..], second);
  }

  /** An opening part, a value without quotes and a quote are a match of just that value. */
  lemma ValueSet(open: string, value: string, close: string, version: string)
    requires OpenOf(open) == |open| > 0 && '"' !in value && close != "" && close[0] == '"'
    ensures WithValue(open + value + close, version) == open + version + close
  {
    var s := open + value + close;
    ValueParts(open, value, close);
    OpenPrefix(open, s);
    QuoteAfter(value, close);
  }

  lemma ValueParts(open: string, value: string, close: string)
    ensures
      var s, n := open + value + close, |open|;
      s[..n] == open && s[n..] == value + close && s[n + |value|..] == close
  {
  }

  // ---------- what the rule promises

  /** Reading a rewritten file gives the version written, and nothing else in the document changed. */
  lemma ReadAfterJsonRewrite(text: string, version: string, parse: Parser)
    requires Rewrite(text, version, parse).Some?
    ensures
      var after := Rewrite(text, version, parse).value;
      && Read(text, parse).Some? && Read(after, parse) == Some(version) && parse(text).Some? && parse(after).Some?
      && parse(after).value.rest == parse(text).value.rest
  {
  }

  /** A rewritten file can be rewritten again exactly as the original could, with the same result. */
  lemma LastJsonRewriteWins(text: string, first: string, second: string, parse: Parser)
    requires Rewrite(text, first, parse).Some? && '"' !in first
    ensures Rewrite(Rewrite(text, first, parse).value, second, parse) == Rewrite(text, second, parse)
  {
    ValueTwice(text, first, second);
  }

  // ---------- writing back what was read

  /** The value of the first match, as it is spelled. */
  function FirstValue(s: string): Option<string> {
    if s == "" then None
    else if MatchEnd(s) > 0 then Some(s[OpenOf(s)..MatchEnd(s) - 1])
    else FirstValue(s[1..])
  }

  lemma SameHere(s: string, version: string)
    requires MatchEnd(s) > 0
    ensures WithValue(s, version) == s <==> version == s[OpenOf(s)..MatchEnd(s) - 1]
  {
    ValueBetween(s, OpenOf(s), MatchEnd(s) - 1, version);
  }

  lemma ValueBetween(s: string, i: nat, j: nat, version: string)
    requires i <= j <= |s|
    ensures s[..i] + version + s[j..] == s <==> version == s[i..j]
  {
    var r := s[..i] + version + s[j..];
    if r == s { assert |version| == j - i && r[i..j] == version; }
    assert s == s[..i] + s[i..j] + s[j..];
  }

  lemma {:induction false} SameValue(s: string, version: string)
    ensures WithValue(s, version) == s <==> FirstValue(s) == None || FirstValue(s) == Some(version)
  {
    if s != "" {
      if MatchEnd(s) > 0 {
        SameHere(s, version);
      } else {
        SameValue(s[1..], version);
        SameCons(s[0], s[1..], WithValue(s[1..], version));
        assert [s[0]] + s[1..] == s;
      }
    }
  }

  lemma SameCons(c: char, s: string, r: string)
    ensures [c] + r == [c] + s <==> r == s
  {
    if [c] + r == [c] + s { assert ([c] + r)[1..] == r && ([c] + s)[1..] == s; }
  }

  /**
   * Writing the version read leaves the text alone exactly when there is no match to replace or its value is
   * spelled just so.
   */
  lemma JsonRewriteWithRead(text: string, version: string, parse: Parser)
    requires Read(text, parse) == Some(version)
    ensures Rewrite(text, version, parse) == Some(text) <==>
      FirstValue(text) == None || FirstValue(text) == Some(version)
  {
    SameValue(text, version);
  }

  const ESCAPED: string := "{\"version\":\"2.0\\u002e0\"}"
  const PLAIN: string := "{\"version\":\"2.0.0\"}"

  /** A parser that reads the escaped dot as a dot. */
  function Unescaping(): Parser {
    t => if t == ESCAPED || t == PLAIN then Some(Doc(Some("2.0.0"), "{}")) else None
  }

  lemma OpenParts(open: string)
    requires open == QUOTED_KEY + ":\""
    ensures OpenOf(open) == |open|
  {
    assert open[|QUOTED_KEY|] == ':' && open[|QUOTED_KEY| + 1] == '"';
  }

  lemma BehindBrace(rest: string, version: string)
    ensures WithValue("{" + rest, version) == "{" + WithValue(rest, version)
  {
    assert ("{" + rest)[0] == '{' && QUOTED_KEY[0] == '"';
    ValueCons('{', rest, version);
  }

  /** A version spelled with an escape is read as it is meant, and writing it back changes its spelling. */
  lemma EscapeIsRespelled()
    ensures Read(ESCAPED, Unescaping()) == Some("2.0.0") && Rewrite(ESCAPED, "2.0.0", Unescaping()) == Some(PLAIN)
    ensures PLAIN != ESCAPED
  {
    var open := QUOTED_KEY + ":\"";
    assert ESCAPED == "{" + (open + "2.0\\u002e0" + "\"}") && PLAIN == "{" + (open + "2.0.0" + "\"}");
    OpenParts(open);
    ValueSet(open, "2.0\\u002e0", "\"}", "2.0.0");
    BehindBrace(open + "2.0\\u002e0" + "\"}", "2.0.0");
    assert |PLAIN| < |ESCAPED|;
  }
}
