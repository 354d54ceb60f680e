/** scripts/release-version-sources.ts: the `version = "..."` line pattern, and what the locators see of a line. */
module TomlLines {
  import opened TextLines

  datatype Option<+T> = None | Some(value: T)

  /** A matching line in its three captures. */
  datatype VersionLine = VersionLine(open: string, value: string, close: string)

  const KEYWORD: string := "version"

  function LeadingSpaces(s: string): (n: nat)
    ensures n <= |s| && (n < |s| ==> !IsSpace(s[n]))
  {
    if s != "" && IsSpace(s[0]) then 1 + LeadingSpaces(s[1..]) else 0
  }

  predicate AllSpaces(s: string) {
    forall i :: 0 <= i < |s| ==> IsSpace(s[i])
  }

  function QuoteAt(s: string): (i: int)
    ensures -1 <= i < |s|
    ensures i >= 0 ==> s[i] == '"' && '"' !in s[..i]
  {
    if s == "" then -1
    else if s[0] == '"' then 0
    else
      var i := QuoteAt(s[1..]);
      if i == -1 then -1
      else
        assert s[..i + 1] == [s[0]] + s[1..][..i];
        i + 1
  }

  /** Where `c` stands after white space from position `from`, or -1. */
  function After(s: string, from: nat, c: char): (i: int)
    requires from <= |s|
    ensures -1 <= i < |s| && (i >= 0 ==> from <= i && s[i] == c)
  {
    var i := from + LeadingSpaces(s[from..]);
    if i < |s| && s[i] == c then i else -1
  }

  /** Where the opening part ends, just behind `version`, `=` and `"` with white space between; 0 for other lines. */
  function OpenEnd(line: string): (n: nat)
    ensures n <= |line| && (n > 0 ==> |KEYWORD| < n && KEYWORD <= line && line[n - 1] == '"')
  {
    if !(KEYWORD <= line) then 0
    else
      var equals := After(line, |KEYWORD|, '=');
      if equals < 0 then 0 else After(line, equals + 1, '"') + 1
  }

  /** The match of the version-line pattern. */
  function MatchVersion(line: string): (m: Option<VersionLine>) {
    var n := OpenEnd(line);
    if n == 0 then None
    else
      var k := QuoteAt(line[n..]);
      if k < 0 || !AllSpaces(line[n + k + 1..]) then None
      else Some(VersionLine(line[..n], line[n..][..k], line[n + k..]))
  }

  /** The line with its value replaced; other lines are left alone. */
  function Rewritten(line: string, version: string): string {
    match MatchVersion(line)
    case None => line
    case Some(m) => m.open + version + m.close
  }

  // ---------- matching and rewriting

  ghost predicate OpenPart(s: string) {
    OpenEnd(s) == |s| > 0
  }

  ghost predicate ClosePart(s: string) {
    s != "" && s[0] == '"' && AllSpaces(s[1..])
  }

  lemma {:induction false} LeadingSpacesPrefix(s: string, t: string)
    requires LeadingSpaces(s) < |s| <= |t| && s == t[..|s|]
    ensures LeadingSpaces(t) == LeadingSpaces(s)
  {
    assert s[0] == t[0];
    if IsSpace(s[0]) {
      assert s[1..] == t[1..][..|s| - 1];
      LeadingSpacesPrefix(s[1..], t[1..]);
    }
  }

  lemma AfterPrefix(s: string, t: string, from: nat, c: char)
    requires from <= |s| <= |t| && s == t[..|s|] && After(s, from, c) >= 0
    ensures After(t, from, c) == After(s, from, c)
  {
    assert s[from..] == t[from..][..|s| - from];
    LeadingSpacesPrefix(s[from..], t[from..]);
    assert s[After(s, from, c)] == t[After(s, from, c)];
  }

  /** The opening part of a line is recognised whatever follows it. */
  lemma OpenEndPrefix(s: string, t: string)
    requires OpenEnd(s) > 0 && |s| <= |t| && s == t[..|s|]
    ensures OpenEnd(t) == OpenEnd(s)
  {
    assert KEYWORD <= t by { assert t[..|s|][..|KEYWORD|] == t[..|KEYWORD|]; }
    var equals := After(s, |KEYWORD|, '=');
    AfterPrefix(s, t, |KEYWORD|, '=');
    AfterPrefix(s, t, equals + 1, '"');
  }

  lemma {:induction false} LeadingSpacesCut(t: string, n: nat)
    requires LeadingSpaces(t) < n <= |t|
    ensures LeadingSpaces(t[..n]) == LeadingSpaces(t)
  {
    if IsSpace(t[0]) {
      assert t[1..][..n - 1] == t[..n][1..];
      LeadingSpacesCut(t[1..], n - 1);
    }
  }

  lemma AfterCut(t: string, n: nat, from: nat, c: char)
    requires from <= n <= |t| && 0 <= After(t, from, c) < n
    ensures After(t[..n], from, c) == After(t, from, c)
  {
    assert t[..n][from..] == t[from..][..n - from];
    LeadingSpacesCut(t[from..], n - from);
  }

  lemma PrefixOfTake(p: string, t: string, n: nat)
    requires |p| <= n <= |t| && p <= t
    ensures p <= t[..n]
  {
  }

  lemma OpenEndCut(t: string)
    requires OpenEnd(t) > 0
    ensures OpenPart(t[..OpenEnd(t)])
  {
    var n := OpenEnd(t);
    var equals := After(t, |KEYWORD|, '=');
    PrefixOfTake(KEYWORD, t, n);
    AfterCut(t, n, |KEYWORD|, '=');
    AfterCut(t, n, equals + 1, '"');
  }

  lemma {:induction false} QuoteAfter(value: string, close: string)
    requires '"' !in value && close != "" && close[0] == '"'
    ensures QuoteAt(value + close) == |value|
  {
    if value == "" {
      assert value + close == close;
    } else {
      assert (value + close)[1..] == value[1..] + close;
      assert value[0] in value;
      QuoteAfter(value[1..], close);
    }
  }

  /** An opening part, a value without quotes and a closing part make a version line with just these captures. */
  lemma MatchComposed(open: string, value: string, close: string)
    requires OpenPart(open) && '"' !in value && ClosePart(close)
    ensures MatchVersion(open + value + close) == Some(VersionLine(open, value, close))
  {
    var line := open + value + close;
    var n := |open|;
    OpenEndPrefix(open, line);
    Parts(open, value, close);
    QuoteAfter(value, close);
  }

  lemma Parts(open: string, value: string, close: string)
    requires close != ""
    ensures
      var line, n := open + value + close, |open|;
      && line[..n] == open && line[n..] == value + close && line[n..][..|value|] == value
      && line[n + |value|..] == close && line[n + |value| + 1..] == close[1..]
  {
  }

  /** Every version line is so composed. */
  lemma MatchParts(line: string)
    requires MatchVersion(line).Some?
    ensures var m := MatchVersion(line).value;
      OpenPart(m.open) && '"' !in m.value && ClosePart(m.close) && line == m.open + m.value + m.close
  {
    var n := OpenEnd(line);
    OpenEndCut(line);
    SplitTwice(line, n, QuoteAt(line[n..]));
  }

  lemma SplitTwice(s: string, n: nat, k: nat)
    requires n + k < |s|
    ensures s == s[..n] + s[n..][..k] + s[n + k..] && s[n + k..][1..] == s[n + k + 1..] && s[n + k..][0] == s[n..][k]
  {
  }

  /** A rewritten version line is one, with the same surroundings and the new value. */
  lemma RewrittenMatches(line: string, version: string)
    requires MatchVersion(line).Some? && '"' !in version
    ensures var m := MatchVersion(line).value;
      MatchVersion(Rewritten(line, version)) == Some(VersionLine(m.open, version, m.close))
  {
    MatchParts(line);
    var m := MatchVersion(line).value;
    MatchComposed(m.open, version, m.close);
  }

  lemma RewrittenWithOwn(line: string)
    requires MatchVersion(line).Some?
    ensures Rewritten(line, MatchVersion(line).value.value) == line
  {
    MatchParts(line);
  }

  lemma RewrittenTwice(line: string, version: string, again: string)
    requires MatchVersion(line).Some? && '"' !in version
    ensures Rewritten(Rewritten(line, version), again) == Rewritten(line, again)
  {
    RewrittenMatches(line, version);
  }

  // ---------- what the locators see of a line

  const PACKAGE_TABLE: string := "[package]"
  const LOCK_ENTRY: string := "[[package]]"
  const CRATE_NAME: string := "name = \"opencodex-desktop\""

  predicate IsTableHeader(line: string) {
    LeadingSpaces(line) < |line| && line[LeadingSpaces(line)] == '['
  }

  /** The answers to the five tests the locators put to a line. */
  datatype LineKind = LineKind(packageTable: bool, tableHeader: bool, versionLine: bool, lockEntry: bool,
    crateName: bool)

  function KindOf(line: string): LineKind {
    LineKind(Trim(line) == PACKAGE_TABLE, IsTableHeader(line), MatchVersion(line).Some?,
             TrimEnd(line) == LOCK_ENTRY, TrimEnd(line) == CRATE_NAME)
  }

  const VERSION_KIND := LineKind(false, false, true, false, false)

  /** A version line is nothing else: it starts with another letter. */
  lemma VersionLineKind(line: string)
    requires KindOf(line).versionLine
    ensures KindOf(line) == VERSION_KIND
  {
    MatchParts(line);
    StartsWithKeyword(line);
  }

  lemma StartsWithKeyword(line: string)
    requires KEYWORD <= line
    ensures Trim(line) != PACKAGE_TABLE && !IsTableHeader(line) && TrimEnd(line) != LOCK_ENTRY &&
      TrimEnd(line) != CRATE_NAME
  {
    assert line[0] == KEYWORD[0] == 'v';
    assert !IsSpace('v');
    assert TrimStart(line) == line;
    var r := TrimEnd(line);
    assert r != "" ==> r[0] == line[0];
    assert PACKAGE_TABLE[0] == '[' && LOCK_ENTRY[0] == '[' && CRATE_NAME[0] == 'n';
  }

  lemma RewrittenKind(line: string, version: string)
    requires KindOf(line).versionLine && '"' !in version
    ensures KindOf(Rewritten(line, version)) == KindOf(line)
  {
    RewrittenMatches(line, version);
    VersionLineKind(line);
    VersionLineKind(Rewritten(line, version));
  }
}
