/** scripts/release-version-sources.ts: locating the Cargo version lines, and the lens laws of the one-line rewrites. */
module VersionSources {
  import opened TextLines
  import opened TomlLines

  /** `s.map(f)`. */
  function Each(f: string -> LineKind, s: seq<string>): (r: seq<LineKind>)
    ensures |r| == |s|
  {
    if s == [] then [] else [f(s[0])] + Each(f, s[1..])
  }

  lemma {:induction false} EachAt(f: string -> LineKind, s: seq<string>, i: nat)
    requires i < |s|
    ensures Each(f, s)[i] == f(s[i])
  {
    if i > 0 { EachAt(f, s[1..], i - 1); }
  }

  lemma {:induction false} EachKept(f: string -> LineKind, s: seq<string>, i: nat, x: string)
    requires i < |s| && f(x) == f(s[i])
    ensures Each(f, s[i := x]) == Each(f, s)
  {
    if i == 0 {
      assert s[i := x][1..] == s[1..];
    } else {
      assert s[i := x][1..] == s[1..][i - 1 := x];
      EachKept(f, s[1..], i - 1, x);
    }
  }

  function Kinds(lines: seq<string>): (kinds: seq<LineKind>)
    ensures |kinds| == |lines|
  {
    Each(KindOf, lines)
  }

  // ---------- Cargo.toml

  function HeaderFrom(kinds: seq<LineKind>, i: nat): (r: Option<nat>)
    ensures r.Some? ==> i <= r.value < |kinds| && kinds[r.value].packageTable
    ensures forall j :: i <= j < |kinds| && (r.Some? ==> j < r.value) ==> !kinds[j].packageTable
    decreases |kinds| - i
  {
    if i >= |kinds| then None else if kinds[i].packageTable then Some(i) else HeaderFrom(kinds, i + 1)
  }

  function VersionFrom(kinds: seq<LineKind>, i: nat): (r: Option<nat>)
    ensures r.Some? ==> i <= r.value < |kinds| && kinds[r.value].versionLine
    decreases |kinds| - i
  {
    if i >= |kinds| || kinds[i].tableHeader then None
    else if kinds[i].versionLine then Some(i)
    else VersionFrom(kinds, i + 1)
  }

  function ManifestLine(kinds: seq<LineKind>): (r: Option<nat>)
    ensures r.Some? ==> r.value < |kinds| && kinds[r.value].versionLine
  {
    match HeaderFrom(kinds, 0)
    case None => None
    case Some(start) => VersionFrom(kinds, start + 1)
  }

  /** Line `k` is the first version line of the table that the first `[package]` header opens. */
  ghost predicate FirstOfPackage(kinds: seq<LineKind>, header: nat, k: nat) {
    && header < k < |kinds| && kinds[header].packageTable && kinds[k].versionLine && !kinds[k].tableHeader
    && (forall i :: 0 <= i < header ==> !kinds[i].packageTable)
    && (forall i :: header < i < k ==> !kinds[i].tableHeader && !kinds[i].versionLine)
  }

  lemma ManifestLineIff(kinds: seq<LineKind>, k: nat)
    ensures ManifestLine(kinds) == Some(k) <==> exists header: nat :: FirstOfPackage(kinds, header, k)
  {
    var start := HeaderFrom(kinds, 0);
    if start.Some? {
      VersionFromIff(kinds, start.value + 1, k);
      if ManifestLine(kinds) == Some(k) { assert FirstOfPackage(kinds, start.value, k); }
    }
    forall header: nat | FirstOfPackage(kinds, header, k) ensures start == Some(header) {}
  }

  lemma {:induction false} VersionFromIff(kinds: seq<LineKind>, i: nat, k: nat)
    ensures VersionFrom(kinds, i) == Some(k) <==>
      && i <= k < |kinds| && kinds[k].versionLine && !kinds[k].tableHeader
      && forall j :: i <= j < k ==> !kinds[j].tableHeader && !kinds[j].versionLine
    decreases |kinds| - i
  {
    if i < |kinds| && !kinds[i].tableHeader && !kinds[i].versionLine { VersionFromIff(kinds, i + 1, k); }
  }

  method CargoManifestVersionLine(lines: seq<string>) returns (r: Option<nat>)
    ensures r == ManifestLine(Kinds(lines))
  {
    var kinds := Kinds(lines);
    var start := 0;
    while start < |lines| && !kinds[start].packageTable
      invariant 0 <= start <= |lines| && HeaderFrom(kinds, start) == HeaderFrom(kinds, 0)
    {
      start := start + 1;
    }
    if start == |lines| { return None; }
    var index := start + 1;
    while index < |lines|
      invariant start < index && VersionFrom(kinds, index) == VersionFrom(kinds, start + 1)
    {
      if kinds[index].tableHeader { return None; }
      if kinds[index].versionLine { return Some(index); }
      index := index + 1;
    }
    r := None;
  }

  // ---------- Cargo.lock

  /** Three lines in a row: entry header, crate name, version. */
  predicate CrateEntryAt(kinds: seq<LineKind>, i: int) {
    0 <= i && i + 2 < |kinds| && kinds[i].lockEntry && kinds[i + 1].crateName && kinds[i + 2].versionLine
  }

  function LockFrom(kinds: seq<LineKind>, i: nat, found: Option<nat>): Option<nat>
    decreases |kinds| - i
  {
    if i + 2 >= |kinds| then found
    else if !CrateEntryAt(kinds, i) then LockFrom(kinds, i + 1, found)
    else if found.Some? then None
    else LockFrom(kinds, i + 1, Some(i + 2))
  }

  function LockLine(kinds: seq<LineKind>): Option<nat> {
    LockFrom(kinds, 0, None)
  }

  /** Entry `i` is the only one from `from` on. */
  ghost predicate OnlyEntry(kinds: seq<LineKind>, from: nat, i: int) {
    && from <= i && CrateEntryAt(kinds, i)
    && forall j {:trigger CrateEntryAt(kinds, j)} :: from <= j && CrateEntryAt(kinds, j) ==> j == i
  }

  ghost predicate NoEntry(kinds: seq<LineKind>, from: nat) {
    forall j {:trigger CrateEntryAt(kinds, j)} :: from <= j ==> !CrateEntryAt(kinds, j)
  }

  /** The lock's version line exists exactly when the crate has one entry, and is that entry's third line. */
  lemma LockLineIff(kinds: seq<LineKind>, k: nat)
    ensures LockLine(kinds) == Some(k) <==> OnlyEntry(kinds, 0, k - 2)
  {
    LockFromIff(kinds, 0, None, k);
  }

  lemma {:induction false} LockFromIff(kinds: seq<LineKind>, i: nat, found: Option<nat>, k: nat)
    ensures LockFrom(kinds, i, found) == Some(k) <==>
      if found.Some? then found == Some(k) && NoEntry(kinds, i) else OnlyEntry(kinds, i, k - 2)
    decreases |kinds| - i
  {
    if i + 2 < |kinds| {
      if !CrateEntryAt(kinds, i) {
        LockFromIff(kinds, i + 1, found, k);
      } else if found.None? {
        LockFromIff(kinds, i + 1, Some(i + 2), k);
      }
    }
  }

  method CargoLockVersionLine(lines: seq<string>) returns (found: Option<nat>)
    ensures found == LockLine(Kinds(lines))
  {
    var kinds := Kinds(lines);
    found := None;
    var index := 0;
    while index + 2 < |lines|
      invariant 0 <= index && LockFrom(kinds, index, found) == LockFrom(kinds, 0, None)
    {
      if kinds[index].lockEntry && kinds[index + 1].crateName && kinds[index + 2].versionLine {
        if found.Some? { return None; }
        found := Some(index + 2);
      }
      index := index + 1;
    }
  }

  // ---------- the rule: read and rewrite one line

  type Locator = seq<LineKind> -> Option<nat>

  /** A locator that only ever points at version lines. */
  ghost predicate FindsVersions(locate: Locator) {
    forall kinds: seq<LineKind> {:trigger locate(kinds)} :: locate(kinds).Some? ==>
      locate(kinds).value < |kinds| && kinds[locate(kinds).value].versionLine
  }

  lemma CargoLocatorsFindVersions()
    ensures FindsVersions(ManifestLine) && FindsVersions(LockLine)
  {
    forall kinds: seq<LineKind> | LockLine(kinds).Some?
      ensures LockLine(kinds).value < |kinds| && kinds[LockLine(kinds).value].versionLine
    {
      LockLineIff(kinds, LockLine(kinds).value);
    }
  }

  function ReadRule(text: string, locate: Locator): Option<string> {
    var lines := Lines(text);
    var index := locate(Kinds(lines));
    if index.None? || index.value >= |lines| || MatchVersion(lines[index.value]).None? then None
    else Some(MatchVersion(lines[index.value]).value.value)
  }

  /** The lines with line `index` rewritten. */
  function RewriteAt(lines: seq<string>, index: nat, version: string): (after: seq<string>)
    requires index < |lines|
    ensures |after| == |lines|
  {
    lines[index := Rewritten(lines[index], version)]
  }

  function RewriteRule(text: string, version: string, locate: Locator): Option<string> {
    var lines := Lines(text);
    var index := locate(Kinds(lines));
    if index.None? || index.value >= |lines| then None
    else Some(JoinLines(RewriteAt(lines, index.value, version)))
  }

  /** A quote would end the value, a line feed the line. */
  ghost predicate WellShaped(version: string) {
    '"' !in version && '\n' !in version
  }

  lemma RewrittenNoLineFeed(line: string, version: string)
    requires MatchVersion(line).Some? && '\n' !in line && '\n' !in version
    ensures '\n' !in Rewritten(line, version)
  {
    MatchParts(line);
    var m := MatchVersion(line).value;
    assert forall c :: c in m.open + m.value + m.close <==> c in m.open || c in m.value || c in m.close;
  }

  lemma RewriteAtTwice(lines: seq<string>, index: nat, version: string, again: string)
    requires index < |lines| && MatchVersion(lines[index]).Some? && '"' !in version
    ensures RewriteAt(RewriteAt(lines, index, version), index, again) == RewriteAt(lines, index, again)
  {
    RewrittenTwice(lines[index], version, again);
  }

  /** The lines after a rewrite: one changed, and the locator still points at it. */
  lemma RewriteLines(text: string, version: string, locate: Locator)
    requires FindsVersions(locate) && WellShaped(version) && RewriteRule(text, version, locate).Some?
    ensures var lines := Lines(text);
      var index := locate(Kinds(lines));
      var after := Lines(RewriteRule(text, version, locate).value);
      && index.Some? && index.value < |lines| && MatchVersion(lines[index.value]).Some?
      && after == RewriteAt(lines, index.value, version) && Kinds(after) == Kinds(lines)
  {
    var lines := Lines(text);
    var index := locate(Kinds(lines)).value;
    EachAt(KindOf, lines, index);
    LinesHaveNoLineFeeds(text);
    RewrittenNoLineFeed(lines[index], version);
    LinesInvertJoin(RewriteAt(lines, index, version));
    RewrittenKind(lines[index], version);
    EachKept(KindOf, lines, index, Rewritten(lines[index], version));
  }

  /** Get after put: reading back a rewrite returns the version written. */
  lemma ReadAfterRewrite(text: string, version: string, locate: Locator)
    requires FindsVersions(locate) && WellShaped(version) && RewriteRule(text, version, locate).Some?
    ensures ReadRule(RewriteRule(text, version, locate).value, locate) == Some(version)
  {
    RewriteLines(text, version, locate);
    RewrittenMatches(Lines(text)[locate(Kinds(Lines(text))).value], version);
  }

  /** Put after get: writing the version that is there leaves every character as it is. */
  lemma RewriteWithRead(text: string, locate: Locator)
    requires ReadRule(text, locate).Some?
    ensures RewriteRule(text, ReadRule(text, locate).value, locate) == Some(text)
  {
    var lines := Lines(text);
    var index := locate(Kinds(lines)).value;
    RewrittenWithOwn(lines[index]);
    assert lines[index := lines[index]] == lines;
    JoinInvertsLines(text);
  }

  /** Put after put: the last rewrite wins, whatever was written before. */
  lemma LastRewriteWins(text: string, version: string, again: string, locate: Locator)
    requires FindsVersions(locate) && WellShaped(version) && RewriteRule(text, version, locate).Some?
    ensures RewriteRule(RewriteRule(text, version, locate).value, again, locate) == RewriteRule(text, again, locate)
  {
    RewriteLines(text, version, locate);
    var lines := Lines(text);
    var index := locate(Kinds(lines)).value;
    RewriteAtTwice(lines, index, version, again);
  }

  /** A rewrite keeps the number of lines, every other line, and the place of the version. */
  lemma RewriteChangesOneLine(text: string, version: string, locate: Locator, i: nat)
    requires FindsVersions(locate) && WellShaped(version) && RewriteRule(text, version, locate).Some?
    requires i < |Lines(text)| && locate(Kinds(Lines(text))) != Some(i)
    ensures var after := Lines(RewriteRule(text, version, locate).value);
      |after| == |Lines(text)| && after[i] == Lines(text)[i] && locate(Kinds(after)) == locate(Kinds(Lines(text)))
  {
    RewriteLines(text, version, locate);
  }
}
