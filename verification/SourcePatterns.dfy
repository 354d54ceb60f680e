/**
 * scripts/release-version-sources.ts: the line tests, the version shape and the first JSON match, said on the pieces
 * that a line or a text is put together from.
 */
module SourcePatterns {
  import opened JsonVersion
  import opened TextLines
  import opened TomlLines

  // ---------- the opening part of a match

  /** A key, white space, a separator, white space, and a quote. */
  ghost predicate IsOpening(open: string, key: string, separator: char) {
    exists before, after :: Blank(before) && Blank(after) && open == key + before + [separator] + after + "\""
  }

  lemma {:induction false} SpacesThen(spaces: string, rest: string)
    requires Blank(spaces) && (rest != "" ==> !IsSpace(rest[0]))
    ensures LeadingSpaces(spaces + rest) == |spaces|
  {
    if spaces == "" {
      assert spaces + rest == rest;
    } else {
      assert (spaces + rest)[0] == spaces[0] && (spaces + rest)[1..] == spaces[1..] + rest;
      SpacesThen(spaces[1..], rest);
    }
  }

  lemma {:induction false} SpacesAreBlank(s: string)
    ensures Blank(s[..LeadingSpaces(s)])
  {
    if s != "" && IsSpace(s[0]) {
      var n := LeadingSpaces(s[1..]);
      SpacesAreBlank(s[1..]);
      assert s[..n + 1] == [s[0]] + s[1..][..n];
    }
  }

  /** Behind white space from `from` stands `c`, and nothing follows it up to here. */
  lemma AfterComposed(front: string, spaces: string, c: char, rest: string)
    requires Blank(spaces) && !IsSpace(c)
    ensures After(front + spaces + [c] + rest, |front|, c) == |front| + |spaces|
  {
    var s := front + spaces + [c] + rest;
    assert s[|front|..] == spaces + ([c] + rest);
    SpacesThen(spaces, [c] + rest);
  }

  lemma AfterParts(s: string, from: nat, c: char) returns (spaces: string)
    requires from <= |s| && After(s, from, c) >= 0
    ensures Blank(spaces) && After(s, from, c) == from + |spaces|
    ensures s[..After(s, from, c) + 1] == s[..from] + spaces + [c]
  {
    spaces := s[from..][..LeadingSpaces(s[from..])];
    SpacesAreBlank(s[from..]);
    assert s[from..from + |spaces|] == spaces;
  }

  /** Where a key's opening part ends, as both patterns find it. */
  function OpeningEnd(s: string, key: string, separator: char): nat {
    if !(key <= s) then 0
    else
      var i := After(s, |key|, separator);
      if i < 0 then 0 else After(s, i + 1, '"') + 1
  }

  lemma OpeningComposed(key: string, before: string, separator: char, after: string, rest: string)
    requires Blank(before) && Blank(after) && !IsSpace(separator)
    ensures
      var open := key + before + [separator] + after + "\"";
      OpeningEnd(open + rest, key, separator) == |open|
  {
    var open := key + before + [separator] + after + "\"";
    var s := open + rest;
    var front := key + before + [separator];
    assert s == key + before + [separator] + (after + "\"" + rest);
    assert key <= s;
    AfterComposed(key, before, separator, after + "\"" + rest);
    assert s == front + after + ['"'] + rest;
    AfterComposed(front, after, '"', rest);
  }

  lemma OpeningParts(s: string, key: string, separator: char)
    requires OpeningEnd(s, key, separator) > 0
    ensures OpeningEnd(s, key, separator) <= |s|
    ensures IsOpening(s[..OpeningEnd(s, key, separator)], key, separator)
  {
    var i := After(s, |key|, separator);
    var before := AfterParts(s, |key|, separator);
    var after := AfterParts(s, i + 1, '"');
    var end := OpeningEnd(s, key, separator);
    assert s[..|key|] == key && s[..i + 1] == key + before + [separator];
    assert s[..end] == s[..i + 1] + after + ['"'];
  }

  /** A text's opening part is found exactly when it starts with one. */
  lemma OpeningIff(s: string, key: string, separator: char, open: string)
    requires !IsSpace(separator)
    ensures open <= s && IsOpening(open, key, separator) <==>
      OpeningEnd(s, key, separator) > 0 && OpeningEnd(s, key, separator) == |open| <= |s| && s[..|open|] == open
  {
    if open <= s && IsOpening(open, key, separator) {
      var before, after :| Blank(before) && Blank(after) && open == key + before + [separator] + after + "\"";
      OpeningComposed(key, before, separator, after, s[|open|..]);
      assert open + s[|open|..] == s;
    }
    if OpeningEnd(s, key, separator) > 0 { OpeningParts(s, key, separator); }
  }

  // ---------- the lines of the Cargo files

  ghost predicate IsTomlOpening(open: string) {
    IsOpening(open, "version", '=')
  }

  /** A version line with this value, and white space at most behind it. */
  ghost predicate IsVersionLine(line: string, value: string) {
    exists open, after ::
      IsTomlOpening(open) && Blank(after) && '"' !in value && line == open + value + "\"" + after
  }

  lemma OpenPartIff(open: string)
    ensures OpenPart(open) <==> IsTomlOpening(open)
  {
    OpeningIff(open, "version", '=', open);
    assert open[..|open|] == open;
  }

  lemma ClosePartIff(close: string)
    ensures ClosePart(close) <==> close != "" && close == "\"" + close[1..] && Blank(close[1..])
  {
  }

  lemma VersionLineParts(line: string)
    requires MatchVersion(line).Some?
    ensures IsVersionLine(line, MatchVersion(line).value.value)
  {
    MatchParts(line);
    var m := MatchVersion(line).value;
    OpenPartIff(m.open);
    ClosePartIff(m.close);
    Regroup(m.open, m.value, m.close);
  }

  lemma Regroup(open: string, value: string, close: string)
    requires close != "" && close == "\"" + close[1..]
    ensures open + value + close == open + value + "\"" + close[1..]
  {
  }

  lemma VersionLineComposed(open: string, value: string, after: string)
    requires IsTomlOpening(open) && Blank(after) && '"' !in value
    ensures MatchVersion(open + value + "\"" + after).Some?
    ensures MatchVersion(open + value + "\"" + after).value.value == value
  {
    var close := "\"" + after;
    OpenPartIff(open);
    assert close[1..] == after;
    ClosePartIff(close);
    Regroup(open, value, close);
    MatchComposed(open, value, close);
  }

  lemma VersionLineIff(line: string, value: string)
    ensures MatchVersion(line).Some? && MatchVersion(line).value.value == value <==> IsVersionLine(line, value)
  {
    if MatchVersion(line).Some? { VersionLineParts(line); }
    if open, after :|
      IsTomlOpening(open) && Blank(after) && '"' !in value && line == open + value + "\"" + after
    {
      VersionLineComposed(open, value, after);
    }
  }

  lemma HeaderIff(line: string)
    ensures IsTableHeader(line) <==> exists before, rest :: Blank(before) && line == before + "[" + rest
  {
    if IsTableHeader(line) {
      var n := LeadingSpaces(line);
      SpacesAreBlank(line);
      assert line == line[..n] + "[" + line[n + 1..];
    }
    if before, rest :| Blank(before) && line == before + "[" + rest {
      assert line == before + ("[" + rest);
      SpacesThen(before, "[" + rest);
    }
  }

  /** What each of the five tests asks of a line. */
  lemma KindMeans(line: string)
    ensures KindOf(line).packageTable <==> Trimmed(line, "[package]")
    ensures KindOf(line).tableHeader <==> exists before, rest :: Blank(before) && line == before + "[" + rest
    ensures KindOf(line).versionLine <==> exists value :: IsVersionLine(line, value)
    ensures KindOf(line).lockEntry <==> exists after :: Blank(after) && line == "[[package]]" + after
    ensures KindOf(line).crateName <==>
      exists after :: Blank(after) && line == "name = \"opencodex-desktop\"" + after
  {
    TrimIff(line, "[package]");
    HeaderIff(line);
    TrimEndIff(line, "[[package]]");
    TrimEndIff(line, "name = \"opencodex-desktop\"");
    if MatchVersion(line).Some? { VersionLineIff(line, MatchVersion(line).value.value); }
    if value :| IsVersionLine(line, value) { VersionLineIff(line, value); }
  }

  // ---------- the first match in a JSON text

  ghost predicate IsJsonOpening(open: string) {
    IsOpening(open, "\"version\"", ':')
  }

  /** From position `i` on stand an opening part, this value and a quote. */
  ghost predicate HitAt(s: string, i: int, open: string, value: string) {
    0 <= i <= |s| && IsJsonOpening(open) && '"' !in value && open + value + "\"" <= s[i..]
  }

  ghost predicate NoHitAt(s: string, i: int) {
    forall open, value :: !HitAt(s, i, open, value)
  }

  lemma OpenOfIs(s: string)
    ensures OpenOf(s) == OpeningEnd(s, "\"version\"", ':')
  {
  }

  lemma MatchComposedHere(open: string, value: string, rest: string)
    requires IsJsonOpening(open) && '"' !in value
    ensures
      var s := open + value + "\"" + rest;
      OpenOf(s) == |open| > 0 && MatchEnd(s) == |open| + |value| + 1
  {
    var s := open + value + "\"" + rest;
    OpenOfIs(s);
    assert open <= s;
    OpeningIff(s, "\"version\"", ':', open);
    assert s[|open|..] == value + ("\"" + rest);
    QuoteAfter(value, "\"" + rest);
  }

  lemma SplitAtQuote(s: string, n: nat, k: nat)
    requires n + k < |s| && s[n + k] == '"'
    ensures s == s[..n] + s[n..][..k] + "\"" + s[n..][k + 1..]
  {
  }

  lemma MatchPartsHere(s: string) returns (open: string, value: string, rest: string)
    requires MatchEnd(s) > 0
    ensures IsJsonOpening(open) && '"' !in value && s == open + value + "\"" + rest
    ensures OpenOf(s) == |open| && MatchEnd(s) == |open| + |value| + 1
  {
    var n := OpenOf(s);
    open := s[..n];
    OpenOfIs(s);
    OpeningIff(s, "\"version\"", ':', open);
    OpeningParts(s, "\"version\"", ':');
    var k := QuoteAt(s[n..]);
    value, rest := s[n..][..k], s[n..][k + 1..];
    SplitAtQuote(s, n, k);
  }

  /** The value of the first match is replaced, and nothing else; a text without a match is left alone. */
  ghost predicate ReplacesFirst(s: string, version: string, r: string) {
    || (r == s && forall i :: 0 <= i <= |s| ==> NoHitAt(s, i))
    || exists i, open, value :: ReplacedFrom(s, version, r, i, open, value)
  }

  lemma NoMatchNoHit(s: string)
    requires MatchEnd(s) == 0
    ensures NoHitAt(s, 0)
  {
    forall open, value ensures !HitAt(s, 0, open, value) {
      if HitAt(s, 0, open, value) {
        assert s[0..] == s;
        var rest := s[|open + value + "\""|..];
        assert s == open + value + "\"" + rest;
        MatchComposedHere(open, value, rest);
      }
    }
  }

  lemma HitShiftOne(s: string, i: int, open: string, value: string)
    requires s != "" && i >= 0
    ensures HitAt(s, i + 1, open, value) <==> HitAt(s[1..], i, open, value)
  {
    if i < |s| { assert s[1..][i..] == s[i + 1..]; }
  }

  lemma HitShift(s: string, i: int)
    requires s != "" && i >= 0
    ensures NoHitAt(s, i + 1) <==> NoHitAt(s[1..], i)
  {
    if NoHitAt(s, i + 1) {
      forall open, value ensures !HitAt(s[1..], i, open, value) { HitShiftOne(s, i, open, value); }
    }
    if NoHitAt(s[1..], i) {
      var next := i + 1;
      forall open, value ensures !HitAt(s, next, open, value) { HitShiftOne(s, i, open, value); }
    }
  }

  lemma SpliceHere(s: string, open: string, value: string, rest: string, version: string)
    requires s == open + value + "\"" + rest
    ensures s[0..] == s && s[..|open|] == open && s[|open| + |value|..] == "\"" + rest
    ensures s[..0] + open + version + s[0 + |open| + |value|..] == open + version + ("\"" + rest)
    ensures open + value + "\"" <= s
  {
  }

  lemma ReplacedHere(s: string, version: string)
    requires MatchEnd(s) > 0
    ensures ReplacesFirst(s, version, WithValue(s, version))
  {
    var open, value, rest := MatchPartsHere(s);
    SpliceHere(s, open, value, rest, version);
    assert HitAt(s, 0, open, value);
    assert WithValue(s, version) == open + version + ("\"" + rest);
    assert ReplacedFrom(s, version, WithValue(s, version), 0, open, value);
  }

  /** From position `i` on, the first hit is replaced. */
  ghost predicate ReplacedFrom(s: string, version: string, r: string, i: int, open: string, value: string) {
    && HitAt(s, i, open, value) && (forall j :: 0 <= j < i ==> NoHitAt(s, j))
    && r == s[..i] + open + version + s[i + |open| + |value|..]
  }

  lemma FromLater(s: string, version: string, r: string, i: int, open: string, value: string)
    requires s != "" && NoHitAt(s, 0) && ReplacedFrom(s[1..], version, r, i, open, value)
    ensures ReplacedFrom(s, version, [s[0]] + r, i + 1, open, value)
  {
    HitShiftOne(s, i, open, value);
    forall j | 0 <= j < i + 1 ensures NoHitAt(s, j) { if j > 0 { HitShift(s, j - 1); } }
    SplicedLater(s, i, open, value, version);
  }

  lemma NoneLater(s: string)
    requires s != "" && NoHitAt(s, 0) && forall i :: 0 <= i <= |s[1..]| ==> NoHitAt(s[1..], i)
    ensures forall i :: 0 <= i <= |s| ==> NoHitAt(s, i)
  {
    forall i | 0 <= i <= |s| ensures NoHitAt(s, i) { if i > 0 { HitShift(s, i - 1); } }
  }

  lemma ReplacedLater(s: string, version: string, r: string)
    requires s != "" && NoHitAt(s, 0) && ReplacesFirst(s[1..], version, r)
    ensures ReplacesFirst(s, version, [s[0]] + r)
  {
    if i, open, value :| ReplacedFrom(s[1..], version, r, i, open, value) {
      FromLater(s, version, r, i, open, value);
    } else {
      NoneLater(s);
      assert [s[0]] + s[1..] == s;
    }
  }

  lemma SplicedLater(s: string, i: nat, open: string, value: string, version: string)
    requires s != "" && i + |open| + |value| < |s|
    ensures [s[0]] + (s[1..][..i] + open + version + s[1..][i + |open| + |value|..]) ==
      s[..i + 1] + open + version + s[i + 1 + |open| + |value|..]
  {
    assert s[..i + 1] == [s[0]] + s[1..][..i];
    assert s[1..][i + |open| + |value|..] == s[i + 1 + |open| + |value|..];
  }

  lemma {:induction false} WithValueIs(s: string, version: string)
    ensures ReplacesFirst(s, version, WithValue(s, version))
  {
    if s == "" {
      forall open, value ensures !HitAt(s, 0, open, value) {}
    } else if MatchEnd(s) > 0 {
      ReplacedHere(s, version);
    } else {
      NoMatchNoHit(s);
      WithValueIs(s[1..], version);
      ReplacedLater(s, version, WithValue(s[1..], version));
    }
  }
}
