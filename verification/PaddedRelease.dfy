/**
 * How the decision of scripts/bump-dev-version.ts treats padded releases when texts are ordered by
 * `localeCompare` with `numeric: true` and `sensitivity: "base"` (scripts/version-line.ts, line 75). NumericBase
 * is the part of that order version texts use: U+FEFF does not count, a run of digits counts by its value,
 * white space comes before marks, marks before numbers, numbers before letters, and case is ignored.
 */
module PaddedRelease {
  import opened TextLines
  import opened VersionOrder
  import opened VersionText
  import opened DevVersion

  datatype Element = Element(level: nat, rank: nat)

  const BOM: char := '\U{FEFF}'

  function MarkRank(c: char): nat {
    if c == '-' then 0 else if c == '.' then 1 else if c == '+' then 2 else 3 + c as nat
  }

  function ElementOf(c: char): (e: Element)
    ensures e.level != 2
  {
    if IsSpace(c) then Element(0, c as nat)
    else if 'A' <= c <= 'Z' then Element(3, c as nat + 32)
    else if 'a' <= c <= 'z' || c as nat >= 128 then Element(3, c as nat)
    else Element(1, MarkRank(c))
  }

  function NumberElement(n: nat): Element {
    Element(2, n)
  }

  function Elements(s: string): seq<Element>
    decreases |s|
  {
    if s == "" then []
    else if s[0] == BOM then Elements(s[1..])
    else if IsDigit(s[0]) then
      var n := DigitsAtStart(s);
      [NumberElement(DigitsValue(s[..n]))] + Elements(s[n..])
    else [ElementOf(s[0])] + Elements(s[1..])
  }

  function CompareElements(a: seq<Element>, b: seq<Element>): int
    decreases |a|
  {
    if a == [] && b == [] then 0
    else if a == [] then -1
    else if b == [] then 1
    else if a[0].level != b[0].level then a[0].level - b[0].level
    else if a[0].rank != b[0].rank then a[0].rank - b[0].rank
    else CompareElements(a[1..], b[1..])
  }

  function NumericBase(a: string, b: string): int {
    CompareElements(Elements(a), Elements(b))
  }

  function SkipBoms(s: string): string {
    if s != "" && s[0] == BOM then SkipBoms(s[1..]) else s
  }

  /** Padding of byte order marks and nothing else. */
  ghost predicate BomPadded(s: string) {
    Padded(s) && SkipBoms(s) != "" && !Padded(SkipBoms(s))
  }

  // ---------- the elements of a tag

  lemma {:induction false} SkippedBoms(s: string)
    ensures Elements(SkipBoms(s)) == Elements(s) && TrimStart(SkipBoms(s)) == TrimStart(s)
    ensures Padded(SkipBoms(s)) ==> Padded(s)
  {
    if s != "" && s[0] == BOM { SkippedBoms(s[1..]); }
  }

  lemma ConsElements(c: char, s: string)
    requires c != BOM && !IsDigit(c)
    ensures Elements([c] + s) == [ElementOf(c)] + Elements(s)
  {
    assert ([c] + s)[1..] == s;
  }

  lemma NumberElements(s: string)
    requires ParseNumber(s).Some?
    ensures Elements(s) == [NumberElement(ParseNumber(s).value.value)] + Elements(ParseNumber(s).value.rest)
  {
  }

  lemma NumberDotElements(s: string)
    requires ParseNumberDot(s).Some?
    ensures Elements(s) ==
      [NumberElement(ParseNumberDot(s).value.value), ElementOf('.')] + Elements(ParseNumberDot(s).value.rest)
  {
    NumberElements(s);
    var rest := ParseNumber(s).value.rest;
    ConsElements('.', rest[1..]);
    assert rest == ['.'] + rest[1..];
  }

  function CoreElements(v: Version): seq<Element> {
    [NumberElement(v.major), ElementOf('.'), NumberElement(v.minor), ElementOf('.'), NumberElement(v.patch)]
  }

  lemma CoreTextElements(s: string)
    requires ParseCore(s).Some?
    ensures Elements(s) == CoreElements(ParseCore(s).value.core) + Elements(ParseCore(s).value.rest)
  {
    var major := ParseNumberDot(s).value;
    var minor := ParseNumberDot(major.rest).value;
    var patch := ParseNumber(minor.rest).value;
    NumberDotElements(s);
    NumberDotElements(major.rest);
    NumberElements(minor.rest);
    CoreParts(NumberElement(major.value), NumberElement(minor.value), NumberElement(patch.value), Elements(patch.rest));
  }

  lemma CoreParts(major: Element, minor: Element, patch: Element, rest: seq<Element>)
    ensures [major, ElementOf('.')] + ([minor, ElementOf('.')] + ([patch] + rest)) ==
      [major, ElementOf('.'), minor, ElementOf('.'), patch] + rest
  {
  }

  lemma DigitElements(s: string)
    requires s != "" && IsDigit(s[0])
    ensures DigitsAtStart(s) > 0
    ensures Elements(s) == [NumberElement(DigitsValue(s[..DigitsAtStart(s)]))] + Elements(s[DigitsAtStart(s)..])
  {
  }

  lemma SliceOfConcat<T>(s: seq<T>, t: seq<T>, n: nat)
    requires n <= |s|
    ensures (s + t)[..n] == s[..n] && (s + t)[n..] == s[n..] + t
  {
  }

  lemma Associative<T>(a: seq<T>, b: seq<T>, c: seq<T>)
    ensures (a + b) + c == a + (b + c)
  {
  }

  lemma {:induction false} ElementsConcat(s: string, t: string)
    requires t == "" || !IsDigit(t[0])
    ensures Elements(s + t) == Elements(s) + Elements(t)
    decreases |s|, 1
  {
    if s == "" {
      assert s + t == t;
    } else if IsDigit(s[0]) {
      DigitRunConcat(s, t);
    } else {
      SliceOfConcat(s, t, 1);
      ElementsConcat(s[1..], t);
      if s[0] != BOM { Associative([ElementOf(s[0])], Elements(s[1..]), Elements(t)); }
    }
  }

  lemma {:induction false} DigitRunConcat(s: string, t: string)
    requires (t == "" || !IsDigit(t[0])) && s != "" && IsDigit(s[0])
    ensures Elements(s + t) == Elements(s) + Elements(t)
    decreases |s|, 0
  {
    var n := DigitsAtStart(s);
    DigitsAtStartConcat(s, t);
    SliceOfConcat(s, t, n);
    DigitElements(s);
    DigitElements(s + t);
    ElementsConcat(s[n..], t);
    Associative([NumberElement(DigitsValue(s[..n]))], Elements(s[n..]), Elements(t));
  }

  lemma {:induction false} DigitsAtStartConcat(s: string, t: string)
    requires t == "" || !IsDigit(t[0])
    ensures DigitsAtStart(s + t) == DigitsAtStart(s)
  {
    if s == "" {
      assert s + t == t;
    } else {
      assert (s + t)[1..] == s[1..] + t;
      DigitsAtStartConcat(s[1..], t);
    }
  }

  lemma {:induction false} TrimEndRest(s: string)
    ensures |TrimEnd(s)| <= |s|
    ensures s == TrimEnd(s) + s[|TrimEnd(s)|..]
    ensures forall i :: |TrimEnd(s)| <= i < |s| ==> IsSpace(s[i])
    decreases |s|
  {
    if s != "" && IsSpace(s[|s| - 1]) { TrimEndRest(s[..|s| - 1]); }
  }

  lemma TrimEndElements(s: string)
    ensures Elements(TrimEnd(s)) <= Elements(s)
  {
    TrimEndRest(s);
    var n := |TrimEnd(s)|;
    ElementsConcat(TrimEnd(s), s[n..]);
  }

  // ---------- the order against the candidate

  lemma LowerLevelFirst(a: seq<Element>, b: seq<Element>)
    requires a != [] && b != [] && a[0].level < b[0].level
    ensures CompareElements(a, b) < 0 && CompareElements(b, a) > 0
  {
  }

  lemma {:induction false} CommonStart(p: seq<Element>, a: seq<Element>, b: seq<Element>)
    ensures CompareElements(p + a, p + b) == CompareElements(a, b)
  {
    if p == [] {
      assert p + a == a && p + b == b;
    } else {
      assert (p + a)[1..] == p[1..] + a && (p + b)[1..] == p[1..] + b;
      CommonStart(p[1..], a, b);
    }
  }

  /** Two tags compare as what follows their `v`. */
  lemma TagsCompare(a: string, b: string)
    requires (a == "" || a[0] != 'v') && (b == "" || b[0] != 'v')
    ensures NumericBase(AsTag(a), AsTag(b)) == NumericBase(a, b)
  {
    ConsElements('v', a);
    ConsElements('v', b);
    assert "v" + a == ['v'] + a && "v" + b == ['v'] + b;
    CommonStart([ElementOf('v')], Elements(a), Elements(b));
  }

  lemma CandidateElements(released: Version)
    ensures var candidate := CandidateText(released);
      && candidate != "" && candidate[0] != 'v' && Elements(candidate) == CoreElements(NextDevelopmentVersion(released))
  {
    var next := NextDevelopmentVersion(released);
    CoreTextParses(next);
    CoreTextElements(CandidateText(released));
    CoreTextTrimmed(next);
  }

  /** The text after the padding: its first element tells how the release compares. */
  lemma AfterBoms(released: string)
    requires Padded(released)
    ensures Elements(released) == Elements(SkipBoms(released)) && released[0] != 'v'
    ensures Trim(released) == Trim(SkipBoms(released))
  {
    SkippedBoms(released);
  }

  /** Ordinary white space puts the release before every tag with a number after its `v`. */
  lemma SpacedIsBehind(released: string, version: string)
    requires Padded(released) && Padded(SkipBoms(released)) && version != "" && IsDigit(version[0])
    ensures NumericBase(AsTag(version), AsTag(released)) > 0
  {
    AfterBoms(released);
    TagsCompare(version, released);
    NoBomLeft(released);
    SpacedElements(SkipBoms(released));
    LowerLevelFirst(Elements(released), Elements(version));
  }

  lemma SpacedElements(s: string)
    requires Padded(s) && s[0] != BOM
    ensures Elements(s) != [] && Elements(s)[0].level == 0
  {
  }

  lemma {:induction false} NoBomLeft(s: string)
    ensures SkipBoms(s) != "" ==> SkipBoms(s)[0] != BOM
  {
    if s != "" && s[0] == BOM { NoBomLeft(s[1..]); }
  }

  /** A second `v` after the byte order mark puts the release behind no candidate at all. */
  lemma DoubleVIsAhead(released: string, r: Version)
    requires Padded(released) && SkipBoms(released) != "" && SkipBoms(released)[0] == 'v'
    ensures NumericBase(AsTag(CandidateText(r)), AsTag(released)) < 0
  {
    AfterBoms(released);
    CandidateElements(r);
    TagsCompare(CandidateText(r), released);
    var u := SkipBoms(released);
    ConsElements('v', u[1..]);
    assert u == ['v'] + u[1..];
    LowerLevelFirst(Elements(CandidateText(r)), Elements(released));
  }

  /** A release behind byte order marks only: its elements start with its core, and go on after a prerelease. */
  lemma BareRelease(released: string)
    requires LooseParses(released) && ParseVersion(released).Some? && BomPadded(released) &&
      SkipBoms(released)[0] != 'v'
    ensures
      var r := ParseVersion(released).value;
      CoreElements(r) <= Elements(released) && (r.prerelease.Some? ==> |Elements(released)| > |CoreElements(r)|)
  {
    var bare := TrimEnd(SkipBoms(released));
    AfterBoms(released);
    UnpaddedBare(SkipBoms(released));
    TrimEndElements(SkipBoms(released));
    BareElements(bare);
  }

  lemma BareElements(bare: string)
    requires ParseBare(bare).Some?
    ensures
      var r := ParseBare(bare).value;
      CoreElements(r) <= Elements(bare) && (r.prerelease.Some? ==> |Elements(bare)| > |CoreElements(r)|)
  {
    CoreTextElements(bare);
    var rest := ParseCore(bare).value.rest;
    if rest != "" && rest[0] == '-' {
      ConsElements('-', rest[1..]);
      assert rest == ['-'] + rest[1..];
    }
  }

  lemma CandidateCompared(released: string)
    requires Padded(released) && ParseVersion(released).Some?
    ensures
      var r := ParseVersion(released).value;
      NumericBase(AsTag(CandidateText(r)), AsTag(released)) ==
      CompareElements(CoreElements(NextDevelopmentVersion(r)), Elements(released))
  {
    var r := ParseVersion(released).value;
    AfterBoms(released);
    CandidateElements(r);
    TagsCompare(CandidateText(r), released);
  }

  lemma PrefixIsBehind(core: seq<Element>, all: seq<Element>)
    requires core <= all && |core| < |all|
    ensures CompareElements(core, all) < 0
  {
    assert core + [] == core && all == core + all[|core|..];
    CommonStart(core, [], all[|core|..]);
  }

  lemma MinorDecides(major: nat, low: nat, high: nat, a: seq<Element>, b: seq<Element>)
    requires low < high
    requires [NumberElement(major), ElementOf('.'), NumberElement(low)] <= a
    requires [NumberElement(major), ElementOf('.'), NumberElement(high)] <= b
    ensures CompareElements(a, b) < 0 < CompareElements(b, a)
  {
    var p := [NumberElement(major), ElementOf('.')];
    assert a == p + a[2..] && b == p + b[2..];
    CommonStart(p, a[2..], b[2..]);
    CommonStart(p, b[2..], a[2..]);
  }

  lemma CoreStart(v: Version, all: seq<Element>)
    requires CoreElements(v) <= all
    ensures [NumberElement(v.major), ElementOf('.'), NumberElement(v.minor)] <= all
  {
  }

  // ---------- the decision under this order

  lemma PaddingCases(released: string)
    requires ParseVersion(released).Some? && Padded(released)
    ensures SkipBoms(released) != ""
  {
    AfterBoms(released);
    ParsedNotBlank(released);
  }

  lemma CoreOrder(r: Version, all: seq<Element>)
    requires CoreElements(r) <= all && (r.prerelease.Some? ==> |all| > |CoreElements(r)|)
    ensures CompareElements(CoreElements(NextDevelopmentVersion(r)), all) <= 0 <==> r.prerelease.Some?
  {
    if r.prerelease.Some? {
      PrefixIsBehind(CoreElements(r), all);
    } else {
      CoreStart(r, all);
      CoreStart(NextDevelopmentVersion(r), CoreElements(NextDevelopmentVersion(r)));
      MinorDecides(r.major, r.minor, r.minor + 1, all, CoreElements(NextDevelopmentVersion(r)));
    }
  }

  lemma BareReleaseOrder(released: string)
    requires LooseParses(released) && ParseVersion(released).Some? && BomPadded(released) &&
      SkipBoms(released)[0] != 'v'
    ensures NumericBase(AsTag(CandidateText(ParseVersion(released).value)), AsTag(released)) <= 0 <==>
      ParseVersion(released).value.prerelease.Some?
  {
    BareRelease(released);
    CandidateCompared(released);
    CoreOrder(ParseVersion(released).value, Elements(released));
  }

  /** The candidate falls behind a padded release exactly on a prerelease, or a second `v`, behind byte order marks. */
  lemma CandidateBehindIff(released: string)
    requires LooseParses(released) && ParseVersion(released).Some? && Padded(released)
    ensures NumericBase(AsTag(CandidateText(ParseVersion(released).value)), AsTag(released)) <= 0 <==>
      BomPadded(released) && (SkipBoms(released)[0] == 'v' || ParseVersion(released).value.prerelease.Some?)
  {
    var r := ParseVersion(released).value;
    PaddingCases(released);
    if Padded(SkipBoms(released)) {
      CandidateDigit(r);
      SpacedIsBehind(released, CandidateText(r));
    } else if SkipBoms(released)[0] == 'v' {
      DoubleVIsAhead(released, r);
    } else {
      BareReleaseOrder(released);
    }
  }

  lemma CandidateDigit(r: Version)
    ensures CandidateText(r) != "" && IsDigit(CandidateText(r)[0])
  {
    var first := VersionLine.NatToString(NextDevelopmentVersion(r).major);
    assert CandidateText(r)[0] == first[0];
  }

  /** When the guard fires: the release must hide a prerelease, or a second `v`, behind byte order marks. */
  lemma RefusalIff(released: string, current: string, collate: Collation)
    ensures DecideDevVersion(released, current, Locale(collate, NumericBase)) == Err(CandidateBehind) <==>
      && LooseParses(released) && LooseParses(current) && ParseVersion(released).Some? && BomPadded(released)
      && (SkipBoms(released)[0] == 'v' || ParseVersion(released).value.prerelease.Some?)
      && NumericBase(AsTag(current), AsTag(released)) <= 0
  {
    GuardFiresIff(released, current, Locale(collate, NumericBase));
    if LooseParses(released) && ParseVersion(released).Some? && Padded(released) { CandidateBehindIff(released); }
  }

  lemma TagAfterV(current: string)
    requires LooseParses(current) && !Padded(current)
    ensures SkipV(current) != "" && IsDigit(SkipV(current)[0]) && AsTag(current) == AsTag(SkipV(current))
  {
    UnpaddedTrim(current);
    BareDigit(SkipV(Trim(current)));
    AfterV(current, Trim(current));
  }

  lemma UnpaddedTrim(s: string)
    requires !Padded(s)
    ensures Trim(s) <= s
  {
  }

  lemma AfterV(s: string, trimmed: string)
    requires trimmed <= s && SkipV(trimmed) != "" && IsDigit(SkipV(trimmed)[0])
    ensures SkipV(s) != "" && SkipV(s)[0] == SkipV(trimmed)[0] && AsTag(s) == AsTag(SkipV(s))
  {
    if s[0] == 'v' {
      assert s == "v" + s[1..];
      assert s[1..][0] == trimmed[1..][0];
    }
  }

  lemma BareDigit(s: string)
    requires ParseCore(s).Some?
    ensures s != "" && IsDigit(s[0])
  {
  }

  /** A release that starts with ordinary white space leaves dev where it is, whatever the two versions are. */
  lemma SpacedReleaseLeavesDev(released: string, current: string, collate: Collation)
    requires LooseParses(released) && ParseVersion(released).Some? && Padded(released) && !BomPadded(released)
    requires LooseParses(current) && !Padded(current)
    ensures DecideDevVersion(released, current, Locale(collate, NumericBase)) == Ok(Decision(false, current))
  {
    PaddingCases(released);
    TagAfterV(current);
    SpacedIsBehind(released, SkipV(current));
    PaddedLeavesDevIff(released, current, Locale(collate, NumericBase));
  }

  // ---------- two inputs

  function Stable(minor: nat): Version {
    Version(2, minor, 0, None)
  }

  lemma StableTexts()
    ensures CoreTextOf(Stable(30)) == "2.30.0" && CoreTextOf(Stable(36)) == "2.36.0" &&
      CoreTextOf(Stable(37)) == "2.37.0"
  {
  }

  lemma {:induction false} NoPlus(s: string)
    requires '+' !in s
    ensures PlusAt(s) == |s|
  {
    if s != "" { NoPlus(s[1..]); }
  }

  lemma {:induction false} NoDots(s: string)
    requires '.' !in s
    ensures SplitDots(s) == [s]
  {
    if s != "" {
      NoDots(s[1..]);
      assert [s[0]] + s[1..] == s;
    }
  }

  lemma {:induction false} SplitAtDot(a: string, b: string)
    requires '.' !in a && '.' !in b
    ensures SplitDots(a + ("." + b)) == [a, b]
  {
    if a == "" {
      assert "" + ("." + b) == "." + b && ("." + b)[1..] == b;
      NoDots(b);
    } else {
      assert (a + ("." + b))[1..] == a[1..] + ("." + b);
      SplitAtDot(a[1..], b);
      assert [a[0]] + a[1..] == a;
    }
  }

  /** `text` is a core, a hyphen and two identifiers. */
  lemma PrereleaseParses(v: Version, first: string, second: string, text: string)
    requires v.prerelease.None? && text == CoreTextOf(v) + ("-" + (first + ("." + second)))
    requires AreIdentifiers([first, second]) && '.' !in first && '.' !in second && '+' !in first && '+' !in second
    ensures ParseBare(text) == Some(v.(prerelease := Some([first, second])))
  {
    var tail := first + ("." + second);
    CoreTextThen(v, "-" + tail);
    SplitAtDot(first, second);
    NoPlus(tail);
    TailParses(text, v, tail, [first, second]);
  }

  lemma TailParses(text: string, v: Version, tail: string, ids: seq<string>)
    requires v.prerelease.None? && ParseCore(text) == Some(CoreText(v, "-" + tail))
    requires PlusAt(tail) == |tail| && SplitDots(tail) == ids && AreIdentifiers(ids)
    ensures ParseBare(text) == Some(v.(prerelease := Some(ids)))
  {
    assert ("-" + tail)[1..] == tail && tail[..|tail|] == tail && tail[|tail|..] == "";
  }

  lemma PrereleaseText(v: Version, first: string, second: string, text: string)
    requires v.prerelease.None? && text == CoreTextOf(v) + ("-" + (first + ("." + second)))
    requires AreIdentifiers([first, second]) && '.' !in first && '.' !in second && '+' !in first && '+' !in second
    requires IsDigit(text[|text| - 1])
    ensures IsDigit(text[0]) && ParseVersion(text) == Some(v.(prerelease := Some([first, second])))
  {
    PrereleaseParses(v, first, second, text);
    CoreTextTrimmed(v);
    BareDigit(text);
    UntouchedByTrim(text);
  }

  lemma PrereleaseLoose(v: Version, rest: string)
    requires rest != "" && rest[0] == '-' && |rest| > 1 && forall i :: 0 < i < |rest| ==> !EndsLine(rest[i])
    requires IsDigit(rest[|rest| - 1])
    ensures LooseParses(CoreTextOf(v) + rest)
  {
    CoreTextThen(v, rest);
    BareDigit(CoreTextOf(v) + rest);
    UntouchedByTrim(CoreTextOf(v) + rest);
  }

  lemma UntouchedByTrim(s: string)
    requires s != "" && IsDigit(s[0]) && IsDigit(s[|s| - 1])
    ensures Trim(s) == s && SkipV(s) == s
  {
  }

  lemma NoBoms(released: string, bare: string)
    requires released == [BOM] + bare && bare != "" && IsDigit(bare[0])
    ensures SkipBoms(released) == bare && BomPadded(released)
  {
    assert released[1..] == bare;
  }

  lemma EarlierStable(released: string, v: Version, w: Version)
    requires CoreElements(v) <= Elements(released) && released != "" && released[0] != 'v'
    requires w.prerelease.None? && w.major == v.major && w.minor < v.minor
    ensures NumericBase(AsTag(CoreTextOf(w)), AsTag(released)) <= 0
  {
    var dev := CoreTextOf(w);
    CoreTextParses(w);
    CoreTextElements(dev);
    CoreTextTrimmed(w);
    CoreStart(w, Elements(dev));
    CoreStart(v, Elements(released));
    MinorDecides(v.major, w.minor, v.minor, Elements(dev), Elements(released));
    TagsCompare(dev, released);
  }

  /** White space in front changes nothing for the two patterns. */
  lemma PadIgnored(c: char, s: string)
    requires IsSpace(c)
    ensures Trim([c] + s) == Trim(s) && ParseVersion([c] + s) == ParseVersion(s)
    ensures LooseParses([c] + s) == LooseParses(s)
  {
    assert ([c] + s)[1..] == s;
  }

  lemma SpacedStable(c: char, v: Version)
    requires IsSpace(c) && c != BOM && v.prerelease.None?
    ensures
      var released := [c] + CoreTextOf(v);
      LooseParses(released) && ParseVersion(released) == Some(v) && Padded(released) && !BomPadded(released)
  {
    WrittenReadBack(v);
    PadIgnored(c, CoreTextOf(v));
  }

  lemma SpacedStableLeaves(c: char, v: Version, w: Version, collate: Collation)
    requires IsSpace(c) && c != BOM && v.prerelease.None? && w.prerelease.None?
    ensures
      var outcome := DecideDevVersion([c] + CoreTextOf(v), CoreTextOf(w), Locale(collate, NumericBase));
      outcome == Ok(Decision(false, CoreTextOf(w)))
  {
    SpacedStable(c, v);
    WrittenReadBack(w);
    SpacedReleaseLeavesDev([c] + CoreTextOf(v), CoreTextOf(w), collate);
  }

  lemma BomPrereleaseRefused(bare: string, v: Version, w: Version, collate: Collation)
    requires bare != "" && IsDigit(bare[0]) && ParseVersion(bare) == Some(v) && LooseParses(bare)
    requires v.prerelease.Some? && w.prerelease.None? && w.major == v.major && w.minor < v.minor
    ensures
      var outcome := DecideDevVersion([BOM] + bare, CoreTextOf(w), Locale(collate, NumericBase));
      outcome == Err(CandidateBehind)
  {
    var released := [BOM] + bare;
    PadIgnored(BOM, bare);
    NoBoms(released, bare);
    BareRelease(released);
    EarlierStable(released, v, w);
    WrittenReadBack(w);
    RefusalIff(released, CoreTextOf(w), collate);
  }

  /** `-first.second`. */
  function Tail(first: string, second: string): string {
    "-" + (first + ("." + second))
  }

  lemma TailLoose(first: string, second: string)
    requires AreIdentifiers([first, second]) && second != "" && IsDigit(second[|second| - 1])
    ensures
      var rest := Tail(first, second);
      && |rest| > 1 && rest[0] == '-' && IsDigit(rest[|rest| - 1]) && forall i :: 0 < i < |rest| ==> !EndsLine(rest[i])
    ensures '.' !in first && '.' !in second && '+' !in first && '+' !in second
  {
    assert [first, second][0] == first && [first, second][1] == second;
  }

  /** A prerelease behind a byte order mark is refused while dev is at an earlier minor of the same major. */
  lemma BomTailRefused(v: Version, first: string, second: string, w: Version, collate: Collation)
    requires AreIdentifiers([first, second]) && second != "" && IsDigit(second[|second| - 1])
    requires v.prerelease.None? && w.prerelease.None? && w.major == v.major && w.minor < v.minor
    ensures
      var released := [BOM] + (CoreTextOf(v) + Tail(first, second));
      DecideDevVersion(released, CoreTextOf(w), Locale(collate, NumericBase)) == Err(CandidateBehind)
  {
    TailLoose(first, second);
    PrereleaseText(v, first, second, CoreTextOf(v) + Tail(first, second));
    PrereleaseLoose(v, Tail(first, second));
    BomPrereleaseRefused(CoreTextOf(v) + Tail(first, second), v.(prerelease := Some([first, second])), w, collate);
  }

  lemma PreviewText()
    ensures AreIdentifiers(["preview", "1"]) && IsDigit("1"[0])
    ensures [BOM] + (CoreTextOf(Stable(37)) + Tail("preview", "1")) == "\U{FEFF}2.37.0-preview.1"
  {
    StableTexts();
  }

  /** A published 2.37.0-preview.1 behind a byte order mark is refused while dev is at 2.36.0. */
  lemma BomPreviewRefused(collate: Collation)
    ensures
      var outcome := DecideDevVersion("\U{FEFF}2.37.0-preview.1", "2.36.0", Locale(collate, NumericBase));
      outcome == Err(CandidateBehind)
  {
    StableTexts();
    PreviewText();
    BomTailRefused(Stable(37), "preview", "1", Stable(36), collate);
  }

  /** Dev at 2.30.0 is not moved past a published 2.36.0 that has a space in front. */
  lemma StaleDevStays(collate: Collation)
    ensures
      var outcome := DecideDevVersion(" 2.36.0", "2.30.0", Locale(collate, NumericBase));
      outcome == Ok(Decision(false, "2.30.0"))
  {
    StableTexts();
    assert [' '] + "2.36.0" == " 2.36.0";
    SpacedStableLeaves(' ', Stable(36), Stable(30), collate);
  }
}
