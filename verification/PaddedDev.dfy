/**
 * What the decision of scripts/bump-dev-version.ts does to dev under the text order of PaddedRelease, for every two
 * texts both patterns accept, padded or not: when dev is lowered, and when it is left at or behind the release.
 */
module PaddedDev {
  import opened TextLines
  import opened VersionOrder
  import opened VersionText
  import opened DevVersion
  import opened DevHistory
  import opened PaddedRelease

  // ---------- what follows the `v` of a tag

  lemma TagElements(t: string)
    ensures Elements(AsTag(t)) == [ElementOf('v')] + Elements(SkipV(t))
  {
    ConsElements('v', SkipV(t));
    if t != "" && t[0] == 'v' { assert t == ['v'] + t[1..]; } else { assert "v" + t == ['v'] + t; }
  }

  lemma KeysCompare(a: string, b: string)
    ensures NumericBase(AsTag(a), AsTag(b)) == CompareElements(Elements(SkipV(a)), Elements(SkipV(b)))
  {
    TagElements(a);
    TagElements(b);
    CommonStart([ElementOf('v')], Elements(SkipV(a)), Elements(SkipV(b)));
  }

  /** What the text order meets first behind the `v`: white space, a number, or another `v`. */
  datatype Kind = SpaceFirst | NumberFirst | VFirst

  function KindOf(t: string): Kind {
    if Padded(SkipBoms(t)) then SpaceFirst
    else if Padded(t) && SkipBoms(t) != "" && SkipBoms(t)[0] == 'v' then VFirst
    else NumberFirst
  }

  function Level(k: Kind): nat {
    match k
    case SpaceFirst => 0
    case NumberFirst => 2
    case VFirst => 3
  }

  lemma UnpaddedSkip(t: string)
    requires !Padded(t)
    ensures SkipBoms(t) == t
  {
  }

  /** `t` is `bare` and white space, the `v` aside. */
  lemma SkipVTrimmed(t: string, trimmed: string, w: string)
    requires t == trimmed + w && trimmed != ""
    ensures SkipV(t) == SkipV(trimmed) + w
  {
  }

  predicate AllBlank(x: seq<Element>) {
    forall i :: 0 <= i < |x| ==> x[i].level == 0
  }

  lemma {:induction false} BlankElements(w: string)
    requires forall i :: 0 <= i < |w| ==> IsSpace(w[i])
    ensures AllBlank(Elements(w))
  {
    if w != "" {
      assert w[0] in w;
      BlankElements(w[1..]);
    }
  }

  /** What a numbered text leaves behind its core: white space, or a mark that starts a prerelease. */
  ghost predicate TailOf(v: Version, tail: seq<Element>) {
    if v.prerelease.None? then AllBlank(tail) else tail != [] && tail[0].level == 1
  }

  lemma TrimSplits(u: string)
    requires !Padded(u)
    ensures Trim(u) <= u && u == Trim(u) + u[|Trim(u)|..]
    ensures forall i :: |Trim(u)| <= i < |u| ==> IsSpace(u[i])
  {
    TrimEndRest(u);
  }

  lemma TrimKeeps(u: string)
    requires ParseVersion(u).Some?
    ensures Trim(u) != ""
  {
    NothingBare("");
  }

  lemma TrimmedTail(u: string) returns (w: string)
    requires Accepted(u) && !Padded(u)
    ensures SkipV(u) == SkipV(Trim(u)) + w && forall i :: 0 <= i < |w| ==> IsSpace(w[i])
  {
    TrimSplits(u);
    TrimKeeps(u);
    w := SpacesFrom(u, |Trim(u)|);
    SkipVTrimmed(u, Trim(u), w);
  }

  lemma SpacesFrom(u: string, n: nat) returns (w: string)
    requires n <= |u| && forall i :: n <= i < |u| ==> IsSpace(u[i])
    ensures w == u[n..] && forall i :: 0 <= i < |w| ==> IsSpace(w[i])
  {
    w := u[n..];
  }

  lemma CoreAndRest(bare: string) returns (rest: string)
    requires ParseBare(bare).Some? && ParseCore(bare).Some?
    requires ParseCore(bare).value.rest == "" || ParseCore(bare).value.rest[0] == '-'
    ensures Elements(bare) == CoreElements(ParseBare(bare).value) + Elements(rest)
    ensures if ParseBare(bare).value.prerelease.None? then rest == "" else rest != "" && rest[0] == '-'
  {
    CoreTextElements(bare);
    rest := ParseCore(bare).value.rest;
  }

  lemma DashElements(rest: string)
    requires rest != "" && rest[0] == '-'
    ensures Elements(rest) != [] && Elements(rest)[0].level == 1
  {
    ConsElements('-', rest[1..]);
    assert rest == ['-'] + rest[1..];
  }

  /** An accepted text without padding: its core, then its tail. */
  lemma UnpaddedElements(u: string) returns (tail: seq<Element>)
    requires Accepted(u) && !Padded(u)
    ensures Elements(SkipV(u)) == CoreElements(ParseVersion(u).value) + tail && TailOf(ParseVersion(u).value, tail)
  {
    var w := TrimmedTail(u);
    var bare := SkipV(Trim(u));
    var rest := CoreAndRest(bare);
    tail := JoinTail(bare, rest, w, ParseVersion(u).value);
  }

  lemma JoinTail(bare: string, rest: string, w: string, v: Version) returns (tail: seq<Element>)
    requires Elements(bare) == CoreElements(v) + Elements(rest) && forall i :: 0 <= i < |w| ==> IsSpace(w[i])
    requires if v.prerelease.None? then rest == "" else rest != "" && rest[0] == '-'
    ensures Elements(bare + w) == CoreElements(v) + tail && TailOf(v, tail)
  {
    tail := Elements(rest) + Elements(w);
    ElementsConcat(bare, w);
    Associative(CoreElements(v), Elements(rest), Elements(w));
    BlankElements(w);
    if v.prerelease.Some? { DashElements(rest); }
  }

  lemma PaddedNoV(t: string)
    requires Padded(t)
    ensures SkipV(t) == t && Elements(t) == Elements(SkipBoms(t))
    ensures Accepted(t) ==> SkipBoms(t) != "" && Accepted(SkipBoms(t)) && ParseVersion(SkipBoms(t)) == ParseVersion(t)
  {
    AfterBoms(t);
    if Accepted(t) { PaddingCases(t); }
  }

  /** A text whose number comes first: its core, then its tail. */
  lemma NumberElementsOf(t: string) returns (tail: seq<Element>)
    requires Accepted(t) && KindOf(t) == NumberFirst
    ensures Elements(SkipV(t)) == CoreElements(ParseVersion(t).value) + tail && TailOf(ParseVersion(t).value, tail)
  {
    if Padded(t) {
      PaddedNoV(t);
      tail := UnpaddedElements(SkipBoms(t));
    } else {
      tail := UnpaddedElements(t);
    }
  }

  lemma SpaceLevel(t: string)
    requires Accepted(t) && KindOf(t) == SpaceFirst
    ensures Padded(t) && Elements(SkipV(t)) != [] && Elements(SkipV(t))[0].level == 0
  {
    SkippedBoms(t);
    PaddedNoV(t);
    NoBomLeft(t);
    SpacedElements(SkipBoms(t));
  }

  lemma VFirstMeans(t: string)
    requires KindOf(t) == VFirst
    ensures Padded(t) && SkipBoms(t) != "" && SkipBoms(t)[0] == 'v'
  {
  }

  lemma VElements(u: string)
    requires u != "" && u[0] == 'v'
    ensures Elements(u) != [] && Elements(u)[0].level == 3
  {
    ConsElements('v', u[1..]);
    assert u == ['v'] + u[1..];
  }

  lemma VLevel(t: string)
    requires KindOf(t) == VFirst
    ensures Elements(SkipV(t)) != [] && Elements(SkipV(t))[0].level == 3
  {
    VFirstMeans(t);
    PaddedNoV(t);
    VElements(SkipBoms(t));
  }

  lemma KindLevel(t: string)
    requires Accepted(t)
    ensures Elements(SkipV(t)) != [] && Elements(SkipV(t))[0].level == Level(KindOf(t))
  {
    match KindOf(t)
    case SpaceFirst => SpaceLevel(t);
    case VFirst => VLevel(t);
    case NumberFirst => var tail := NumberElementsOf(t);
  }

  /** Texts of different kinds are ordered by kind. */
  lemma KindsDecide(a: string, b: string)
    requires Accepted(a) && Accepted(b)
    ensures Level(KindOf(a)) < Level(KindOf(b)) ==> NumericBase(AsTag(a), AsTag(b)) < 0
    ensures Level(KindOf(a)) > Level(KindOf(b)) ==> NumericBase(AsTag(a), AsTag(b)) > 0
  {
    KeysCompare(a, b);
    KindLevel(a);
    KindLevel(b);
    var x, y := Elements(SkipV(a)), Elements(SkipV(b));
    if x[0].level < y[0].level { LowerLevelFirst(x, y); }
    if x[0].level > y[0].level { LowerLevelFirst(y, x); }
  }

  // ---------- cores

  function CompareCores(a: Version, b: Version): int {
    if a.major != b.major then a.major - b.major
    else if a.minor != b.minor then a.minor - b.minor
    else a.patch - b.patch
  }

  lemma HeadDecides(p: seq<Element>, a: seq<Element>, b: seq<Element>)
    requires a != [] && b != [] && a[0].level == b[0].level && a[0].rank != b[0].rank
    ensures CompareElements(p + a, p + b) == a[0].rank - b[0].rank
  {
    CommonStart(p, a, b);
  }

  lemma CorePieces(v: Version, x: seq<Element>)
    ensures
      var e := CoreElements(v) + x;
      && e[..2] == [NumberElement(v.major), ElementOf('.')]
      && e[..4] == [NumberElement(v.major), ElementOf('.'), NumberElement(v.minor), ElementOf('.')]
      && e[0] == NumberElement(v.major) && e[2..][0] == NumberElement(v.minor) && e[4..][0] == NumberElement(v.patch)
      && e == e[..2] + e[2..] && e == e[..4] + e[4..]
  {
  }

  /** The cores decide first, then what follows them. */
  lemma CoresDecide(a: Version, b: Version, x: seq<Element>, y: seq<Element>)
    ensures
      var result := CompareElements(CoreElements(a) + x, CoreElements(b) + y);
      if CompareCores(a, b) != 0 then result == CompareCores(a, b) else result == CompareElements(x, y)
  {
    var e, f := CoreElements(a) + x, CoreElements(b) + y;
    CorePieces(a, x);
    CorePieces(b, y);
    if a.major != b.major {
      assert CompareElements(e, f) == a.major - b.major;
    } else if a.minor != b.minor {
      HeadDecides(e[..2], e[2..], f[2..]);
    } else if a.patch != b.patch {
      HeadDecides(e[..4], e[4..], f[4..]);
    } else {
      assert CoreElements(a) == CoreElements(b);
      CommonStart(CoreElements(a), x, y);
    }
  }

  /** Two texts whose numbers come first compare by their cores, then by their tails. */
  lemma NumbersDecide(a: string, b: string) returns (x: seq<Element>, y: seq<Element>)
    requires Accepted(a) && Accepted(b) && KindOf(a) == NumberFirst && KindOf(b) == NumberFirst
    ensures TailOf(ParseVersion(a).value, x) && TailOf(ParseVersion(b).value, y)
    ensures
      var cores := CompareCores(ParseVersion(a).value, ParseVersion(b).value);
      NumericBase(AsTag(a), AsTag(b)) == if cores != 0 then cores else CompareElements(x, y)
  {
    KeysCompare(a, b);
    x := NumberElementsOf(a);
    y := NumberElementsOf(b);
    CoresDecide(ParseVersion(a).value, ParseVersion(b).value, x, y);
  }

  lemma CandidateAboveCore(released: Version, current: Version, collate: Collation)
    requires CompareCores(current, released) <= 0
    ensures CompareParsed(NextDevelopmentVersion(released), current, collate) >= 0
  {
  }

  // ---------- the decision, text by text

  function Under(collate: Collation): Locale {
    Locale(collate, NumericBase)
  }

  lemma KindOfPadded(t: string)
    requires Accepted(t) && Padded(t)
    ensures BomPadded(t) <==> KindOf(t) != SpaceFirst
    ensures BomPadded(t) ==> (SkipBoms(t)[0] == 'v' <==> KindOf(t) == VFirst)
  {
    PaddedNoV(t);
  }

  lemma KindOfUnpadded(t: string)
    requires !Padded(t)
    ensures KindOf(t) == NumberFirst
  {
    UnpaddedSkip(t);
  }

  /** Which padded releases refuse their candidate. */
  ghost predicate Hides(released: string) {
    && Padded(released) && KindOf(released) != SpaceFirst
    && (KindOf(released) == VFirst || (ParseVersion(released).Some? && ParseVersion(released).value.prerelease.Some?))
  }

  lemma RefusesIff(released: string, collate: Collation)
    requires Accepted(released)
    ensures Refuses(released, Under(collate)) <==> Hides(released)
  {
    if Padded(released) {
      KindOfPadded(released);
      CandidateBehindIff(released);
    }
  }

  /** Where both numbers come first and the text order does not put dev above, dev's core is no higher. */
  lemma NumbersBelow(released: string, current: string)
    requires Accepted(released) && Accepted(current) && KindOf(released) == NumberFirst == KindOf(current)
    requires NumericBase(AsTag(current), AsTag(released)) <= 0
    ensures CompareCores(ParseVersion(current).value, ParseVersion(released).value) <= 0
  {
    var x, y := NumbersDecide(current, released);
  }

  lemma CandidateNotBelow(released: string, current: string, l: Locale)
    requires Accepted(released) && Accepted(current)
    requires CompareCores(ParseVersion(current).value, ParseVersion(released).value) <= 0
    ensures NotBelow(CandidateOf(released), current, l)
  {
    CandidateClears(released, l);
    CandidatePlain(ParseVersion(released).value);
    WrittenReadBack(NextDevelopmentVersion(ParseVersion(released).value));
    CandidateAboveCore(ParseVersion(released).value, ParseVersion(current).value, l.collate);
  }

  /** A dev text that does not start with ordinary white space is never replaced by a lower candidate. */
  lemma UnspacedKept(released: string, current: string, collate: Collation)
    requires Consistent(collate) && Accepted(released) && Accepted(current) && KindOf(current) != SpaceFirst
    requires !Leaves(released, current, Under(collate)) && !Hides(released)
    ensures NotBelow(CandidateOf(released), current, Under(collate))
  {
    if !Padded(released) && !Padded(current) {
      PlainSound(released, current, Under(collate));
      CandidateClears(released, Under(collate));
    } else {
      KindsDecide(current, released);
      NumbersBelow(released, current);
      CandidateNotBelow(released, current, Under(collate));
    }
  }

  /** Dev goes down: the decision succeeds with a version below the one dev carries. */
  ghost predicate Lowers(released: string, current: string, l: Locale) {
    DecideDevVersion(released, current, l).Ok? && !NeverLowered(released, current, l)
  }

  /**
   * For all texts both patterns accept: dev is lowered exactly when its text starts with ordinary white space, it is
   * above the candidate, and the release neither hides what refuses the candidate nor comes behind dev's tag itself.
   */
  lemma LowersIff(released: string, current: string, collate: Collation)
    requires Consistent(collate) && Accepted(released) && Accepted(current)
    ensures Lowers(released, current, Under(collate)) <==>
      && KindOf(current) == SpaceFirst && !Hides(released) && NumericBase(AsTag(current), AsTag(released)) <= 0
      && !NotBelow(CandidateOf(released), current, Under(collate))
  {
    var l := Under(collate);
    AcceptedDecision(released, current, l);
    DecisionIff(released, current, l);
    RefusesIff(released, collate);
    if KindOf(current) == SpaceFirst {
      SpaceLevel(current);
    } else if !Leaves(released, current, l) && !Hides(released) {
      UnspacedKept(released, current, collate);
    }
  }

  /** Dev is left at or behind the release: the decision succeeds with a version that does not outrank it. */
  ghost predicate LeftBehind(released: string, current: string, l: Locale) {
    DecideDevVersion(released, current, l).Ok? && !Cleared(released, current, l)
  }

  /** `order` is how the text order compares dev's tag with the release's, and `cores` how their cores compare. */
  predicate Above(dev: Kind, release: Kind, order: int, cores: int) {
    Level(dev) > Level(release) || (dev == release && order > 0 && (dev == NumberFirst ==> cores == 0))
  }

  /** Dev's tag comes later in the text order: by what comes first behind the `v`, or by more than the cores say. */
  ghost predicate SortsAbove(current: string, released: string)
    requires Accepted(current) && Accepted(released)
  {
    Above(KindOf(current), KindOf(released), NumericBase(AsTag(current), AsTag(released)),
          CompareCores(ParseVersion(current).value, ParseVersion(released).value))
  }

  lemma CoreOutranks(released: string, current: string, l: Locale)
    requires Accepted(released) && Accepted(current)
    requires CompareCores(ParseVersion(current).value, ParseVersion(released).value) > 0
    ensures Outranks(current, released, l)
  {
  }

  lemma NumbersSort(released: string, current: string, l: Locale)
    requires Accepted(released) && Accepted(current) && KindOf(current) == NumberFirst == KindOf(released)
    requires !Outranks(current, released, l) && NumericBase(AsTag(current), AsTag(released)) > 0
    ensures CompareCores(ParseVersion(current).value, ParseVersion(released).value) == 0
  {
    var x, y := NumbersDecide(current, released);
    if CompareCores(ParseVersion(current).value, ParseVersion(released).value) > 0 {
      CoreOutranks(released, current, l);
    }
  }

  lemma AboveIff(dev: Kind, release: Kind, order: int, cores: int)
    requires (Level(dev) < Level(release) ==> order < 0) && (Level(dev) > Level(release) ==> order > 0)
    requires dev == NumberFirst == release && order > 0 ==> cores == 0
    ensures order > 0 <==> Above(dev, release, order, cores)
  {
  }

  lemma SortsAboveIff(released: string, current: string, l: Locale)
    requires Accepted(released) && Accepted(current) && !Outranks(current, released, l)
    ensures NumericBase(AsTag(current), AsTag(released)) > 0 <==> SortsAbove(current, released)
  {
    var order := NumericBase(AsTag(current), AsTag(released));
    var cores := CompareCores(ParseVersion(current).value, ParseVersion(released).value);
    KindsDecide(current, released);
    if KindOf(current) == NumberFirst == KindOf(released) && order > 0 { NumbersSort(released, current, l); }
    AboveIff(KindOf(current), KindOf(released), order, cores);
  }

  /**
   * For all texts both patterns accept: dev is left at or behind the release exactly when one of the two is padded,
   * dev does not outrank the release, and its tag sorts above all the same.
   */
  lemma LeftBehindIff(released: string, current: string, collate: Collation)
    requires Consistent(collate) && Accepted(released) && Accepted(current)
    ensures LeftBehind(released, current, Under(collate)) <==>
      && (Padded(released) || Padded(current)) && !Outranks(current, released, Under(collate))
      && SortsAbove(current, released)
  {
    var l := Under(collate);
    AcceptedDecision(released, current, l);
    DecisionIff(released, current, l);
    if !Outranks(current, released, l) { SortsAboveIff(released, current, l); }
  }

  /** A stable release behind byte order marks leaves a prerelease of its own core in place. */
  lemma OwnPrereleaseStays(released: string, current: string, collate: Collation)
    requires Consistent(collate) && Accepted(released) && Padded(released) && KindOf(released) == NumberFirst
    requires Accepted(current) && KindOf(current) == NumberFirst
    requires ParseVersion(released).value.prerelease.None? && ParseVersion(current).value.prerelease.Some?
    requires CompareCores(ParseVersion(current).value, ParseVersion(released).value) == 0
    ensures DecideDevVersion(released, current, Under(collate)) == Ok(Decision(false, current))
    ensures LeftBehind(released, current, Under(collate))
  {
    var x, y := NumbersDecide(current, released);
    TailsDecide(x, y);
    PrereleaseBehind(released, current, Under(collate));
    AcceptedDecision(released, current, Under(collate));
  }

  lemma TailsDecide(x: seq<Element>, y: seq<Element>)
    requires x != [] && x[0].level == 1 && AllBlank(y)
    ensures CompareElements(x, y) > 0
  {
    if y != [] { LowerLevelFirst(y, x); }
  }

  lemma PrereleaseBehind(released: string, current: string, l: Locale)
    requires Accepted(released) && Accepted(current)
    requires ParseVersion(released).value.prerelease.None? && ParseVersion(current).value.prerelease.Some?
    requires CompareCores(ParseVersion(current).value, ParseVersion(released).value) == 0
    ensures !Outranks(current, released, l)
  {
  }

  // ---------- a dev text that starts with ordinary white space

  /** An ordinary release always moves it to the candidate, however high it was. */
  lemma SpacedDevMoved(released: string, current: string, collate: Collation)
    requires Plain(released) && Accepted(current) && KindOf(current) == SpaceFirst
    ensures !Leaves(released, current, Under(collate))
    ensures DecideDevVersion(released, current, Under(collate)) == Ok(Decision(true, CandidateOf(released)))
  {
    KindOfUnpadded(released);
    SpaceLevel(current);
    KindsDecide(current, released);
    AcceptedDecision(released, current, Under(collate));
  }

  lemma SpacedSound(released: string, current: string, collate: Collation)
    requires Plain(released) && Accepted(current) && KindOf(current) == SpaceFirst
    ensures Sound(released, current, Under(collate)) <==> NotBelow(CandidateOf(released), current, Under(collate))
  {
    SpacedDevMoved(released, current, collate);
  }

  /** So a history of ordinary releases keeps it ahead exactly when it is not above the first candidate. */
  lemma SpacedStartIff(start: string, releases: seq<string>, collate: Collation)
    requires Consistent(collate) && AllPlain(releases) && Accepted(start) && KindOf(start) == SpaceFirst
    ensures KeepsAhead(start, releases, Under(collate)) <==>
      releases == [] || (Plain(releases[0]) && NotBelow(CandidateOf(releases[0]), start, Under(collate)))
  {
    PlainReleasesIff(start, releases, Under(collate));
    if releases != [] {
      SpacedDevMoved(releases[0], start, collate);
      SpacedSound(releases[0], start, collate);
      FirstMoves(start, releases, Under(collate));
    }
  }

  lemma FirstMoves(start: string, releases: seq<string>, l: Locale)
    requires releases != [] && !Leaves(releases[0], start, l) && Accepted(releases[0])
    ensures StartSound(start, releases, l) <==> Sound(releases[0], start, l)
  {
    assert releases[..0] == [];
    assert AllLeave(start, releases[..0], l);
    assert StartSound(start, releases, l) ==> MeetsSoundly(start, releases[..0], releases[0], l);
    forall k | 1 <= k < |releases| ensures !AllLeave(start, releases[..k], l) {
      assert releases[..k][0] == releases[0];
    }
  }

  // ---------- two inputs

  lemma SpacedKind(c: char, v: Version)
    requires IsSpace(c) && c != BOM && v.prerelease.None?
    ensures Accepted([c] + CoreTextOf(v)) && ParseVersion([c] + CoreTextOf(v)) == Some(v)
    ensures KindOf([c] + CoreTextOf(v)) == SpaceFirst
  {
    SpacedStable(c, v);
  }

  /** Between stable versions, a dev text with white space in front goes to the candidate, down included. */
  lemma SpacedStableMoved(c: char, v: Version, w: Version, collate: Collation)
    requires Consistent(collate) && IsSpace(c) && c != BOM && v.prerelease.None? && w.prerelease.None?
    ensures
      var outcome := DecideDevVersion(CoreTextOf(v), [c] + CoreTextOf(w), Under(collate));
      outcome == Ok(Decision(true, CandidateText(v)))
    ensures CompareParsed(NextDevelopmentVersion(v), w, collate) < 0 ==>
      Lowers(CoreTextOf(v), [c] + CoreTextOf(w), Under(collate))
  {
    WrittenReadBack(v);
    SpacedKind(c, w);
    SpacedDevMoved(CoreTextOf(v), [c] + CoreTextOf(w), collate);
    CandidatePlain(v);
    WrittenReadBack(NextDevelopmentVersion(v));
  }

  lemma Texts()
    ensures CoreTextOf(Stable(40)) == "2.40.0" && [' '] + CoreTextOf(Stable(40)) == " 2.40.0"
    ensures CoreTextOf(Stable(36)) == "2.36.0" && [BOM] + CoreTextOf(Stable(36)) == "\U{FEFF}2.36.0"
    ensures CandidateText(Stable(36)) == "2.37.0"
    ensures CoreTextOf(Stable(36)) + Tail("preview", "1") == "2.36.0-preview.1"
  {
    StableTexts();
    assert NextDevelopmentVersion(Stable(36)) == Stable(37);
    assert Tail("preview", "1") == "-preview.1";
  }

  /** Dev at 2.40.0 with a space in front goes down to 2.37.0 when 2.36.0 is published. */
  lemma SpacedDevLowered(collate: Collation)
    requires Consistent(collate)
    ensures DecideDevVersion("2.36.0", " 2.40.0", Under(collate)) == Ok(Decision(true, "2.37.0"))
    ensures Lowers("2.36.0", " 2.40.0", Under(collate))
  {
    Texts();
    SpacedStableMoved(' ', Stable(36), Stable(40), collate);
  }

  lemma BomKind(v: Version)
    requires v.prerelease.None?
    ensures
      var released := [BOM] + CoreTextOf(v);
      Accepted(released) && ParseVersion(released) == Some(v) && Padded(released) && KindOf(released) == NumberFirst
  {
    WrittenReadBack(v);
    CoreTextTrimmed(v);
    CoreTextParses(v);
    BareDigit(CoreTextOf(v));
    PadIgnored(BOM, CoreTextOf(v));
    NoBoms([BOM] + CoreTextOf(v), CoreTextOf(v));
    KindOfPadded([BOM] + CoreTextOf(v));
  }

  lemma DigitKind(t: string)
    requires t != "" && IsDigit(t[0])
    ensures !Padded(t) && KindOf(t) == NumberFirst
  {
    KindOfUnpadded(t);
  }

  lemma TailKind(v: Version, first: string, second: string)
    requires v.prerelease.None? && AreIdentifiers([first, second]) && second != "" && IsDigit(second[|second| - 1])
    ensures
      var dev := CoreTextOf(v) + Tail(first, second);
      Accepted(dev) && ParseVersion(dev) == Some(v.(prerelease := Some([first, second]))) && KindOf(dev) == NumberFirst
  {
    TailLoose(first, second);
    TailParsed(v, first, second, CoreTextOf(v) + Tail(first, second));
    PrereleaseLoose(v, Tail(first, second));
  }

  lemma TailParsed(v: Version, first: string, second: string, dev: string)
    requires v.prerelease.None? && dev == CoreTextOf(v) + Tail(first, second) && IsDigit(dev[|dev| - 1])
    requires AreIdentifiers([first, second]) && '.' !in first && '.' !in second && '+' !in first && '+' !in second
    ensures ParseVersion(dev) == Some(v.(prerelease := Some([first, second]))) && KindOf(dev) == NumberFirst
  {
    PrereleaseText(v, first, second, dev);
    DigitKind(dev);
  }

  lemma OwnTailStays(v: Version, first: string, second: string, collate: Collation)
    requires Consistent(collate) && v.prerelease.None?
    requires AreIdentifiers([first, second]) && second != "" && IsDigit(second[|second| - 1])
    ensures
      var released, dev := [BOM] + CoreTextOf(v), CoreTextOf(v) + Tail(first, second);
      && DecideDevVersion(released, dev, Under(collate)) == Ok(Decision(false, dev))
      && LeftBehind(released, dev, Under(collate))
  {
    BomKind(v);
    TailKind(v, first, second);
    OwnPrereleaseStays([BOM] + CoreTextOf(v), CoreTextOf(v) + Tail(first, second), collate);
  }

  /** Dev at 2.36.0-preview.1 is left there when 2.36.0 is published behind a byte order mark. */
  lemma OwnPreviewStays(collate: Collation)
    requires Consistent(collate)
    ensures
      var outcome := DecideDevVersion("\U{FEFF}2.36.0", "2.36.0-preview.1", Under(collate));
      outcome == Ok(Decision(false, "2.36.0-preview.1"))
    ensures LeftBehind("\U{FEFF}2.36.0", "2.36.0-preview.1", Under(collate))
  {
    Texts();
    PreviewText();
    OwnTailStays(Stable(36), "preview", "1", collate);
  }
}
