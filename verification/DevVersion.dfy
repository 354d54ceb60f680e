/** scripts/bump-dev-version.ts: the version the development line carries after each release. */
module DevVersion {
  import opened VersionBumps
  import VersionLine
  import opened VersionOrder
  import opened VersionText

  /** The two text orders the lenient comparator uses: one for identifiers, one for texts it cannot parse. */
  datatype Locale = Locale(collate: Collation, fallback: (string, string) -> int)

  datatype BumpError = ReleasedUnparseable | CurrentUnparseable | CandidateBehind

  datatype Decision = Decision(changed: bool, version: string)

  datatype Result<+T> = Ok(value: T) | Err(error: BumpError)

  function NextDevelopmentVersion(released: Version): Version {
    if released.prerelease.None? then Version(released.major, released.minor + 1, 0, None)
    else Version(released.major, released.minor, released.patch, None)
  }

  /** The lenient comparator on two tags. */
  function CompareTags(a: string, b: string, l: Locale): int {
    var left, right := ParseVersion(a), ParseVersion(b);
    if left.None? || right.None? then l.fallback(a, b) else CompareParsed(left.value, right.value, l.collate)
  }

  function CandidateText(released: Version): string {
    CoreTextOf(NextDevelopmentVersion(released))
  }

  function DecideDevVersion(released: string, current: string, l: Locale): (r: Result<Decision>)
    ensures r.Ok? ==> ParseVersion(released).Some?
    ensures r.Ok? ==>
      r.value.version == if r.value.changed then CandidateText(ParseVersion(released).value) else current
  {
    if !LooseParses(released) then Err(ReleasedUnparseable)
    else if !LooseParses(current) then Err(CurrentUnparseable)
    else if ParseVersion(released).None? then Err(ReleasedUnparseable)
    else
      var candidate := CandidateText(ParseVersion(released).value);
      if CompareTags(AsTag(current), AsTag(released), l) > 0 then Ok(Decision(false, current))
      else if CompareTags(AsTag(candidate), AsTag(released), l) <= 0 then Err(CandidateBehind)
      else Ok(Decision(true, candidate))
  }

  /** A version text both patterns accept. */
  ghost predicate Accepted(t: string) {
    LooseParses(t) && ParseVersion(t).Some?
  }

  /** And that does not start with white space. */
  ghost predicate Plain(t: string) {
    Accepted(t) && !Padded(t)
  }

  ghost predicate Orders(l: Locale) {
    Consistent(l.collate)
  }

  lemma NextOutranks(released: Version, collate: Collation)
    ensures CompareParsed(NextDevelopmentVersion(released), released, collate) > 0
  {
  }

  // ---------- when the guard on the candidate fires

  lemma CandidatePlain(released: Version)
    ensures Plain(CandidateText(released))
    ensures ParseVersion(AsTag(CandidateText(released))) == Some(NextDevelopmentVersion(released))
  {
    WrittenReadBack(NextDevelopmentVersion(released));
    TagFormIff(CandidateText(released));
  }

  lemma CompareParsedTags(a: string, b: string, l: Locale)
    requires ParseVersion(a).Some? && ParseVersion(b).Some?
    ensures CompareTags(a, b, l) == CompareParsed(ParseVersion(a).value, ParseVersion(b).value, l.collate)
  {
  }

  /** Released texts that do not start with white space never trip the guard. */
  lemma UnpaddedNeverFires(released: string, current: string, l: Locale)
    requires !Padded(released)
    ensures DecideDevVersion(released, current, l) != Err(CandidateBehind)
  {
    if ParseVersion(released).Some? {
      var r := ParseVersion(released).value;
      TagFormIff(released);
      CandidatePlain(r);
      CompareParsedTags(AsTag(CandidateText(r)), AsTag(released), l);
      NextOutranks(r, l.collate);
    }
  }

  /** On a padded release both comparisons are left to the text order. */
  lemma PaddedDecision(released: string, current: string, l: Locale)
    requires LooseParses(released) && ParseVersion(released).Some? && Padded(released) && LooseParses(current)
    ensures
      var candidate := CandidateText(ParseVersion(released).value);
      DecideDevVersion(released, current, l) ==
        if l.fallback(AsTag(current), AsTag(released)) > 0 then Ok(Decision(false, current))
        else if l.fallback(AsTag(candidate), AsTag(released)) <= 0 then Err(CandidateBehind)
        else Ok(Decision(true, candidate))
  {
    TagFormIff(released);
  }

  /** The guard fires exactly on padded releases whose tag the text order puts at or above both dev and candidate. */
  lemma GuardFiresIff(released: string, current: string, l: Locale)
    ensures DecideDevVersion(released, current, l) == Err(CandidateBehind) <==>
      && LooseParses(released) && LooseParses(current) && ParseVersion(released).Some? && Padded(released)
      && l.fallback(AsTag(current), AsTag(released)) <= 0
      && l.fallback(AsTag(CandidateText(ParseVersion(released).value)), AsTag(released)) <= 0
  {
    if LooseParses(released) && LooseParses(current) && ParseVersion(released).Some? {
      if Padded(released) { PaddedDecision(released, current, l); } else { UnpaddedNeverFires(released, current, l); }
    }
  }

  /** A padded release leaves dev alone, however stale, exactly when the text order puts dev's tag above its own. */
  lemma PaddedLeavesDevIff(released: string, current: string, l: Locale)
    requires LooseParses(released) && ParseVersion(released).Some? && Padded(released)
    ensures DecideDevVersion(released, current, l) == Ok(Decision(false, current)) <==>
      LooseParses(current) && l.fallback(AsTag(current), AsTag(released)) > 0
  {
    if LooseParses(current) { PaddedDecision(released, current, l); }
  }

  /** Which text is refused as unparseable: the release is looked at first, and once more strictly after dev. */
  lemma UnparseableIff(released: string, current: string, l: Locale)
    ensures DecideDevVersion(released, current, l) == Err(ReleasedUnparseable) <==>
      !LooseParses(released) || (LooseParses(current) && ParseVersion(released).None?)
    ensures DecideDevVersion(released, current, l) == Err(CurrentUnparseable) <==>
      LooseParses(released) && !LooseParses(current)
  {
    var known, dev, parsed := LooseParses(released), LooseParses(current), ParseVersion(released).Some?;
    var r := DecideDevVersion(released, current, l);
    assert !known ==> r == Err(ReleasedUnparseable);
    assert known && !dev ==> r == Err(CurrentUnparseable);
    assert known && dev && !parsed ==> r == Err(ReleasedUnparseable);
    assert known && dev && parsed ==> r.Ok? || r == Err(CandidateBehind);
  }

  // ---------- one decision

  ghost predicate Outranks(a: string, b: string, l: Locale) {
    var left, right := ParseVersion(a), ParseVersion(b);
    left.Some? && right.Some? && CompareParsed(left.value, right.value, l.collate) > 0
  }

  ghost predicate NotBelow(a: string, b: string, l: Locale) {
    var left, right := ParseVersion(a), ParseVersion(b);
    left.Some? && right.Some? && CompareParsed(left.value, right.value, l.collate) >= 0
  }

  lemma Facts(x: string, y: string, z: string, l: Locale)
    requires Orders(l) && Accepted(x) && Accepted(y) && Accepted(z)
    ensures Outranks(x, y, l) && NotBelow(y, z, l) ==> Outranks(x, z, l)
    ensures NotBelow(x, y, l) && Outranks(y, z, l) ==> Outranks(x, z, l)
    ensures NotBelow(x, y, l) && NotBelow(y, z, l) ==> NotBelow(x, z, l)
    ensures NotBelow(x, x, l) && (NotBelow(x, y, l) || Outranks(y, x, l)) && (Outranks(x, y, l) ==> NotBelow(x, y, l))
  {
    VersionFacts(ParseVersion(x).value, ParseVersion(y).value, ParseVersion(z).value, l.collate);
  }

  lemma VersionFacts(a: Version, b: Version, c: Version, collate: Collation)
    requires Consistent(collate)
    ensures CompareParsed(a, b, collate) > 0 && CompareParsed(b, c, collate) >= 0 ==> CompareParsed(a, c, collate) > 0
    ensures CompareParsed(a, b, collate) >= 0 && CompareParsed(b, c, collate) > 0 ==> CompareParsed(a, c, collate) > 0
    ensures CompareParsed(a, b, collate) >= 0 && CompareParsed(b, c, collate) >= 0 ==> CompareParsed(a, c, collate) >= 0
    ensures CompareParsed(a, a, collate) == 0
    ensures CompareParsed(a, b, collate) >= 0 || CompareParsed(b, a, collate) > 0
  {
    ComparatorConsistent(collate);
    var compare := (a, b) => CompareParsed(a, b, collate);
    assert Chains(compare(c, b), compare(b, a), compare(c, a));
    assert Opposite(compare(a, b), compare(b, a));
    assert Opposite(compare(b, c), compare(c, b)) && Opposite(compare(a, c), compare(c, a));
    assert compare(a, a) == 0;
  }

  function CandidateOf(released: string): string
    requires ParseVersion(released).Some?
  {
    CandidateText(ParseVersion(released).value)
  }

  /** Dev is left where it is: it outranks the release, or, where a tag form does not parse, the text order says so. */
  ghost predicate Leaves(released: string, current: string, l: Locale) {
    if Padded(released) || Padded(current) then l.fallback(AsTag(current), AsTag(released)) > 0
    else Outranks(current, released, l)
  }

  /** The candidate is refused, if dev is not left where it is. */
  ghost predicate Refuses(released: string, l: Locale)
    requires ParseVersion(released).Some?
  {
    Padded(released) && l.fallback(AsTag(CandidateOf(released)), AsTag(released)) <= 0
  }

  /** On ordinary texts the decision asks whether dev outranks the release, and otherwise takes the candidate. */
  lemma PlainDecision(released: string, current: string, l: Locale)
    requires Plain(released) && Plain(current)
    ensures DecideDevVersion(released, current, l) ==
      if Outranks(current, released, l) then Ok(Decision(false, current))
      else Ok(Decision(true, CandidateText(ParseVersion(released).value)))
  {
    UnpaddedNeverFires(released, current, l);
    TagFormIff(released);
    TagFormIff(current);
    CompareParsedTags(AsTag(current), AsTag(released), l);
  }

  /** On a padded dev the first comparison is left to the text order; the second is not. */
  lemma PaddedDevDecision(released: string, current: string, l: Locale)
    requires Plain(released) && Accepted(current) && Padded(current)
    ensures DecideDevVersion(released, current, l) ==
      if l.fallback(AsTag(current), AsTag(released)) > 0 then Ok(Decision(false, current))
      else Ok(Decision(true, CandidateText(ParseVersion(released).value)))
  {
    UnpaddedNeverFires(released, current, l);
    TagFormIff(current);
  }

  /** The decision on any two texts that both patterns accept. */
  lemma AcceptedDecision(released: string, current: string, l: Locale)
    requires Accepted(released) && Accepted(current)
    ensures DecideDevVersion(released, current, l) ==
      if Leaves(released, current, l) then Ok(Decision(false, current))
      else if Refuses(released, l) then Err(CandidateBehind)
      else Ok(Decision(true, CandidateOf(released)))
  {
    if Padded(released) { PaddedDecision(released, current, l); }
    else if Padded(current) { PaddedDevDecision(released, current, l); }
    else { PlainDecision(released, current, l); }
  }

  ghost predicate NeverLowered(released: string, current: string, l: Locale) {
    var r := DecideDevVersion(released, current, l);
    r.Ok? && NotBelow(r.value.version, current, l)
  }

  ghost predicate Cleared(released: string, current: string, l: Locale) {
    var r := DecideDevVersion(released, current, l);
    r.Ok? && Outranks(r.value.version, released, l)
  }

  /** What a caller can look at before the decision: it will neither lower dev nor leave it at or behind the release. */
  ghost predicate Sound(released: string, current: string, l: Locale)
    requires ParseVersion(released).Some?
  {
    if Leaves(released, current, l) then Outranks(current, released, l)
    else !Refuses(released, l) && NotBelow(CandidateOf(released), current, l)
  }

  lemma CandidateClears(released: string, l: Locale)
    requires Accepted(released)
    ensures Plain(CandidateOf(released)) && Outranks(CandidateOf(released), released, l)
  {
    CandidatePlain(ParseVersion(released).value);
    WrittenReadBack(NextDevelopmentVersion(ParseVersion(released).value));
    NextOutranks(ParseVersion(released).value, l.collate);
  }

  /** For all texts both patterns accept: exactly when a decision does not lower dev, and when it clears the release. */
  lemma DecisionIff(released: string, current: string, l: Locale)
    requires Orders(l) && Accepted(released) && Accepted(current)
    ensures NeverLowered(released, current, l) <==>
      Leaves(released, current, l) || (!Refuses(released, l) && NotBelow(CandidateOf(released), current, l))
    ensures Cleared(released, current, l) <==>
      if Leaves(released, current, l) then Outranks(current, released, l) else !Refuses(released, l)
    ensures NeverLowered(released, current, l) && Cleared(released, current, l) <==> Sound(released, current, l)
  {
    AcceptedDecision(released, current, l);
    CandidateClears(released, l);
    Facts(current, released, released, l);
  }

  /** Deciding again about the same release changes nothing, for all texts both patterns accept. */
  lemma DecidingAgain(released: string, current: string, l: Locale)
    requires Accepted(released) && Accepted(current) && DecideDevVersion(released, current, l).Ok?
    ensures
      var next := DecideDevVersion(released, current, l).value.version;
      Accepted(next) && DecideDevVersion(released, next, l) == Ok(Decision(false, next))
  {
    AcceptedDecision(released, current, l);
    CandidateClears(released, l);
    AcceptedDecision(released, CandidateOf(released), l);
  }

  /** Between ordinary texts every decision is sound. */
  lemma PlainSound(released: string, current: string, l: Locale)
    requires Orders(l) && Plain(released) && Plain(current)
    ensures Sound(released, current, l)
  {
    CandidateClears(released, l);
    Facts(CandidateOf(released), released, current, l);
    Facts(released, current, current, l);
  }

  /** One decision on ordinary texts: dev is not lowered, the release is cleared, and deciding again changes nothing. */
  lemma DecisionClears(released: string, current: string, l: Locale)
    requires Orders(l) && Plain(released) && Plain(current)
    ensures NeverLowered(released, current, l) && Cleared(released, current, l)
    ensures
      var d := DecideDevVersion(released, current, l).value;
      && Plain(d.version) && (d.changed <==> !Outranks(current, released, l))
      && DecideDevVersion(released, d.version, l) == Ok(Decision(false, d.version))
  {
    PlainSound(released, current, l);
    DecisionIff(released, current, l);
    DecidingAgain(released, current, l);
    PlainDecision(released, current, l);
    CandidateClears(released, l);
  }

  /** The version dev carries after this release, by precedence alone: the next line, or the release itself. */
  ghost predicate IsNextDev(r: Version, v: Version) {
    if r.prerelease.None? then IsBump(r, VersionLine.Minor, v)
    else IsLeastStableAbove(r, v) && v.major == r.major && v.minor == r.minor && v.patch == r.patch
  }

  lemma NextDevIs(r: Version)
    ensures IsNextDev(r, NextDevelopmentVersion(r))
  {
    LeastStableAbove(r);
    if r.prerelease.None? { BumpIff(r, VersionLine.Minor, NextDevelopmentVersion(r)); }
  }

  lemma CandidateReadBack(r: Version)
    ensures Plain(CandidateText(r)) && ParseVersion(CandidateText(r)) == Some(NextDevelopmentVersion(r))
  {
    CandidatePlain(r);
    WrittenReadBack(NextDevelopmentVersion(r));
  }

  /**
   * The version a decision moves dev to reads back as the least stable version above the released minor line, and
   * after a prerelease as its own release, the least stable version above it. A decision that moves nothing keeps dev.
   */
  lemma DevMovesTo(released: string, current: string, l: Locale)
    requires DecideDevVersion(released, current, l).Ok?
    ensures
      var d := DecideDevVersion(released, current, l).value;
      var r, v := ParseVersion(released), ParseVersion(d.version);
      && r.Some?
      && (if d.changed then v.Some? && Plain(d.version) && IsNextDev(r.value, v.value) else d.version == current)
  {
    var r := ParseVersion(released).value;
    CandidateReadBack(r);
    NextDevIs(r);
  }
}
