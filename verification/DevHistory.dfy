/** scripts/bump-dev-version.ts over a history of releases: when the development line stays ahead. */
module DevHistory {
  import opened VersionOrder
  import opened VersionText
  import opened DevVersion

  /** Where dev stands after the releases, deciding once for each; `None` after a refusal. */
  function DevAfter(start: string, releases: seq<string>, l: Locale): Option<string>
    decreases |releases|
  {
    if releases == [] then Some(start)
    else
      match DevAfter(start, releases[..|releases| - 1], l)
      case None => None
      case Some(dev) =>
        match DecideDevVersion(releases[|releases| - 1], dev, l)
        case Err(_) => None
        case Ok(decision) => Some(decision.version)
  }

  ghost predicate AllAccepted(releases: seq<string>) {
    forall i {:trigger releases[i]} :: 0 <= i < |releases| ==> Accepted(releases[i])
  }

  ghost predicate AllPlain(releases: seq<string>) {
    forall i {:trigger releases[i]} :: 0 <= i < |releases| ==> Plain(releases[i])
  }

  /** Dev outranks every version released so far. */
  ghost predicate Ahead(dev: Option<string>, releases: seq<string>, l: Locale) {
    && dev.Some? && Accepted(dev.value)
    && forall i {:trigger releases[i]} :: 0 <= i < |releases| ==> Outranks(dev.value, releases[i], l)
  }

  ghost predicate NoLower(dev: Option<string>, earlier: Option<string>, l: Locale) {
    && dev.Some? && earlier.Some? && Accepted(dev.value) && Accepted(earlier.value)
    && NotBelow(dev.value, earlier.value, l)
  }

  /** `dev` is not below where dev stood after any of these releases, or before them. */
  ghost predicate NeverAbove(start: string, releases: seq<string>, dev: Option<string>, l: Locale) {
    forall k :: 0 <= k <= |releases| ==> NoLower(dev, DevAfter(start, releases[..k], l), l)
  }

  /** After these releases dev outranks them all and is not below where it stood before. */
  ghost predicate AheadNow(start: string, releases: seq<string>, l: Locale) {
    Ahead(DevAfter(start, releases, l), releases, l) && NeverAbove(start, releases, DevAfter(start, releases, l), l)
  }

  /** And so it was all along. */
  ghost predicate KeepsAhead(start: string, releases: seq<string>, l: Locale) {
    forall k :: 0 <= k <= |releases| ==> AheadNow(start, releases[..k], l)
  }

  /** Each decision in turn is sound. */
  ghost predicate SoundAlong(start: string, releases: seq<string>, l: Locale)
    requires AllAccepted(releases)
    decreases |releases|
  {
    releases == [] ||
    (var n := |releases| - 1;
     && SoundAlong(start, releases[..n], l) && DevAfter(start, releases[..n], l).Some?
     && Sound(releases[n], DevAfter(start, releases[..n], l).value, l))
  }

  // ---------- prefixes

  lemma {:induction false} AllPrefixes<T>(s: seq<T>, p: seq<T> -> bool)
    requires s != []
    ensures (forall k :: 0 <= k <= |s| ==> p(s[..k])) <==>
      var before := s[..|s| - 1]; (forall k :: 0 <= k <= |before| ==> p(before[..k])) && p(s)
  {
    var before := s[..|s| - 1];
    assert s[..|s|] == s;
    forall k | 0 <= k <= |before| ensures before[..k] == s[..k] {}
  }

  lemma AllOfLast<T>(s: seq<T>, p: T -> bool)
    requires s != []
    ensures (forall i :: 0 <= i < |s| ==> p(s[i])) <==>
      var before := s[..|s| - 1]; (forall i :: 0 <= i < |before| ==> p(before[i])) && p(s[|s| - 1])
  {
    var before := s[..|s| - 1];
    forall i | 0 <= i < |before| ensures before[i] == s[i] {}
  }

  lemma AcceptedPrefix(releases: seq<string>)
    requires releases != [] && AllAccepted(releases)
    ensures AllAccepted(releases[..|releases| - 1]) && Accepted(releases[|releases| - 1])
  {
    AllOfLast(releases, r => Accepted(r));
  }

  // ---------- one more release

  lemma DevAfterLast(start: string, releases: seq<string>, l: Locale)
    requires releases != [] && DevAfter(start, releases[..|releases| - 1], l).Some?
    ensures
      var dev := DevAfter(start, releases[..|releases| - 1], l).value;
      var r := DecideDevVersion(releases[|releases| - 1], dev, l);
      DevAfter(start, releases, l) == if r.Ok? then Some(r.value.version) else None
  {
  }

  lemma DevAccepted(released: string, current: string, l: Locale)
    requires Accepted(released) && Accepted(current) && DecideDevVersion(released, current, l).Ok?
    ensures Accepted(DecideDevVersion(released, current, l).value.version)
  {
    AcceptedDecision(released, current, l);
    CandidateClears(released, l);
  }

  lemma AheadOfLast(dev: string, releases: seq<string>, l: Locale)
    requires releases != [] && Accepted(dev)
    ensures Ahead(Some(dev), releases, l) <==>
      Ahead(Some(dev), releases[..|releases| - 1], l) && Outranks(dev, releases[|releases| - 1], l)
  {
    AllOfLast(releases, r => Outranks(dev, r, l));
  }

  lemma StaysAhead(dev: string, next: string, releases: seq<string>, l: Locale)
    requires Orders(l) && AllAccepted(releases) && Ahead(Some(dev), releases, l)
    requires Accepted(next) && NotBelow(next, dev, l)
    ensures Ahead(Some(next), releases, l)
  {
    forall i | 0 <= i < |releases| ensures Outranks(next, releases[i], l) {
      Facts(next, dev, releases[i], l);
    }
  }

  lemma NoLowerChain(next: Option<string>, dev: Option<string>, early: Option<string>, l: Locale)
    requires Orders(l) && NoLower(next, dev, l) && NoLower(dev, early, l)
    ensures NoLower(next, early, l)
  {
    Facts(next.value, dev.value, early.value, l);
  }

  lemma SelfNoLower(dev: Option<string>, l: Locale)
    requires Orders(l) && dev.Some? && Accepted(dev.value)
    ensures NoLower(dev, dev, l)
  {
    Facts(dev.value, dev.value, dev.value, l);
  }

  lemma NeverAboveLast(start: string, releases: seq<string>, dev: Option<string>, l: Locale)
    requires releases != []
    ensures NeverAbove(start, releases, dev, l) <==>
      && NeverAbove(start, releases[..|releases| - 1], dev, l) && NoLower(dev, DevAfter(start, releases, l), l)
  {
    AllPrefixes(releases, rs => NoLower(dev, DevAfter(start, rs, l), l));
  }

  lemma NeverAboveChain(start: string, releases: seq<string>, dev: Option<string>, next: Option<string>, l: Locale)
    requires Orders(l) && NeverAbove(start, releases, dev, l) && NoLower(next, dev, l)
    ensures NeverAbove(start, releases, next, l)
  {
    forall k | 0 <= k <= |releases| ensures NoLower(next, DevAfter(start, releases[..k], l), l) {
      NoLowerChain(next, dev, DevAfter(start, releases[..k], l), l);
    }
  }

  lemma NeverAboveSelf(start: string, releases: seq<string>, dev: Option<string>, l: Locale)
    requires NeverAbove(start, releases, dev, l)
    ensures NoLower(dev, DevAfter(start, releases, l), l)
  {
    assert releases[..|releases|] == releases;
  }

  /** The last decision neither lowered dev nor left it at or behind the last release. */
  ghost predicate LastSound(start: string, releases: seq<string>, l: Locale)
    requires releases != []
  {
    && NoLower(DevAfter(start, releases, l), DevAfter(start, releases[..|releases| - 1], l), l)
    && Outranks(DevAfter(start, releases, l).value, releases[|releases| - 1], l)
  }

  /** One more release: dev stays ahead exactly when the last decision is good. */
  lemma OneMoreNow(start: string, releases: seq<string>, l: Locale)
    requires Orders(l) && releases != [] && AllAccepted(releases[..|releases| - 1])
    requires AheadNow(start, releases[..|releases| - 1], l)
    ensures AheadNow(start, releases, l) <==> LastSound(start, releases, l)
  {
    var before := releases[..|releases| - 1];
    var dev, next := DevAfter(start, before, l), DevAfter(start, releases, l);
    NeverAboveLast(start, releases, next, l);
    if AheadNow(start, releases, l) {
      NeverAboveSelf(start, before, next, l);
      AheadOfLast(next.value, releases, l);
    }
    if LastSound(start, releases, l) {
      StaysAhead(dev.value, next.value, before, l);
      AheadOfLast(next.value, releases, l);
      NeverAboveChain(start, before, dev, next, l);
      SelfNoLower(next, l);
    }
  }

  /** The last decision is good exactly when a look at its two texts says so. */
  lemma LastSoundIff(start: string, releases: seq<string>, l: Locale)
    requires Orders(l) && releases != [] && Accepted(releases[|releases| - 1])
    requires DevAfter(start, releases[..|releases| - 1], l).Some?
    requires Accepted(DevAfter(start, releases[..|releases| - 1], l).value)
    ensures LastSound(start, releases, l) <==>
      Sound(releases[|releases| - 1], DevAfter(start, releases[..|releases| - 1], l).value, l)
  {
    var last, dev := releases[|releases| - 1], DevAfter(start, releases[..|releases| - 1], l).value;
    DevAfterLast(start, releases, l);
    DecisionIff(last, dev, l);
    if DecideDevVersion(last, dev, l).Ok? { DevAccepted(last, dev, l); }
  }

  // ---------- any history

  lemma AheadAtStart(start: string, releases: seq<string>, l: Locale)
    requires Orders(l) && Accepted(start) && releases == []
    ensures KeepsAhead(start, releases, l)
  {
    SelfNoLower(Some(start), l);
    assert releases[..0] == releases;
    assert NeverAbove(start, releases, Some(start), l);
  }

  lemma KeepsAheadLast(start: string, releases: seq<string>, l: Locale)
    requires releases != []
    ensures KeepsAhead(start, releases, l) <==>
      KeepsAhead(start, releases[..|releases| - 1], l) && AheadNow(start, releases, l)
  {
    AllPrefixes(releases, rs => AheadNow(start, rs, l));
  }

  lemma KeepsAheadNow(start: string, releases: seq<string>, l: Locale)
    requires KeepsAhead(start, releases, l)
    ensures AheadNow(start, releases, l)
  {
    assert releases[..|releases|] == releases;
  }

  /**
   * Over any history of texts both patterns accept: dev outranks every version released so far and is never
   * lowered, all along, exactly when each decision in turn is sound.
   */
  lemma {:induction false} HistoryIff(start: string, releases: seq<string>, l: Locale)
    requires Orders(l) && Accepted(start) && AllAccepted(releases)
    ensures KeepsAhead(start, releases, l) <==> SoundAlong(start, releases, l)
    decreases |releases|
  {
    if releases == [] {
      AheadAtStart(start, releases, l);
    } else {
      var before := releases[..|releases| - 1];
      AcceptedPrefix(releases);
      HistoryIff(start, before, l);
      KeepsAheadLast(start, releases, l);
      if KeepsAhead(start, before, l) {
        KeepsAheadNow(start, before, l);
        OneMoreNow(start, releases, l);
        LastSoundIff(start, releases, l);
      }
    }
  }

  // ---------- releases that do not start with white space

  lemma PlainPrefix(releases: seq<string>)
    requires releases != [] && AllPlain(releases)
    ensures AllPlain(releases[..|releases| - 1]) && Plain(releases[|releases| - 1]) && AllAccepted(releases)
  {
    AllOfLast(releases, r => Plain(r));
  }

  lemma PlainAccepted(releases: seq<string>)
    requires AllPlain(releases)
    ensures AllAccepted(releases)
  {
  }

  /** None of these releases moves a dev that stands at `start`. */
  ghost predicate AllLeave(start: string, releases: seq<string>, l: Locale) {
    forall i {:trigger releases[i]} :: 0 <= i < |releases| ==> Leaves(releases[i], start, l)
  }

  lemma AllLeaveLast(start: string, releases: seq<string>, l: Locale)
    requires releases != []
    ensures AllLeave(start, releases, l) <==>
      AllLeave(start, releases[..|releases| - 1], l) && Leaves(releases[|releases| - 1], start, l)
  {
    AllOfLast(releases, r => Leaves(r, start, l));
  }

  /** Ordinary releases leave dev where it started, until the first that moves it, to an ordinary version. */
  ghost predicate PutOrPlain(start: string, releases: seq<string>, l: Locale) {
    && DevAfter(start, releases, l).Some?
    && if AllLeave(start, releases, l) then DevAfter(start, releases, l).value == start
       else Plain(DevAfter(start, releases, l).value)
  }

  lemma PutOrPlainLast(start: string, releases: seq<string>, l: Locale)
    requires Orders(l) && Accepted(start) && releases != [] && Plain(releases[|releases| - 1])
    requires PutOrPlain(start, releases[..|releases| - 1], l)
    ensures PutOrPlain(start, releases, l)
  {
    var last, dev := releases[|releases| - 1], DevAfter(start, releases[..|releases| - 1], l).value;
    AllLeaveLast(start, releases, l);
    DevAfterLast(start, releases, l);
    AcceptedDecision(last, dev, l);
    CandidateClears(last, l);
  }

  lemma {:induction false} DevPutOrPlain(start: string, releases: seq<string>, l: Locale)
    requires Orders(l) && Accepted(start) && AllPlain(releases)
    ensures PutOrPlain(start, releases, l)
    decreases |releases|
  {
    if releases != [] {
      PlainPrefix(releases);
      DevPutOrPlain(start, releases[..|releases| - 1], l);
      PutOrPlainLast(start, releases, l);
    }
  }

  /** A dev that stands where it started, when the next of these releases comes, meets it soundly. */
  ghost predicate MeetsSoundly(start: string, before: seq<string>, next: string, l: Locale) {
    AllLeave(start, before, l) ==> ParseVersion(next).Some? && Sound(next, start, l)
  }

  /** The starting text is sound for the first release that moves it, and for every one before. */
  ghost predicate StartSound(start: string, releases: seq<string>, l: Locale) {
    forall k :: 0 <= k < |releases| ==> MeetsSoundly(start, releases[..k], releases[k], l)
  }

  lemma AllSteps<T>(s: seq<T>, p: (seq<T>, T) -> bool)
    requires s != []
    ensures (forall k :: 0 <= k < |s| ==> p(s[..k], s[k])) <==>
      var before := s[..|s| - 1]; (forall k :: 0 <= k < |before| ==> p(before[..k], before[k])) && p(before, s[|s| - 1])
  {
    var before := s[..|s| - 1];
    forall k | 0 <= k < |before| ensures before[..k] == s[..k] && before[k] == s[k] {}
  }

  lemma StartSoundLast(start: string, releases: seq<string>, l: Locale)
    requires releases != []
    ensures
      var n := |releases| - 1;
      StartSound(start, releases, l) <==>
        StartSound(start, releases[..n], l) && MeetsSoundly(start, releases[..n], releases[n], l)
  {
    AllSteps(releases, (before, next) => MeetsSoundly(start, before, next, l));
  }

  lemma LastStepSound(start: string, releases: seq<string>, l: Locale)
    requires Orders(l) && Accepted(start) && releases != [] && Plain(releases[|releases| - 1])
    requires PutOrPlain(start, releases[..|releases| - 1], l)
    ensures Sound(releases[|releases| - 1], DevAfter(start, releases[..|releases| - 1], l).value, l) <==>
      MeetsSoundly(start, releases[..|releases| - 1], releases[|releases| - 1], l)
  {
    var dev := DevAfter(start, releases[..|releases| - 1], l).value;
    if !AllLeave(start, releases[..|releases| - 1], l) { PlainSound(releases[|releases| - 1], dev, l); }
  }

  lemma {:induction false} AlongIsStart(start: string, releases: seq<string>, l: Locale)
    requires Orders(l) && Accepted(start) && AllPlain(releases) && AllAccepted(releases)
    ensures SoundAlong(start, releases, l) <==> StartSound(start, releases, l)
    decreases |releases|
  {
    if releases != [] {
      var before := releases[..|releases| - 1];
      PlainPrefix(releases);
      AcceptedPrefix(releases);
      AlongIsStart(start, before, l);
      DevPutOrPlain(start, before, l);
      LastStepSound(start, releases, l);
      StartSoundLast(start, releases, l);
    }
  }

  /**
   * Over any history of releases that do not start with white space, from any dev text: dev stays ahead exactly
   * when the starting text is sound for the releases up to the first that moves it.
   */
  lemma PlainReleasesIff(start: string, releases: seq<string>, l: Locale)
    requires Orders(l) && Accepted(start) && AllPlain(releases)
    ensures AllAccepted(releases) && (KeepsAhead(start, releases, l) <==> StartSound(start, releases, l))
  {
    PlainAccepted(releases);
    HistoryIff(start, releases, l);
    AlongIsStart(start, releases, l);
  }

  /** From a dev text that does not start with white space either, dev always stays ahead. */
  lemma HistoryKeepsDevAhead(start: string, releases: seq<string>, l: Locale)
    requires Orders(l) && Plain(start) && AllPlain(releases)
    ensures KeepsAhead(start, releases, l)
  {
    PlainReleasesIff(start, releases, l);
    forall k | 0 <= k < |releases| ensures MeetsSoundly(start, releases[..k], releases[k], l) {
      PlainSound(releases[k], start, l);
    }
  }
}
