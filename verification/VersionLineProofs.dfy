/** When the release resolvers refuse, and that what they return outranks everything published. */
module VersionLineProofs {
  import opened Sorting
  import opened VersionOrder
  import opened VersionBumps
  import opened VersionLine

  ghost predicate AllParsed(tags: seq<Tag>) {
    forall i :: 0 <= i < |tags| ==> tags[i].Some?
  }

  ghost predicate AllPreviews(tags: seq<Tag>) {
    forall i :: 0 <= i < |tags| ==> IsPreview(tags[i])
  }

  /** `v` is among the tags and none outranks it. */
  ghost predicate IsNewest(v: Version, tags: seq<Tag>) {
    Some(v) in tags && forall i :: 0 <= i < |tags| && tags[i].Some? ==> Compare(tags[i].value, v) <= 0
  }

  ghost predicate OutranksAll(v: Version, tags: seq<Tag>) {
    forall i :: 0 <= i < |tags| && tags[i].Some? ==> Compare(v, tags[i].value) > 0
  }

  lemma {:induction false} NewestFromIsMax(newest: Option<Version>, tags: seq<Tag>)
    ensures NewestFrom(newest, tags).Ok? <==> AllParsed(tags)
    ensures AllParsed(tags) ==>
      (NewestFrom(newest, tags).value.None? <==> newest.None? && tags == [])
    ensures AllParsed(tags) && (newest.Some? || tags != []) ==>
      IsNewest(NewestFrom(newest, tags).value.value, (if newest.Some? then [newest] else []) + tags)
    decreases |tags|
  {
    if tags == [] {
      if newest.Some? { CompareFacts(newest.value, newest.value, newest.value); }
    } else if tags[0].Some? {
      var next := if newest.None? || Compare(tags[0].value, newest.value) > 0 then tags[0] else newest;
      NewestFromIsMax(next, tags[1..]);
      assert tags == [tags[0]] + tags[1..];
      if AllParsed(tags[1..]) {
        forall i | 0 <= i < |tags| ensures tags[i].Some? { if i > 0 { assert tags[i] == tags[1..][i - 1]; } }
        NewestStep(newest, tags, next, NewestFrom(newest, tags).value.value);
      }
    }
  }

  lemma NewestStep(newest: Option<Version>, tags: seq<Tag>, next: Option<Version>, m: Version)
    requires tags != [] && AllParsed(tags)
    requires next == if newest.None? || Compare(tags[0].value, newest.value) > 0 then tags[0] else newest
    requires IsNewest(m, [next] + tags[1..])
    ensures IsNewest(m, (if newest.Some? then [newest] else []) + tags)
  {
    var rest := [next] + tags[1..];
    var all := (if newest.Some? then [newest] else []) + tags;
    assert rest[0] == next;
    assert next in all && forall t :: t in tags[1..] ==> t in all;
    forall i | 0 <= i < |all| ensures Compare(all[i].value, m) <= 0 {
      CompareFacts(all[i].value, next.value, m);
      CompareFacts(next.value, all[i].value, m);
      var j := if newest.Some? then i - 1 else i;
      if j > 0 { assert all[i] == tags[j] == rest[j]; }
    }
  }

  /** The reduce returns a maximum of the comparator. */
  lemma NewestVersionIsMax(tags: seq<Tag>)
    ensures NewestVersion(tags).Ok? <==> AllParsed(tags)
    ensures AllParsed(tags) ==> (NewestVersion(tags).value.None? <==> tags == [])
    ensures AllParsed(tags) && tags != [] ==> IsNewest(NewestVersion(tags).value.value, tags)
  {
    NewestFromIsMax(None, tags);
    assert [] + tags == tags;
  }

  /** The floor check passes exactly when the candidate outranks every published tag. */
  lemma FloorIff(candidate: Version, published: seq<Tag>)
    requires AllParsed(published)
    ensures AssertAboveGlobalFloor(candidate, published).Ok? <==> OutranksAll(candidate, published)
    ensures AssertAboveGlobalFloor(candidate, published).Err? ==>
      AssertAboveGlobalFloor(candidate, published).error.BelowFloor?
  {
    NewestVersionIsMax(published);
    if published != [] {
      var floor := NewestVersion(published).value.value;
      forall i | 0 <= i < |published|
        ensures Compare(candidate, floor) > 0 ==> Compare(candidate, published[i].value) > 0
      {
        CompareFacts(published[i].value, floor, candidate);
        CompareFacts(floor, candidate, floor);
        CompareFacts(candidate, published[i].value, candidate);
      }
    }
  }

  lemma {:induction false} FilterKeeps(previews: seq<Tag>, keep: Version -> bool)
    ensures FilterPreviews(previews, keep).Ok? <==> AllPreviews(previews)
    ensures AllPreviews(previews) ==> var kept := FilterPreviews(previews, keep).value;
      AllPreviews(kept) && AllParsed(kept) && forall t :: t in kept <==> t in previews && t.Some? && keep(t.value)
    ensures FilterPreviews(previews, keep).Err? ==> FilterPreviews(previews, keep).error == NotPreview
  {
    if previews != [] {
      FilterKeeps(previews[1..], keep);
      assert previews == [previews[0]] + previews[1..];
      if AllPreviews(previews[1..]) && IsPreview(previews[0]) {
        forall i | 0 <= i < |previews| ensures IsPreview(previews[i]) {
          if i > 0 { assert previews[i] == previews[1..][i - 1]; }
        }
      }
    }
  }

  /** Some preview's core is above the given one. */
  ghost predicate HigherCoreOpen(core: Version, previews: seq<Tag>) {
    exists t :: t in previews && IsPreview(t) && Compare(Core(t.value), core) > 0
  }

  lemma HigherCorePreviewIff(base: Version, previews: seq<Tag>)
    requires AllPreviews(previews)
    ensures HigherCorePreview(base, previews).Ok?
    ensures HigherCorePreview(base, previews).value.Some? <==> HigherCoreOpen(Core(base), previews)
    ensures
      var blocker := HigherCorePreview(base, previews).value;
      blocker.Some? ==> blocker in previews && Compare(Core(blocker.value), Core(base)) > 0
  {
    var keep := (v: Version) => Compare(Core(v), Core(base)) > 0;
    FilterKeeps(previews, keep);
    var kept := FilterPreviews(previews, keep).value;
    NewestVersionIsMax(kept);
    if kept != [] { assert kept[0] in kept && kept[0] in previews; }
  }

  /** A prerelease against a stable version is decided by its core. */
  lemma PreviewAgainstStable(v: Version, c: Version)
    requires v.prerelease.Some? && c.prerelease.None?
    ensures Compare(c, v) > 0 <==> !(Compare(Core(v), c) > 0)
  {
  }

  lemma BumpAboveBase(base: Version, kind: BumpKind, v: Version)
    requires base.prerelease.None? && Compare(v, base) <= 0
    ensures Compare(BumpCore(base, kind), v) > 0
  {
    CompareFacts(v, base, BumpCore(base, kind));
    CompareFacts(v, BumpCore(base, kind), v);
  }

  lemma StableBaseIsMax(tip: Option<Tag>, tags: seq<Tag>)
    requires StableBase(tip, tags).Ok?
    ensures var candidates := WithTip(tip, tags);
      IsNewest(StableBase(tip, tags).value, candidates) && AllParsed(candidates)
      && StableBase(tip, tags).value.prerelease.None?
      && forall i :: 0 <= i < |candidates| ==> IsStable(candidates[i])
  {
    var candidates := WithTip(tip, tags);
    NewestVersionIsMax(candidates);
  }

  /** There is a stable base exactly when there is a tip or a tag and every one of them is a stable version. */
  lemma StableBaseIff(tip: Option<Tag>, tags: seq<Tag>)
    ensures StableBase(tip, tags).Ok? <==>
      (tip.Some? || tags != []) && (tip.Some? ==> IsStable(tip.value)) &&
      forall i :: 0 <= i < |tags| ==> IsStable(tags[i])
    ensures StableBase(tip, tags).Err? ==>
      StableBase(tip, tags).error == if tip.None? && tags == [] then NoStableBase else NotStable
  {
    var candidates := WithTip(tip, tags);
    NewestVersionIsMax(candidates);
    if tip.Some? {
      assert candidates[0] == tip.value;
      assert forall i :: 0 <= i < |tags| ==> candidates[i + 1] == tags[i];
    }
  }

  lemma OutranksConcat(v: Version, a: seq<Tag>, b: seq<Tag>)
    ensures OutranksAll(v, a + b) <==> OutranksAll(v, a) && OutranksAll(v, b)
  {
    if OutranksAll(v, a + b) {
      forall i | 0 <= i < |b| && b[i].Some? ensures Compare(v, b[i].value) > 0 { assert (a + b)[|a| + i] == b[i]; }
      forall i | 0 <= i < |a| && a[i].Some? ensures Compare(v, a[i].value) > 0 { assert (a + b)[i] == a[i]; }
    }
  }

  /** A bumped core outranks every stable tag, and the previews exactly when none has a higher core. */
  lemma BumpOutranksIff(tip: Option<Tag>, stableTags: seq<Tag>, previews: seq<Tag>, kind: BumpKind)
    requires StableBase(tip, stableTags).Ok? && AllPreviews(previews)
    ensures var candidate := BumpCore(StableBase(tip, stableTags).value, kind);
      && OutranksAll(candidate, WithTip(tip, stableTags))
      && (OutranksAll(candidate, previews) <==> !HigherCoreOpen(candidate, previews))
  {
    StableBaseIsMax(tip, stableTags);
    var base := StableBase(tip, stableTags).value;
    var candidate := BumpCore(base, kind);
    var stables := WithTip(tip, stableTags);
    forall i | 0 <= i < |stables| ensures Compare(candidate, stables[i].value) > 0 {
      BumpAboveBase(base, kind, stables[i].value);
    }
    forall i | 0 <= i < |previews|
      ensures Compare(candidate, previews[i].value) > 0 <==> !(Compare(Core(previews[i].value), candidate) > 0)
    {
      PreviewAgainstStable(previews[i].value, candidate);
    }
    if !HigherCoreOpen(candidate, previews) {
      forall i | 0 <= i < |previews| && previews[i].Some? ensures Compare(candidate, previews[i].value) > 0 {
        assert previews[i] in previews;
      }
    }
  }

  /** With no core above the base, no core is above its bump either. */
  lemma NoBlockerNoFloor(base: Version, kind: BumpKind, previews: seq<Tag>)
    requires base.prerelease.None? && !HigherCoreOpen(base, previews)
    ensures !HigherCoreOpen(BumpCore(base, kind), previews)
    ensures forall t :: t in previews && IsPreview(t) ==> Core(t.value) != BumpCore(base, kind)
  {
    forall t | t in previews && IsPreview(t)
      ensures !(Compare(Core(t.value), BumpCore(base, kind)) > 0) && Core(t.value) != BumpCore(base, kind)
    {
      var v := Core(t.value);
      CompareFacts(v, base, BumpCore(base, kind));
      CompareFacts(BumpCore(base, kind), v, base);
      CompareFacts(v, v, v);
      BumpAboveBase(base, kind, v);
    }
  }

  lemma AllParsedConcat(a: seq<Tag>, b: seq<Tag>)
    requires AllParsed(a) && AllPreviews(b)
    ensures AllParsed(a + b)
  {
  }

  /**
   * The stable resolver refuses exactly when: a patch, while some preview has a core above the base; a minor or major,
   * when some preview has a core above the bumped one. A patch never hits the floor. What it yields is the least
   * stable version that changes the asked component.
   */
  lemma StableRefusesIff(kind: BumpKind, tip: Option<Tag>, stableTags: seq<Tag>, previews: seq<Tag>)
    returns (core: Version)
    requires StableBase(tip, stableTags).Ok? && AllPreviews(previews)
    ensures var base := StableBase(tip, stableTags).value;
      var r := NextStableRelease(kind, tip, stableTags, previews);
      && IsBump(base, kind, core)
      && (r.Ok? <==> !HigherCoreOpen(if kind == Patch then base else core, previews))
      && (r.Err? ==> if kind == Patch then r.error.Blocked? else r.error.BelowFloor?)
      && (r.Ok? ==> r.value == core)
  {
    var base := StableBase(tip, stableTags).value;
    StableBaseIsMax(tip, stableTags);
    core := BumpCore(base, kind);
    BumpIff(base, kind, core);
    HigherCorePreviewIff(base, previews);
    assert Core(base) == base;
    if !HigherCoreOpen(base, previews) { NoBlockerNoFloor(base, kind, previews); }
    BumpOutranksIff(tip, stableTags, previews, kind);
    AllParsedConcat(WithTip(tip, stableTags), previews);
    FloorIff(BumpCore(base, kind), WithTip(tip, stableTags) + previews);
    OutranksConcat(BumpCore(base, kind), WithTip(tip, stableTags), previews);
  }

  /** What either resolver refuses before it looks at a bump: the stamp, the stable line, the previews. */
  lemma MalformedRefused(
    kind: BumpKind, stableTip: Option<Tag>, stableTags: seq<Tag>, previewTip: Option<Tag>, previewTags: seq<Tag>,
    stamp: string)
    ensures
      var base := StableBase(stableTip, stableTags);
      var stable := NextStableRelease(kind, stableTip, stableTags, previewTags);
      && (base.Err? ==> stable == Err(base.error))
      && (base.Ok? && kind == Patch && !AllPreviews(previewTags) ==> stable == Err(NotPreview))
      && (base.Ok? && kind != Patch && !AllParsed(previewTags) ==> stable == Err(Unparseable))
    ensures
      var base := StableBase(stableTip, stableTags);
      var preview := NextPreviewRelease(kind, stableTip, stableTags, previewTip, previewTags, stamp);
      if !(|stamp| == 8 && IsDigits(stamp)) then preview == Err(BadStamp)
      else if base.Err? then preview == Err(base.error)
      else !AllPreviews(WithTip(previewTip, previewTags)) ==> preview == Err(NotPreview)
  {
    var base := StableBase(stableTip, stableTags);
    if base.Ok? {
      var higher := (v: Version) => Compare(Core(v), Core(base.value)) > 0;
      var same := (v: Version) => Core(v) == BumpCore(base.value, kind);
      FilterKeeps(previewTags, higher);
      FilterKeeps(WithTip(previewTip, previewTags), higher);
      FilterKeeps(WithTip(previewTip, previewTags), same);
      if !AllParsed(previewTags) {
        UnparsedBelowFloor(BumpCore(base.value, kind), WithTip(stableTip, stableTags), previewTags);
      }
    }
  }

  lemma UnparsedBelowFloor(candidate: Version, stables: seq<Tag>, previews: seq<Tag>)
    requires !AllParsed(previews)
    ensures AssertAboveGlobalFloor(candidate, stables + previews) == Err(Unparseable)
  {
    var i :| 0 <= i < |previews| && previews[i].None?;
    assert (stables + previews)[|stables| + i].None?;
    NewestVersionIsMax(stables + previews);
    OnlyUnparseable(None, stables + previews);
  }

  lemma {:induction false} OnlyUnparseable(newest: Option<Version>, tags: seq<Tag>)
    ensures NewestFrom(newest, tags).Err? ==> NewestFrom(newest, tags).error == Unparseable
    decreases |tags|
  {
    if tags != [] && tags[0].Some? {
      OnlyUnparseable(
        if newest.None? || Compare(tags[0].value, newest.value) > 0 then tags[0] else newest, tags[1..]);
    }
  }

  lemma FloorPassed(candidate: Version, published: seq<Tag>)
    requires AssertAboveGlobalFloor(candidate, published).Ok?
    ensures OutranksAll(candidate, published)
  {
    NewestVersionIsMax(published);
    FloorIff(candidate, published);
  }

  /** Whatever either resolver returns outranks everything published, malformed previews or not. */
  lemma StableOutranksAll(kind: BumpKind, tip: Option<Tag>, stableTags: seq<Tag>, previewTags: seq<Tag>)
    requires NextStableRelease(kind, tip, stableTags, previewTags).Ok?
    ensures OutranksAll(NextStableRelease(kind, tip, stableTags, previewTags).value,
      WithTip(tip, stableTags) + previewTags)
  {
    FloorPassed(NextStableRelease(kind, tip, stableTags, previewTags).value, WithTip(tip, stableTags) + previewTags);
  }

  lemma PreviewOutranksAll(
    kind: BumpKind, stableTip: Option<Tag>, stableTags: seq<Tag>, previewTip: Option<Tag>, previewTags: seq<Tag>,
      stamp: string)
    requires NextPreviewRelease(kind, stableTip, stableTags, previewTip, previewTags, stamp).Ok?
    ensures OutranksAll(
      NextPreviewRelease(kind, stableTip, stableTags, previewTip, previewTags, stamp).value,
      WithTip(stableTip, stableTags) + WithTip(previewTip, previewTags))
  {
    var published := WithTip(stableTip, stableTags) + WithTip(previewTip, previewTags);
    var candidate := NextPreviewRelease(kind, stableTip, stableTags, previewTip, previewTags, stamp).value;
    assert AssertAboveGlobalFloor(candidate, published).Ok?;
    FloorPassed(candidate, published);
  }

  // ---------- the preview candidate

  /** The last character decides when what is in front of it ties. */
  lemma {:induction false} CompareTextLast(a: string, b: string, x: char, y: char)
    requires |a| == |b|
    ensures CompareText(a + [x], b + [y]) < 0 <==> CompareText(a, b) < 0 || (a == b && x < y)
    decreases |a|
  {
    if a != [] {
      assert (a + [x])[1..] == a[1..] + [x] && (b + [y])[1..] == b[1..] + [y];
      CompareTextLast(a[1..], b[1..], x, y);
      assert a == [a[0]] + a[1..] && b == [b[0]] + b[1..];
    }
  }

  ghost predicate Digits(s: string) {
    forall i :: 0 <= i < |s| ==> '0' <= s[i] <= '9'
  }

  /** Digit strings of one length are ordered by code unit exactly as they are by value. */
  lemma {:induction false} SameLengthDigits(a: string, b: string)
    requires |a| == |b| && Digits(a) && Digits(b)
    ensures CompareText(a, b) < 0 <==> DigitsValue(a) < DigitsValue(b)
    ensures a == b <==> DigitsValue(a) == DigitsValue(b)
    decreases |a|
  {
    if a != [] {
      var n := |a| - 1;
      SameLengthDigits(a[..n], b[..n]);
      CompareTextLast(a[..n], b[..n], a[n], b[n]);
      LastApart(a, n);
      LastApart(b, n);
      LastDigitDecides(DigitsValue(a[..n]), DigitsValue(b[..n]), a[n], b[n]);
    }
  }

  lemma LastDigitDecides(u: nat, v: nat, x: char, y: char)
    requires '0' <= x <= '9' && '0' <= y <= '9'
    ensures u * 10 + (x as int - '0' as int) < v * 10 + (y as int - '0' as int) <==> u < v || (u == v && x < y)
    ensures u * 10 + (x as int - '0' as int) == v * 10 + (y as int - '0' as int) <==> u == v && x == y
  {
  }

  lemma LastApart(s: string, n: nat)
    requires |s| == n + 1
    ensures s == s[..n] + [s[n]] && (Digits(s) ==> Digits(s[..n]))
    ensures Digits(s) ==> DigitsValue(s) == DigitsValue(s[..n]) * 10 + (s[n] as int - '0' as int)
  {
  }

  lemma SameHead(head: string, a: seq<string>, b: seq<string>)
    ensures ComparePrereleases([head] + a, [head] + b, CompareText) == ComparePrereleases(a, b, CompareText)
  {
    assert ([head] + a)[1..] == a && ([head] + b)[1..] == b;
  }

  lemma NewerStamp(stamp: string, other: string, rest: seq<string>)
    requires IsStamp(stamp) && IsStamp(other) && CompareText(stamp, other) > 0
    ensures ComparePrereleases([stamp], [other] + rest, CompareText) > 0
  {
    SameLengthDigits(other, stamp);
    CompareTextAntisymmetric(stamp, other);
  }

  lemma NextOrdinal(ordinal: nat, rest: seq<string>)
    requires |rest| <= 1 && (rest != [] ==> IsDigits(rest[0]) && DigitsValue(rest[0]) == ordinal)
    ensures ComparePrereleases([NatToString(ordinal + 1)], rest, CompareText) > 0
  {
  }

  /** Supported prerelease lists: the successor's is above the incumbent's. */
  lemma SuccessorListAbove(stamp: string, p: seq<string>, ordinal: nat)
    requires IsStamp(stamp) && SupportedShape(p) && ordinal == (if |p| == 2 then 1 else DigitsValue(p[2]))
    requires CompareText(stamp, p[1]) >= 0
    ensures var c := if stamp == p[1] then [PREVIEW, stamp, NatToString(ordinal + 1)] else [PREVIEW, stamp];
      ComparePrereleases(c, p, CompareText) > 0
  {
    var rest := p[2..];
    assert p == [PREVIEW] + ([p[1]] + rest);
    if stamp == p[1] {
      var next := NatToString(ordinal + 1);
      assert [PREVIEW, stamp, next] == [PREVIEW] + ([stamp] + [next]);
      SameHead(PREVIEW, [stamp] + [next], [stamp] + rest);
      SameHead(stamp, [next], rest);
      NextOrdinal(ordinal, rest);
    } else {
      assert [PREVIEW, stamp] == [PREVIEW] + [stamp];
      SameHead(PREVIEW, [stamp], [p[1]] + rest);
      NewerStamp(stamp, p[1], rest);
    }
  }

  /** The successor of a well-shaped incumbent always outranks it: the resolver's own guard is unreachable. */
  lemma SuccessorOutranks(core: Version, stamp: string, incumbent: Version)
    requires core.prerelease.None? && IsStamp(stamp) && Core(incumbent) == core && IdentityOf(incumbent).Some?
    requires Succeed(core, stamp, IdentityOf(incumbent).value).Some?
    ensures Compare(Succeed(core, stamp, IdentityOf(incumbent).value).value, incumbent) > 0
  {
    SuccessorListAbove(stamp, incumbent.prerelease.value, IdentityOf(incumbent).value.ordinal);
  }

  /** A candidate on the bumped core, against any published version, by cores first. */
  lemma CoresDecide(c: Version, v: Version)
    ensures Compare(Core(c), Core(v)) > 0 ==> Compare(c, v) > 0
    ensures Compare(Core(c), Core(v)) < 0 ==> Compare(c, v) < 0
    ensures Compare(Core(c), Core(v)) == 0 <==> Core(c) == Core(v)
  {
  }

  ghost predicate SameCoreBelow(c: Version, previews: seq<Tag>) {
    forall t :: t in previews && IsPreview(t) && Core(t.value) == Core(c) ==> Compare(c, t.value) > 0
  }

  /** A candidate above its own core's previews outranks all previews exactly when no higher core is open. */
  lemma CandidateOutranksIff(c: Version, previews: seq<Tag>)
    requires AllPreviews(previews) && SameCoreBelow(c, previews)
    ensures OutranksAll(c, previews) <==> !HigherCoreOpen(Core(c), previews)
  {
    forall t | t in previews ensures Compare(c, t.value) > 0 <==> !(Compare(Core(t.value), Core(c)) > 0) {
      CoresDecide(c, t.value);
      CompareFacts(Core(c), Core(t.value), c);
      CompareFacts(Core(t.value), Core(c), c);
    }
    if !HigherCoreOpen(Core(c), previews) {
      forall i | 0 <= i < |previews| ensures Compare(c, previews[i].value) > 0 { assert previews[i] in previews; }
    }
  }

  lemma CandidateOutranksStables(c: Version, tip: Option<Tag>, stableTags: seq<Tag>, kind: BumpKind)
    requires StableBase(tip, stableTags).Ok? && Core(c) == BumpCore(StableBase(tip, stableTags).value, kind)
    ensures OutranksAll(c, WithTip(tip, stableTags))
  {
    var stables := WithTip(tip, stableTags);
    StableBaseIsMax(tip, stableTags);
    forall i | 0 <= i < |stables| ensures Compare(c, stables[i].value) > 0 {
      var v := stables[i].value;
      BumpAboveBase(StableBase(tip, stableTags).value, kind, v);
      assert Core(v) == v;
      CoresDecide(c, v);
    }
  }

  /** The newest published preview on the core, if there is one. */
  ghost predicate IsIncumbent(inc: Option<Version>, core: Version, previews: seq<Tag>) {
    if inc.None? then forall t :: t in previews && IsPreview(t) ==> Core(t.value) != core
    else
      && Some(inc.value) in previews && Core(inc.value) == core
      && forall t :: t in previews && IsPreview(t) && Core(t.value) == core ==> Compare(t.value, inc.value) <= 0
  }

  lemma IncumbentFound(core: Version, previews: seq<Tag>) returns (inc: Option<Version>)
    requires AllPreviews(previews)
    ensures FilterPreviews(previews, v => Core(v) == core).Ok?
    ensures NewestVersion(FilterPreviews(previews, v => Core(v) == core).value) == Ok(inc)
    ensures IsIncumbent(inc, core, previews)
  {
    var keep := (v: Version) => Core(v) == core;
    FilterKeeps(previews, keep);
    var same := FilterPreviews(previews, keep).value;
    NewestVersionIsMax(same);
    inc := NewestVersion(same).value;
    if inc.Some? {
      forall t | t in previews && IsPreview(t) && Core(t.value) == core ensures Compare(t.value, inc.value) <= 0 {
        assert t in same;
        var i :| 0 <= i < |same| && same[i] == t;
      }
      assert Some(inc.value) in same;
    } else {
      forall t | t in previews && IsPreview(t) ensures Core(t.value) != core {
        assert t in same <==> keep(t.value);
      }
    }
  }

  /** The shape the resolver asks for, and what it reads off it. */
  lemma IdentityIff(v: Version)
    ensures IdentityOf(v).Some? <==> v.prerelease.Some? && PreviewShape(v.prerelease.value)
    ensures IdentityOf(v).Some? ==>
      IdentityOf(v).value == PreviewIdentity(v.prerelease.value[1], OrdinalOf(v.prerelease.value))
  {
  }

  /** Stamps are compared as texts, which on eight digits is comparing the days. */
  lemma StampOrder(stamp: string, other: string)
    requires IsStamp(stamp) && IsStamp(other)
    ensures CompareText(stamp, other) < 0 <==> DigitsValue(stamp) < DigitsValue(other)
    ensures stamp == other <==> DigitsValue(stamp) == DigitsValue(other)
  {
    SameLengthDigits(stamp, other);
  }

  /** A candidate is resolved exactly when its incumbent can be succeeded; otherwise shape comes before clock. */
  lemma CandidateIff(core: Version, stamp: string, inc: Option<Version>, previews: seq<Tag>)
    requires core.prerelease.None? && IsStamp(stamp) && IsIncumbent(inc, core, previews)
    ensures var r := PreviewCandidate(core, stamp, inc);
      && (r.Ok? <==> Succeedable(inc, stamp))
      && (r.Ok? ==> Core(r.value) == core && SameCoreBelow(r.value, previews) && IsPreviewOn(r.value, core, stamp, inc))
      && (r.Err? ==> inc.Some?)
      && (r.Err? ==>
            if inc.value.prerelease.Some? && PreviewShape(inc.value.prerelease.value)
            then r.error == ClockRegression(inc.value) else r.error == UnsupportedShape(inc.value))
  {
    if inc.Some? {
      IdentityIff(inc.value);
      if IdentityOf(inc.value).Some? {
        var identity := IdentityOf(inc.value).value;
        StampOrder(stamp, identity.stamp);
        WrittenDecimal(identity.ordinal + 1);
        var next := Succeed(core, stamp, identity);
        if next.Some? { SuccessorAboveAll(core, stamp, inc.value, previews); }
      }
    }
  }

  lemma SuccessorAboveAll(core: Version, stamp: string, inc: Version, previews: seq<Tag>)
    requires core.prerelease.None? && IsStamp(stamp) && IsIncumbent(Some(inc), core, previews)
    requires IdentityOf(inc).Some? && Succeed(core, stamp, IdentityOf(inc).value).Some?
    ensures var next := Succeed(core, stamp, IdentityOf(inc).value).value;
      Compare(next, inc) > 0 && Core(next) == core && SameCoreBelow(next, previews)
  {
    var next := Succeed(core, stamp, IdentityOf(inc).value).value;
    SuccessorOutranks(core, stamp, inc);
    forall t | t in previews && IsPreview(t) && Core(t.value) == core ensures Compare(next, t.value) > 0 {
      CompareFacts(t.value, inc, next);
      CompareFacts(next, inc, next);
      CompareFacts(next, t.value, next);
    }
  }

  /**
   * The preview resolver, on valid previews and a valid stamp. A patch is refused exactly when some core above the
   * base is open, and otherwise meets no incumbent and no floor. A minor or major is refused exactly when its
   * incumbent cannot be succeeded or some core above the bumped one is open. What it yields is a preview on the least
   * stable version that changes the asked component: unnumbered on a new day, one above its incumbent on the same day.
   */
  lemma PreviewRefusesIff(
    kind: BumpKind, stableTip: Option<Tag>, stableTags: seq<Tag>, previewTip: Option<Tag>, previewTags: seq<Tag>,
    stamp: string) returns (core: Version, inc: Option<Version>)
    requires StableBase(stableTip, stableTags).Ok? && AllPreviews(WithTip(previewTip, previewTags)) && IsStamp(stamp)
    ensures var base := StableBase(stableTip, stableTags).value;
      var previews := WithTip(previewTip, previewTags);
      var r := NextPreviewRelease(kind, stableTip, stableTags, previewTip, previewTags, stamp);
      && IsBump(base, kind, core) && IsIncumbent(inc, core, previews)
      && (r.Ok? ==> IsPreviewOn(r.value, core, stamp, inc))
      && (kind == Patch ==> (r.Ok? <==> !HigherCoreOpen(base, previews)))
      && (kind == Patch && r.Ok? ==> inc.None?)
      && (kind == Patch && r.Err? ==> r.error.Blocked?)
      && (kind != Patch ==> (r.Ok? <==> Succeedable(inc, stamp) && !HigherCoreOpen(core, previews)))
      && (kind != Patch && r.Err? ==> (r.error.BelowFloor? <==> Succeedable(inc, stamp)))
      && (r.Err? ==> !r.error.DoesNotSucceed?)
  {
    var base := StableBase(stableTip, stableTags).value;
    var previews := WithTip(previewTip, previewTags);
    StableBaseIsMax(stableTip, stableTags);
    core := BumpCore(base, kind);
    BumpIff(base, kind, core);
    HigherCorePreviewIff(base, previews);
    assert Core(base) == base;
    inc := IncumbentFound(core, previews);
    if !HigherCoreOpen(base, previews) { NoBlockerNoFloor(base, kind, previews); }
    CandidateIff(core, stamp, inc, previews);
    var c := PreviewCandidate(core, stamp, inc);
    if c.Ok? {
      CandidateOutranksIff(c.value, previews);
      CandidateOutranksStables(c.value, stableTip, stableTags, kind);
      AllParsedConcat(WithTip(stableTip, stableTags), previews);
      FloorIff(c.value, WithTip(stableTip, stableTags) + previews);
      OutranksConcat(c.value, WithTip(stableTip, stableTags), previews);
    }
  }

  // ---------- the publication boundary

  /** A candidate is releasable exactly when it outranks every tag, or ties where ties are allowed. */
  lemma {:induction false} ReleasableIff(candidate: Version, tags: seq<Tag>, allowTie: bool)
    requires AllParsed(tags)
    ensures AssertReleasable(candidate, tags, allowTie).Ok?
    ensures AssertReleasable(candidate, tags, allowTie).value == Releasable <==>
      forall i :: 0 <= i < |tags| ==>
        Compare(candidate, tags[i].value) > 0 || (allowTie && Compare(candidate, tags[i].value) == 0)
    ensures var v := AssertReleasable(candidate, tags, allowTie).value;
      v.BlockedBy? ==> Some(v.tag) in tags && Compare(candidate, v.tag) <= 0
    decreases |tags|
  {
    if tags != [] {
      ReleasableIff(candidate, tags[1..], allowTie);
      assert tags == [tags[0]] + tags[1..];
    }
  }
}
