/** scripts/version-line.ts: the release resolvers over published tags. */
module VersionLine {
  import opened Sorting
  import opened VersionOrder

  /** A published tag as the parser sees it: `None` when it does not parse. */
  type Tag = Option<Version>

  datatype BumpKind = Patch | Minor | Major

  datatype ReleaseError =
    | Unparseable | NotStable | NoStableBase | NotPreview | Blocked(blocker: Version) | BelowFloor(floor: Version)
    | BadStamp | UnsupportedShape(incumbent: Version) | ClockRegression(incumbent: Version)
    | DoesNotSucceed(incumbent: Version)

  datatype Result<+T> = Ok(value: T) | Err(error: ReleaseError) {
    predicate IsFailure() { Err? }
    function PropagateFailure<U>(): Result<U>
      requires Err?
    {
      Err(error)
    }
    function Extract(): T
      requires Ok?
    {
      value
    }
  }

  /** The reduce of newestVersion: a later tag replaces the newest only when it is strictly newer. */
  function NewestFrom(newest: Option<Version>, tags: seq<Tag>): Result<Option<Version>>
    decreases |tags|
  {
    if tags == [] then Ok(newest)
    else if tags[0].None? then Err(Unparseable)
    else
      NewestFrom(
        if newest.None? || Compare(tags[0].value, newest.value) > 0 then tags[0] else newest,
        tags[1..])
  }

  function NewestVersion(tags: seq<Tag>): Result<Option<Version>> {
    NewestFrom(None, tags)
  }

  function WithTip(tip: Option<Tag>, tags: seq<Tag>): seq<Tag> {
    if tip.None? then tags else [tip.value] + tags
  }

  predicate IsStable(tag: Tag) {
    tag.Some? && tag.value.prerelease.None?
  }

  predicate IsPreview(tag: Tag) {
    tag.Some? && tag.value.prerelease.Some?
  }

  function StableBase(tip: Option<Tag>, tags: seq<Tag>): Result<Version> {
    var candidates := WithTip(tip, tags);
    if exists i :: 0 <= i < |candidates| && !IsStable(candidates[i]) then Err(NotStable)
    else
      var base :- NewestVersion(candidates);
      if base.None? then Err(NoStableBase) else Ok(base.value)
  }

  function Core(v: Version): Version {
    v.(prerelease := None)
  }

  function BumpCore(base: Version, kind: BumpKind): Version {
    match kind
    case Major => Version(base.major + 1, 0, 0, None)
    case Minor => Version(base.major, base.minor + 1, 0, None)
    case Patch => Version(base.major, base.minor, base.patch + 1, None)
  }

  /** The previews that satisfy `keep`, in order; the first tag that is no prerelease is an error. */
  function FilterPreviews(previews: seq<Tag>, keep: Version -> bool): Result<seq<Tag>> {
    if previews == [] then Ok([])
    else if !IsPreview(previews[0]) then Err(NotPreview)
    else
      var rest :- FilterPreviews(previews[1..], keep);
      Ok(if keep(previews[0].value) then [previews[0]] + rest else rest)
  }

  function HigherCorePreview(base: Version, previews: seq<Tag>): Result<Option<Version>> {
    var blockers :- FilterPreviews(previews, v => Compare(Core(v), Core(base)) > 0);
    NewestVersion(blockers)
  }

  function AssertAboveGlobalFloor(candidate: Version, published: seq<Tag>): Result<()> {
    var floor :- NewestVersion(published);
    if floor.Some? && Compare(candidate, floor.value) <= 0 then Err(BelowFloor(floor.value)) else Ok(())
  }

  function NextStableRelease(
    kind: BumpKind, tip: Option<Tag>, stableTags: seq<Tag>, previewTags: seq<Tag>): Result<Version> {
    var base :- StableBase(tip, stableTags);
    var blocker :- if kind == Patch then HigherCorePreview(base, previewTags) else Ok(None);
    if blocker.Some? then Err(Blocked(blocker.value))
    else
      var candidate := BumpCore(base, kind);
      var _ :- AssertAboveGlobalFloor(candidate, WithTip(tip, stableTags) + previewTags);
      Ok(candidate)
  }

  // ---------- previews

  const PREVIEW: string := "preview"

  predicate IsStamp(s: string) {
    |s| == 8 && IsDigits(s)
  }

  function DigitChar(d: nat): char
    requires d < 10
  {
    '0' + d as char
  }

  /** `${n}` of a natural number. */
  function NatToString(n: nat): (s: string)
    ensures IsDigits(s) && DigitsValue(s) == n
  {
    if n < 10 then [DigitChar(n)]
    else
      var s := NatToString(n / 10) + [DigitChar(n % 10)];
      assert s[..|s| - 1] == NatToString(n / 10);
      s
  }

  datatype PreviewIdentity = PreviewIdentity(stamp: string, ordinal: nat)

  predicate SupportedShape(p: seq<string>) {
    && 2 <= |p| <= 3 && p[0] == PREVIEW && IsStamp(p[1]) && (|p| == 3 ==> IsDigits(p[2]))
  }

  function IdentityOf(v: Version): Option<PreviewIdentity> {
    if v.prerelease.Some? && SupportedShape(v.prerelease.value) then
      var p := v.prerelease.value;
      Some(PreviewIdentity(p[1], if |p| == 2 then 1 else DigitsValue(p[2])))
    else None
  }

  /** The candidate after an incumbent of the same core; `None` is the clock regression. */
  function Succeed(core: Version, stamp: string, identity: PreviewIdentity): Option<Version> {
    if CompareText(stamp, identity.stamp) < 0 then None
    else if stamp == identity.stamp then
      Some(core.(prerelease := Some([PREVIEW, stamp, NatToString(identity.ordinal + 1)])))
    else Some(core.(prerelease := Some([PREVIEW, stamp])))
  }

  function PreviewCandidate(core: Version, stamp: string, incumbent: Option<Version>): Result<Version> {
    if incumbent.None? then Ok(core.(prerelease := Some([PREVIEW, stamp])))
    else
      match IdentityOf(incumbent.value)
      case None => Err(UnsupportedShape(incumbent.value))
      case Some(identity) =>
        match Succeed(core, stamp, identity)
        case None => Err(ClockRegression(incumbent.value))
        case Some(candidate) =>
          if Compare(candidate, incumbent.value) <= 0 then Err(DoesNotSucceed(incumbent.value)) else Ok(candidate)
  }

  function NextPreviewRelease(
    kind: BumpKind, stableTip: Option<Tag>, stableTags: seq<Tag>, previewTip: Option<Tag>, previewTags: seq<Tag>,
    stamp: string): Result<Version>
  {
    if !IsStamp(stamp) then Err(BadStamp)
    else
      var base :- StableBase(stableTip, stableTags);
      var previews := WithTip(previewTip, previewTags);
      var blocker :- if kind == Patch then HigherCorePreview(base, previews) else Ok(None);
      if blocker.Some? then Err(Blocked(blocker.value))
      else
        var core := BumpCore(base, kind);
        var same :- FilterPreviews(previews, v => Core(v) == core);
        var incumbent :- NewestVersion(same);
        var candidate :- PreviewCandidate(core, stamp, incumbent);
        var _ :- AssertAboveGlobalFloor(candidate, WithTip(stableTip, stableTags) + previews);
        Ok(candidate)
  }

  // ---------- releasability

  datatype Verdict = Releasable | BlockedBy(tag: Version)

  /** The publication check; a tag that does not parse is the exception the source throws. */
  function AssertReleasable(candidate: Version, tags: seq<Tag>, allowExistingTagAtHead: bool): Result<Verdict>
    decreases |tags|
  {
    if tags == [] then Ok(Releasable)
    else if tags[0].None? then Err(Unparseable)
    else
      var order := Compare(candidate, tags[0].value);
      if order < 0 || (order == 0 && !allowExistingTagAtHead) then Ok(BlockedBy(tags[0].value))
      else AssertReleasable(candidate, tags[1..], allowExistingTagAtHead)
  }
}
