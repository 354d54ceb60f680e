/** scripts/version-line.ts: which version a bump yields, said by precedence alone, and which preview comes next. */
module VersionBumps {
  import opened Sorting
  import opened VersionOrder
  import opened VersionLine

  /** `v` is above every version that shares with the base the components in front of the one that is to change. */
  ghost predicate Clears(base: Version, kind: BumpKind, v: Version) {
    match kind
    case Patch => Precedes(base, v)
    case Minor => forall w: Version :: w.major == base.major && w.minor == base.minor ==> Precedes(w, v)
    case Major => forall w: Version :: w.major == base.major ==> Precedes(w, v)
  }

  /** The least stable version above the base that changes the component asked for. */
  ghost predicate IsBump(base: Version, kind: BumpKind, v: Version) {
    && v.prerelease.None? && Clears(base, kind, v)
    && forall w: Version :: w.prerelease.None? && Clears(base, kind, w) ==> w == v || Precedes(v, w)
  }

  /** The least stable version above this one: of a prerelease, its release. */
  ghost predicate IsLeastStableAbove(r: Version, v: Version) {
    && v.prerelease.None? && Precedes(r, v)
    && forall w: Version :: w.prerelease.None? && Precedes(r, w) ==> w == v || Precedes(v, w)
  }

  lemma PrecedesOneWay(a: Version, b: Version)
    ensures !(Precedes(a, b) && Precedes(b, a))
  {
    CompareIsSemVer(a, b);
  }

  lemma BumpClears(base: Version, kind: BumpKind)
    requires base.prerelease.None?
    ensures Clears(base, kind, BumpCore(base, kind))
  {
  }

  /** Whatever clears the line of a patch, minor or major is not below the next one. */
  lemma BumpIsBelow(base: Version, kind: BumpKind, w: Version)
    requires base.prerelease.None? && w.prerelease.None? && Clears(base, kind, w)
    ensures w == BumpCore(base, kind) || Precedes(BumpCore(base, kind), w)
  {
    PrecedesOneWay(w, w);
    if kind != Patch { assert Precedes(base, w); }
  }

  /** A bump yields the least stable version that changes the asked component, and only one version is that. */
  lemma BumpIff(base: Version, kind: BumpKind, v: Version)
    requires base.prerelease.None?
    ensures IsBump(base, kind, v) <==> v == BumpCore(base, kind)
  {
    var b := BumpCore(base, kind);
    BumpClears(base, kind);
    forall w: Version | w.prerelease.None? && Clears(base, kind, w) ensures w == b || Precedes(b, w) {
      BumpIsBelow(base, kind, w);
    }
    if IsBump(base, kind, v) { PrecedesOneWay(b, v); }
  }

  /** Above a stable version comes its patch; above a prerelease comes its release. */
  lemma LeastStableAbove(r: Version)
    ensures IsLeastStableAbove(
      r, if r.prerelease.None? then BumpCore(r, Patch) else Version(r.major, r.minor, r.patch, None))
  {
  }

  // ---------- previews

  /** `preview`, eight digits, and perhaps a number. */
  predicate PreviewShape(p: seq<string>) {
    && (|p| == 2 || |p| == 3) && p[0] == "preview" && |p[1]| == 8 && IsDigits(p[1]) && (|p| == 3 ==> IsDigits(p[2]))
  }

  function OrdinalOf(p: seq<string>): nat
    requires PreviewShape(p)
  {
    if |p| == 2 then 1 else DigitsValue(p[2])
  }

  /** The decimal form of a number, without leading zeros. */
  predicate Decimal(s: string, n: nat) {
    IsDigits(s) && DigitsValue(s) == n && (|s| > 1 ==> s[0] != '0')
  }

  lemma {:induction false} WrittenDecimal(n: nat)
    ensures Decimal(NatToString(n), n)
    ensures n > 0 ==> NatToString(n)[0] != '0'
  {
    if n >= 10 { WrittenDecimal(n / 10); }
  }

  /** The day of the incumbent's stamp is not after this one. */
  predicate NotAfter(p: seq<string>, stamp: string)
    requires PreviewShape(p) && IsDigits(stamp)
  {
    DigitsValue(p[1]) <= DigitsValue(stamp)
  }

  /** A preview on this core and day: without a number unless an incumbent of the same day has one to be counted on. */
  ghost predicate IsPreviewOn(v: Version, core: Version, stamp: string, incumbent: Option<Version>) {
    && v.major == core.major && v.minor == core.minor && v.patch == core.patch && v.prerelease.Some?
    && var q := v.prerelease.value;
       if incumbent.None? then q == ["preview", stamp]
       else
         && incumbent.value.prerelease.Some? && PreviewShape(incumbent.value.prerelease.value)
         && var p := incumbent.value.prerelease.value;
            if p[1] != stamp then q == ["preview", stamp]
            else |q| == 3 && q[0] == "preview" && q[1] == stamp && Decimal(q[2], OrdinalOf(p) + 1)
  }

  /** The incumbent can be succeeded on this day. */
  ghost predicate Succeedable(incumbent: Option<Version>, stamp: string)
    requires IsDigits(stamp)
  {
    incumbent.Some? ==>
      && incumbent.value.prerelease.Some? && PreviewShape(incumbent.value.prerelease.value)
      && NotAfter(incumbent.value.prerelease.value, stamp)
  }
}
