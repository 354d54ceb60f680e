/** The two version patterns of scripts/version-line.ts and scripts/bump-dev-version.ts, and version texts. */
module VersionText {
  import opened TextLines
  import opened VersionOrder
  import opened VersionLine

  predicate IsDigit(c: char) {
    '0' <= c <= '9'
  }

  function DigitsAtStart(s: string): (n: nat)
    ensures n <= |s| && (n < |s| ==> !IsDigit(s[n])) && forall i :: 0 <= i < n ==> '0' <= s[i] <= '9'
  {
    if s != "" && IsDigit(s[0]) then
      var n := DigitsAtStart(s[1..]);
      assert forall i :: 0 < i < n + 1 ==> s[i] == s[1..][i - 1];
      n + 1
    else 0
  }

  /** A number and what follows it. */
  datatype Numbered = Numbered(value: nat, rest: string)

  function ParseNumber(s: string): Option<Numbered> {
    var n := DigitsAtStart(s);
    if n == 0 then None else Some(Numbered(DigitsValue(s[..n]), s[n..]))
  }

  /** `\d+\.` at the front. */
  function ParseNumberDot(s: string): Option<Numbered> {
    match ParseNumber(s)
    case None => None
    case Some(p) => if p.rest != "" && p.rest[0] == '.' then Some(Numbered(p.value, p.rest[1..])) else None
  }

  datatype CoreText = CoreText(core: Version, rest: string)

  /** `\d+\.\d+\.\d+` at the front. */
  function ParseCore(s: string): Option<CoreText> {
    match ParseNumberDot(s)
    case None => None
    case Some(major) =>
      match ParseNumberDot(major.rest)
      case None => None
      case Some(minor) =>
        match ParseNumber(minor.rest)
        case None => None
        case Some(patch) => Some(CoreText(Version(major.value, minor.value, patch.value, None), patch.rest))
  }

  function SkipV(s: string): string {
    if s != "" && s[0] == 'v' then s[1..] else s
  }

  predicate IsIdChar(c: char) {
    IsDigit(c) || 'A' <= c <= 'Z' || 'a' <= c <= 'z' || c == '-'
  }

  function SplitDots(s: string): (parts: seq<string>)
    ensures parts != []
  {
    if s == "" then [""]
    else
      var rest := SplitDots(s[1..]);
      if s[0] == '.' then [""] + rest else [[s[0]] + rest[0]] + rest[1..]
  }

  /** Non-empty identifiers between dots. */
  predicate AreIdentifiers(parts: seq<string>) {
    forall i :: 0 <= i < |parts| ==> parts[i] != "" && forall j :: 0 <= j < |parts[i]| ==> IsIdChar(parts[i][j])
  }

  function PlusAt(s: string): (i: nat)
    ensures i <= |s|
  {
    if s == "" || s[0] == '+' then 0 else 1 + PlusAt(s[1..])
  }

  /** Nothing, or a plus and build identifiers. */
  predicate IsBuild(s: string) {
    s == "" || (s[0] == '+' && AreIdentifiers(SplitDots(s[1..])))
  }

  /** The strict pattern of version-line.ts on the trimmed text. */
  function ParseVersion(raw: string): Option<Version> {
    ParseBare(SkipV(Trim(raw)))
  }

  function ParseBare(s: string): Option<Version> {
    match ParseCore(s)
    case None => None
    case Some(c) => ParseTail(c.core, c.rest)
  }

  /** What follows the core: nothing, a prerelease, build metadata, or both. */
  function ParseTail(core: Version, rest: string): Option<Version> {
    if rest != "" && rest[0] == '-' then
      var tail := rest[1..];
      var ids := SplitDots(tail[..PlusAt(tail)]);
      if AreIdentifiers(ids) && IsBuild(tail[PlusAt(tail)..]) then Some(core.(prerelease := Some(ids))) else None
    else if IsBuild(rest) then Some(core) else None
  }

  predicate EndsLine(c: char) {
    c in {'\n', '\r', '\U{2028}', '\U{2029}'}
  }

  /** The loose pattern of bump-dev-version.ts on the trimmed text. */
  predicate LooseParses(raw: string) {
    match ParseCore(SkipV(Trim(raw)))
    case None => false
    case Some(c) =>
      c.rest == "" || (c.rest[0] == '-' && |c.rest| > 1 && forall i :: 0 < i < |c.rest| ==> !EndsLine(c.rest[i]))
  }

  function AsTag(version: string): string {
    if version != "" && version[0] == 'v' then version else "v" + version
  }

  predicate Padded(s: string) {
    s != "" && IsSpace(s[0])
  }

  // ---------- when the tag form parses

  lemma {:induction false} TrimEndCons(c: char, s: string)
    requires !IsSpace(c)
    ensures TrimEnd([c] + s) == [c] + TrimEnd(s)
    decreases |s|
  {
    if s == "" {
      assert [c] + s == [c];
    } else if IsSpace(s[|s| - 1]) {
      assert ([c] + s)[..|[c] + s| - 1] == [c] + s[..|s| - 1];
      TrimEndCons(c, s[..|s| - 1]);
    }
  }

  lemma {:induction false} TrimStartSuffix(s: string)
    ensures |TrimStart(s)| <= |s| && s[|s| - |TrimStart(s)|..] == TrimStart(s)
    ensures TrimStart(s) == s <==> !Padded(s)
  {
    if Padded(s) { TrimStartSuffix(s[1..]); }
  }

  lemma {:induction false} TrimEndBlank(s: string)
    requires TrimStart(s) != ""
    ensures TrimEnd(s) != ""
    decreases |s|
  {
    if s != "" && IsSpace(s[|s| - 1]) {
      var t := s[..|s| - 1];
      TrimStartShorter(t, s[|s| - 1]);
      assert s == t + [s[|s| - 1]];
      TrimEndBlank(t);
    }
  }

  lemma {:induction false} TrimStartShorter(t: string, c: char)
    requires IsSpace(c)
    ensures TrimStart(t + [c]) != "" ==> TrimStart(t) != ""
  {
    if t == "" {
      assert t + [c] == [c] && [c][1..] == "";
    } else if IsSpace(t[0]) {
      assert (t + [c])[1..] == t[1..] + [c];
      TrimStartShorter(t[1..], c);
    }
  }

  lemma TagOfUnpadded(raw: string)
    requires raw != "" && raw[0] != 'v'
    ensures SkipV(Trim(AsTag(raw))) == TrimEnd(raw)
  {
    TrimEndCons('v', raw);
    assert "v" + raw == ['v'] + raw;
    assert TrimStart("v" + raw) == "v" + raw;
    assert (['v'] + TrimEnd(raw))[1..] == TrimEnd(raw);
  }

  /** A parsed text still parses, to the same version, in its tag form, unless it starts with white space. */
  lemma TagFormIff(raw: string)
    requires ParseVersion(raw).Some?
    ensures ParseVersion(AsTag(raw)) == if Padded(raw) then None else ParseVersion(raw)
  {
    ParsedNotBlank(raw);
    if raw[0] != 'v' {
      TagOfUnpadded(raw);
      if Padded(raw) { PaddedTag(raw); } else { UnpaddedBare(raw); }
    }
  }

  lemma ParsedNotBlank(raw: string)
    requires ParseVersion(raw).Some?
    ensures raw != "" && TrimStart(raw) != ""
  {
    if TrimStart(raw) == "" { NothingBare(""); }
  }

  lemma PaddedTag(raw: string)
    requires Padded(raw) && TrimStart(raw) != ""
    ensures ParseBare(TrimEnd(raw)) == None
  {
    TrimEndBlank(raw);
    NothingBare(TrimEnd(raw));
  }

  lemma UnpaddedBare(raw: string)
    requires raw != "" && raw[0] != 'v' && !Padded(raw)
    ensures SkipV(Trim(raw)) == TrimEnd(raw)
  {
  }

  /** A bare text starts with a digit. */
  lemma NothingBare(s: string)
    requires s == "" || !IsDigit(s[0])
    ensures ParseBare(s) == None
  {
  }

  // ---------- version texts written

  /** `${major}.${minor}.${patch}`. */
  function CoreTextOf(v: Version): string {
    NatToString(v.major) + ("." + (NatToString(v.minor) + ("." + NatToString(v.patch))))
  }

  lemma {:induction false} DigitsThen(digits: string, rest: string)
    requires (forall i :: 0 <= i < |digits| ==> IsDigit(digits[i])) && (rest != "" ==> !IsDigit(rest[0]))
    ensures DigitsAtStart(digits + rest) == |digits|
  {
    if digits == "" {
      assert digits + rest == rest;
    } else {
      assert (digits + rest)[1..] == digits[1..] + rest;
      DigitsThen(digits[1..], rest);
    }
  }

  lemma NumberThen(n: nat, rest: string)
    requires rest != "" ==> !IsDigit(rest[0])
    ensures ParseNumber(NatToString(n) + rest) == Some(Numbered(n, rest))
  {
    var digits := NatToString(n);
    DigitsThen(digits, rest);
    assert (digits + rest)[..|digits|] == digits && (digits + rest)[|digits|..] == rest;
  }

  lemma NumberDotThen(n: nat, rest: string)
    ensures ParseNumberDot(NatToString(n) + ("." + rest)) == Some(Numbered(n, rest))
  {
    NumberThen(n, "." + rest);
    assert ("." + rest)[1..] == rest;
  }

  lemma CoreTextParses(v: Version)
    ensures ParseCore(CoreTextOf(v)) == Some(CoreText(v.(prerelease := None), ""))
  {
    CoreTextThen(v, "");
    assert CoreTextOf(v) + "" == CoreTextOf(v);
  }

  lemma CoreTextThen(v: Version, rest: string)
    requires rest != "" ==> !IsDigit(rest[0])
    ensures ParseCore(CoreTextOf(v) + rest) == Some(CoreText(v.(prerelease := None), rest))
  {
    var patch := NatToString(v.patch) + rest;
    var minor := NatToString(v.minor) + ("." + patch);
    NumberDotThen(v.major, minor);
    NumberDotThen(v.minor, patch);
    NumberThen(v.patch, rest);
    CoreTextConcat(v, rest);
    CoreSteps(CoreTextOf(v) + rest, minor, patch, v, rest);
  }

  lemma CoreTextConcat(v: Version, rest: string)
    ensures CoreTextOf(v) + rest ==
      NatToString(v.major) + ("." + (NatToString(v.minor) + ("." + (NatToString(v.patch) + rest))))
  {
    Concat5(NatToString(v.major), NatToString(v.minor), NatToString(v.patch), rest);
  }

  lemma Concat5(a: string, b: string, c: string, d: string)
    ensures (a + ("." + (b + ("." + c)))) + d == a + ("." + (b + ("." + (c + d))))
  {
  }

  lemma CoreSteps(s: string, minor: string, patch: string, v: Version, rest: string)
    requires ParseNumberDot(s) == Some(Numbered(v.major, minor))
    requires ParseNumberDot(minor) == Some(Numbered(v.minor, patch))
    requires ParseNumber(patch) == Some(Numbered(v.patch, rest))
    ensures ParseCore(s) == Some(CoreText(v.(prerelease := None), rest))
  {
  }

  lemma CoreTextTrimmed(v: Version)
    ensures CoreTextOf(v) != "" && !Padded(CoreTextOf(v)) && Trim(CoreTextOf(v)) == CoreTextOf(v)
    ensures SkipV(CoreTextOf(v)) == CoreTextOf(v)
  {
    var s, first, last := CoreTextOf(v), NatToString(v.major), NatToString(v.patch);
    assert s[0] == first[0] && IsDigit(first[0]);
    assert s[|s| - 1] == last[|last| - 1] && IsDigit(last[|last| - 1]);
  }

  /** A written core is read back by both patterns, and needs no trimming. */
  lemma WrittenReadBack(v: Version)
    requires v.prerelease.None?
    ensures ParseVersion(CoreTextOf(v)) == Some(v) && LooseParses(CoreTextOf(v)) && !Padded(CoreTextOf(v))
  {
    CoreTextParses(v);
    CoreTextTrimmed(v);
  }
}
