/**
 * scripts/build-release-changelog.ts: what a skip label, a landing reference and a release commit are, said on the
 * characters of the text.
 */
module ReleasePatterns {
  import opened TextLines
  import opened ReleaseCommits
  import opened ReleaseRender
  import opened VersionOrder
  import VersionPattern
  import VersionWriter

  // ---------- labels

  /** The same ASCII letter in either case, or the same character. */
  predicate SameLetter(c: char, lower: char) {
    c == lower || ('a' <= lower <= 'z' && c as int + 32 == lower as int)
  }

  /** The same word in either case; the Kelvin sign is a capital k. */
  predicate Spells(s: string, word: string) {
    |s| == |word| && forall i :: 0 <= i < |s| ==> SameLetter(s[i], word[i]) || (word[i] == 'k' && s[i] == '\U{212A}')
  }

  lemma LowerIs(s: string, word: string)
    requires forall c :: c in word ==> !('A' <= c <= 'Z') && c != '\U{212A}'
    ensures Lower(s) == word <==> Spells(s, word)
  {
    if Lower(s) == word {
      forall i | 0 <= i < |s| ensures SameLetter(s[i], word[i]) || (word[i] == 'k' && s[i] == '\U{212A}') {
        assert Lower(s)[i] == word[i] && word[i] in word;
      }
    }
    if Spells(s, word) {
      forall i | 0 <= i < |s| ensures Lower(s)[i] == word[i] { assert word[i] in word; }
    }
  }

  /** A pull request is skipped exactly when some label spells skip-changelog, in any case. */
  lemma SkippedIff(p: Pull)
    ensures HasSkipChangelog(p) <==> exists l :: l in p.labels && Spells(l, "skip-changelog")
  {
    forall i | 0 <= i < |p.labels| ensures Lower(p.labels[i]) == SKIP_LABEL <==> Spells(p.labels[i], "skip-changelog") {
      LowerIs(p.labels[i], "skip-changelog");
    }
    if i :| 0 <= i < |p.labels| && Lower(p.labels[i]) == SKIP_LABEL { assert p.labels[i] in p.labels; }
  }

  // ---------- landing references

  /** The trimmed subject ends in `(#`, the digits of a positive number, and `)`. */
  ghost predicate LandsAs(subject: string, number: nat) {
    exists front, digits ::
      IsDigits(digits) && DigitsValue(digits) == number > 0 && Trimmed(subject, front + "(#" + digits + ")")
  }

  lemma LandingParts(subject: string) returns (front: string, digits: string)
    requires TrailingLandingPull(subject).Some?
    ensures IsDigits(digits) && DigitsValue(digits) == TrailingLandingPull(subject).value > 0
    ensures Trim(subject) == front + "(#" + digits + ")"
  {
    var s := Trim(subject);
    var rest := s[..|s| - 1];
    var n := DigitsAtEnd(rest);
    front, digits := rest[..|rest| - n - 2], rest[|rest| - n..];
    assert s == rest + ")";
    assert rest == front + rest[|rest| - n - 2..|rest| - n] + digits;
  }

  lemma OnlyTrimMatters(a: string, b: string)
    requires Trim(a) == Trim(b)
    ensures TrailingLandingPull(a) == TrailingLandingPull(b)
  {
  }

  lemma LandingComposed(subject: string, front: string, digits: string, number: nat)
    requires IsDigits(digits) && DigitsValue(digits) == number > 0 && Trimmed(subject, front + "(#" + digits + ")")
    ensures TrailingLandingPull(subject) == Some(number)
  {
    var s := front + "(#" + digits + ")";
    TrimIff(subject, s);
    TrimmedAgain(s);
    OnlyTrimMatters(subject, s);
    assert s == front + ("(#" + digits + ")");
    ReferenceRead(front, digits, number);
  }

  lemma TrimmedAgain(s: string)
    requires Tight(s)
    ensures Trim(s) == s
  {
    TrimComposed("", s, "");
    assert "" + s + "" == s;
  }

  /** A landing reference is read exactly where there is one. */
  lemma LandingIff(subject: string, number: nat)
    ensures TrailingLandingPull(subject) == Some(number) <==> LandsAs(subject, number)
  {
    if TrailingLandingPull(subject) == Some(number) {
      var front, digits := LandingParts(subject);
      TrimIff(subject, front + "(#" + digits + ")");
    }
    if front, digits :|
      IsDigits(digits) && DigitsValue(digits) == number > 0 && Trimmed(subject, front + "(#" + digits + ")")
    {
      LandingComposed(subject, front, digits, number);
    }
  }

  // ---------- release commits

  /** A hyphen and at least one letter, digit, dot or hyphen. */
  predicate IsShapeTail(s: string) {
    |s| > 1 && s[0] == '-' &&
    forall i :: 1 <= i < |s| ==>
      '0' <= s[i] <= '9' || 'A' <= s[i] <= 'Z' || 'a' <= s[i] <= 'z' || s[i] == '.' || s[i] == '-'
  }

  /** Three numbers with dots, and perhaps a tail. */
  ghost predicate IsShape(version: string) {
    exists core, a, b, c, tail ::
      VersionPattern.IsCore(core, a, b, c) && version == core + tail && (tail == "" || IsShapeTail(tail))
  }

  lemma {:induction false} AllTailIff(s: string)
    ensures VersionWriter.AllTail(s) <==> forall i :: 0 <= i < |s| ==>
      '0' <= s[i] <= '9' || 'A' <= s[i] <= 'Z' || 'a' <= s[i] <= 'z' || s[i] == '.' || s[i] == '-'
  {
    if s != "" {
      AllTailIff(s[1..]);
      assert forall i :: 1 <= i < |s| ==> s[i] == s[1..][i - 1];
    }
  }

  lemma {:induction false} DigitRunIs(s: string)
    ensures
      var n := VersionWriter.DigitRun(s);
      (forall i :: 0 <= i < n ==> '0' <= s[i] <= '9') && (n < |s| ==> !('0' <= s[n] <= '9'))
  {
    if s != "" && VersionWriter.IsDigit(s[0]) { DigitRunIs(s[1..]); }
  }

  lemma RunOf(digits: string, rest: string)
    requires IsDigits(digits) && (rest != "" ==> !('0' <= rest[0] <= '9'))
    ensures VersionWriter.DigitRun(digits + rest) == |digits|
  {
    var s := digits + rest;
    DigitRunIs(s);
    RunEnds(s, digits, rest, VersionWriter.DigitRun(s));
  }

  lemma RunEnds(s: string, digits: string, rest: string, n: nat)
    requires IsDigits(digits) && (rest != "" ==> !('0' <= rest[0] <= '9')) && s == digits + rest && n <= |s|
    requires (forall i :: 0 <= i < n ==> '0' <= s[i] <= '9') && (n < |s| ==> !('0' <= s[n] <= '9'))
    ensures n == |digits|
  {
    assert forall i :: 0 <= i < |digits| ==> s[i] == digits[i];
    if rest != "" { assert s[|digits|] == rest[0]; }
  }

  /** What may follow the last number. */
  predicate IsShapeEnd(tail: string) {
    tail == "" || IsShapeTail(tail)
  }

  lemma LastNumber(digits: string, tail: string)
    requires IsDigits(digits) && (tail != "" ==> !('0' <= tail[0] <= '9'))
    ensures VersionWriter.NumbersThenTail(digits + tail, 1) <==> IsShapeEnd(tail)
  {
    RunOf(digits, tail);
    var s := digits + tail;
    assert s[|digits|..] == tail;
    if tail != "" {
      assert s[|digits|] == tail[0] && s[|digits| + 1..] == tail[1..];
      AllTailIff(tail[1..]);
      assert forall i :: 1 <= i < |tail| ==> tail[i] == tail[1..][i - 1];
    }
  }

  lemma FrontNumber(digits: string, rest: string, parts: nat)
    requires IsDigits(digits) && parts > 1
    ensures VersionWriter.NumbersThenTail(digits + ("." + rest), parts) <==>
      VersionWriter.NumbersThenTail(rest, parts - 1)
  {
    RunOf(digits, "." + rest);
    var s := digits + ("." + rest);
    assert s[|digits|] == '.' && s[|digits| + 1..] == rest;
  }

  lemma ShapeComposed(core: string, a: string, b: string, c: string, tail: string)
    requires VersionPattern.IsCore(core, a, b, c) && IsShapeEnd(tail)
    ensures VersionWriter.VersionShape(core + tail)
  {
    VersionPattern.CoreAssociates(a, b, c, tail);
    FrontNumber(a, b + ("." + (c + tail)), 3);
    FrontNumber(b, c + tail, 2);
    LastNumber(c, tail);
  }

  lemma FrontParts(s: string, parts: nat) returns (digits: string, rest: string)
    requires parts > 1 && VersionWriter.NumbersThenTail(s, parts)
    ensures IsDigits(digits) && s == digits + ("." + rest) && VersionWriter.NumbersThenTail(rest, parts - 1)
  {
    var n := VersionWriter.DigitRun(s);
    DigitRunIs(s);
    digits, rest := s[..n], s[n + 1..];
    assert s == digits + ([s[n]] + rest);
  }

  lemma LastParts(s: string) returns (digits: string, tail: string)
    requires VersionWriter.NumbersThenTail(s, 1)
    ensures IsDigits(digits) && s == digits + tail && IsShapeEnd(tail)
  {
    var n := VersionWriter.DigitRun(s);
    DigitRunIs(s);
    digits, tail := s[..n], s[n..];
    LastNumber(digits, tail);
  }

  lemma Assembled(version: string, a: string, b: string, c: string, tail: string, afterA: string, afterB: string)
    requires IsDigits(a) && IsDigits(b) && IsDigits(c) && IsShapeEnd(tail)
    requires version == a + ("." + afterA) && afterA == b + ("." + afterB) && afterB == c + tail
    ensures IsShape(version)
  {
    VersionPattern.CoreAssociates(a, b, c, tail);
    assert VersionPattern.IsCore(a + "." + b + "." + c, a, b, c);
  }

  lemma ShapeParts(version: string)
    requires VersionWriter.VersionShape(version)
    ensures IsShape(version)
  {
    var a, afterA := FrontParts(version, 3);
    var b, afterB := FrontParts(afterA, 2);
    var c, tail := LastParts(afterB);
    Assembled(version, a, b, c, tail, afterA, afterB);
  }

  /** The shape that a version must have before it is written anywhere. */
  lemma ShapeIff(version: string)
    ensures VersionWriter.VersionShape(version) <==> IsShape(version)
  {
    if VersionWriter.VersionShape(version) { ShapeParts(version); }
    if core, a, b, c, tail :|
      VersionPattern.IsCore(core, a, b, c) && version == core + tail && (tail == "" || IsShapeTail(tail))
    {
      ShapeComposed(core, a, b, c, tail);
    }
  }

  /** `release:` or `chore(release):` in any case, white space, perhaps a `v`, and a version. */
  ghost predicate IsReleaseSubject(s: string) {
    exists prefix, spaces, v, version ::
      && (Matches(prefix, "release:") || Matches(prefix, "chore(release):"))
      && Blank(spaces) && v in {"", "v", "V"} && IsShape(version) && s == prefix + (spaces + (v + version))
  }

  predicate Matches(s: string, word: string) {
    |s| == |word| && forall i :: 0 <= i < |s| ==> SameLetter(s[i], word[i])
  }

  lemma FoldIs(s: string, word: string)
    requires forall i :: 0 <= i < |word| ==> !('A' <= word[i] <= 'Z')
    ensures word <= Fold(s) <==> |word| <= |s| && Matches(s[..|word|], word)
  {
    if word <= Fold(s) {
      forall i | 0 <= i < |word| ensures SameLetter(s[i], word[i]) { assert Fold(s)[i] == word[i]; }
    }
    if |word| <= |s| && Matches(s[..|word|], word) {
      forall i | 0 <= i < |word| ensures Fold(s)[i] == word[i] { assert SameLetter(s[..|word|][i], word[i]); }
      assert Fold(s)[..|word|] == word;
    }
  }

  lemma ShapeStarts(version: string)
    requires IsShape(version)
    ensures version != "" && '0' <= version[0] <= '9'
  {
    var core, a, b, c, tail :|
      VersionPattern.IsCore(core, a, b, c) && version == core + tail && (tail == "" || IsShapeTail(tail));
    assert version[0] == core[0] == a[0];
  }

  lemma VersionAfter(spaces: string, v: string, version: string)
    requires Blank(spaces) && v in {"", "v", "V"} && IsShape(version)
    ensures IsVersionAfterSpaces(spaces + (v + version))
  {
    ShapeStarts(version);
    ShapeIff(version);
    var t := v + version;
    assert t[0] == if v == "" then version[0] else v[0];
    TrimStartBlank(spaces, t);
    if v != "" { assert t[1..] == version; } else { assert t == version; }
  }

  lemma VersionAfterParts(s: string) returns (spaces: string, v: string, version: string)
    requires IsVersionAfterSpaces(s)
    ensures Blank(spaces) && v in {"", "v", "V"} && IsShape(version) && s == spaces + (v + version)
  {
    var t := TrimStart(s);
    spaces := TrimStartParts(s);
    if t != "" && t[0] in {'v', 'V'} {
      v, version := [t[0]], t[1..];
      assert t == v + version;
    } else {
      v, version := "", t;
      assert v + version == t;
    }
    ShapeIff(version);
  }

  lemma SubjectComposed(s: string, prefix: string, rest: string, word: string)
    requires Matches(prefix, word) && s == prefix + rest
    ensures |word| <= |s| && s[..|word|] == prefix && s[|word|..] == rest
  {
  }

  lemma BareSubject(s: string)
    ensures IsReleaseSubject(s) <==>
      || ("release:" <= Fold(s) && IsVersionAfterSpaces(s[|"release:"|..]))
      || ("chore(release):" <= Fold(s) && IsVersionAfterSpaces(s[|"chore(release):"|..]))
  {
    FoldIs(s, "release:");
    FoldIs(s, "chore(release):");
    if "release:" <= Fold(s) && IsVersionAfterSpaces(s[|"release:"|..]) { AnnouncedParts(s, "release:"); }
    if "chore(release):" <= Fold(s) && IsVersionAfterSpaces(s[|"chore(release):"|..]) {
      AnnouncedParts(s, "chore(release):");
    }
    if prefix, spaces, v, version :|
      && (Matches(prefix, "release:") || Matches(prefix, "chore(release):"))
      && Blank(spaces) && v in {"", "v", "V"} && IsShape(version) && s == prefix + (spaces + (v + version))
    {
      VersionAfter(spaces, v, version);
      var word := if Matches(prefix, "release:") then "release:" else "chore(release):";
      SubjectComposed(s, prefix, spaces + (v + version), word);
    }
  }

  lemma AnnouncedParts(s: string, word: string)
    requires |word| <= |s| && Matches(s[..|word|], word) && IsVersionAfterSpaces(s[|word|..])
    requires word == "release:" || word == "chore(release):"
    ensures IsReleaseSubject(s)
  {
    var spaces, v, version := VersionAfterParts(s[|word|..]);
    assert s == s[..|word|] + (spaces + (v + version));
  }

  /** A commit is release metadata exactly when its trimmed subject announces a version. */
  lemma MetadataIff(subject: string)
    ensures IsReleaseMetadata(subject) <==> exists s :: Trimmed(subject, s) && IsReleaseSubject(s)
  {
    var s := Trim(subject);
    TrimIff(subject, s);
    BareSubject(s);
    forall t | Trimmed(subject, t) ensures t == s { TrimIff(subject, t); }
  }
}
