/**
 * The two version patterns, said on the pieces a version text is put together from: what the parsers accept, and which
 * version the strict one reads.
 */
module VersionPattern {
  import opened TextLines
  import opened VersionOrder
  import opened VersionText

  function JoinDots(parts: seq<string>): string {
    if parts == [] then "" else if |parts| == 1 then parts[0] else parts[0] + "." + JoinDots(parts[1..])
  }

  /** Letters, digits and hyphens. */
  predicate IsIdentifier(s: string) {
    s != "" && forall c :: c in s ==> '0' <= c <= '9' || 'A' <= c <= 'Z' || 'a' <= c <= 'z' || c == '-'
  }

  predicate AllIdentifiers(parts: seq<string>) {
    parts != [] && forall part :: part in parts ==> IsIdentifier(part)
  }

  /** Three numbers with dots between them. */
  predicate IsCore(text: string, a: string, b: string, c: string) {
    IsDigits(a) && IsDigits(b) && IsDigits(c) && text == a + "." + b + "." + c
  }

  function Tail(mark: string, parts: Option<seq<string>>): string {
    if parts.None? then "" else mark + JoinDots(parts.value)
  }

  predicate AllIdentifiersIfAny(parts: Option<seq<string>>) {
    parts.Some? ==> AllIdentifiers(parts.value)
  }

  /** Perhaps a hyphen and this prerelease, perhaps a plus and build metadata. */
  ghost predicate IsTail(text: string, prerelease: Option<seq<string>>) {
    && AllIdentifiersIfAny(prerelease)
    && exists build :: AllIdentifiersIfAny(build) && text == Tail("-", prerelease) + Tail("+", build)
  }

  /** The numbers of a version's core. */
  predicate Numbers(v: Version, a: string, b: string, c: string)
    requires IsDigits(a) && IsDigits(b) && IsDigits(c)
  {
    v.major == DigitsValue(a) && v.minor == DigitsValue(b) && v.patch == DigitsValue(c)
  }

  /** A core with this version's numbers, and the tail with its prerelease. */
  ghost predicate Strict(text: string, v: Version) {
    exists core, a, b, c, rest ::
      IsCore(core, a, b, c) && Numbers(v, a, b, c) && text == core + rest && IsTail(rest, v.prerelease)
  }

  /** Nothing, or a hyphen and anything at all that does not end the line. */
  predicate IsLooseTail(text: string) {
    text == "" || (|text| > 1 && text[0] == '-' && forall x :: x in text ==> x !in "\n\r\U{2028}\U{2029}")
  }

  ghost predicate Loose(text: string) {
    exists core, a, b, c, rest :: IsCore(core, a, b, c) && text == core + rest && IsLooseTail(rest)
  }

  // ---------- dots

  predicate NoDots(parts: seq<string>) {
    forall i :: 0 <= i < |parts| ==> '.' !in parts[i]
  }

  lemma {:induction false} JoinSplit(s: string)
    ensures JoinDots(SplitDots(s)) == s && NoDots(SplitDots(s))
  {
    if s != "" {
      JoinSplit(s[1..]);
      var rest := SplitDots(s[1..]);
      var parts := SplitDots(s);
      assert s == [s[0]] + s[1..];
      if s[0] == '.' {
        assert parts[1..] == rest;
      } else {
        assert parts[1..] == rest[1..];
      }
      forall i | 0 <= i < |parts| ensures '.' !in parts[i] {
        if i > 0 { assert s[0] == '.' ==> parts[i] == rest[i - 1]; }
      }
    }
  }

  lemma {:induction false} SplitFirstDot(part: string, rest: string)
    requires '.' !in part
    ensures SplitDots(part) == [part] && SplitDots(part + "." + rest) == [part] + SplitDots(rest)
  {
    if part == "" {
      assert (part + "." + rest)[1..] == rest;
    } else {
      SplitFirstDot(part[1..], rest);
      assert part == [part[0]] + part[1..];
      assert (part + "." + rest)[1..] == part[1..] + "." + rest;
    }
  }

  lemma {:induction false} SplitJoin(parts: seq<string>)
    requires parts != [] && NoDots(parts)
    ensures SplitDots(JoinDots(parts)) == parts
  {
    assert parts == [parts[0]] + parts[1..];
    if |parts| > 1 { SplitJoin(parts[1..]); }
    SplitFirstDot(parts[0], JoinDots(parts[1..]));
  }

  lemma IdentifiersIff(parts: seq<string>)
    requires parts != []
    ensures AreIdentifiers(parts) <==> AllIdentifiers(parts)
    ensures AllIdentifiers(parts) ==> NoDots(parts)
  {
    forall i | 0 <= i < |parts| ensures parts[i] in parts {}
    if AllIdentifiers(parts) {
      forall i, j | 0 <= i < |parts| && 0 <= j < |parts[i]| ensures IsIdChar(parts[i][j]) {
        assert IsIdentifier(parts[i]) && parts[i][j] in parts[i];
      }
      forall i | 0 <= i < |parts| ensures '.' !in parts[i] { assert IsIdentifier(parts[i]); }
    }
    if AreIdentifiers(parts) {
      forall part | part in parts ensures IsIdentifier(part) {
        var i :| 0 <= i < |parts| && parts[i] == part;
        forall c | c in part ensures IsIdChar(c) { var j :| 0 <= j < |part| && part[j] == c; }
      }
    }
  }

  // ---------- the core

  lemma NumberText(digits: string, rest: string)
    requires IsDigits(digits) && (rest != "" ==> !IsDigit(rest[0]))
    ensures ParseNumber(digits + rest) == Some(Numbered(DigitsValue(digits), rest))
  {
    DigitsThen(digits, rest);
    assert (digits + rest)[..|digits|] == digits && (digits + rest)[|digits|..] == rest;
  }

  lemma NumberDotText(digits: string, rest: string)
    requires IsDigits(digits)
    ensures ParseNumberDot(digits + ("." + rest)) == Some(Numbered(DigitsValue(digits), rest))
  {
    NumberText(digits, "." + rest);
    assert ("." + rest)[1..] == rest;
  }

  lemma CoreAssociates(a: string, b: string, c: string, rest: string)
    ensures a + "." + b + "." + c + rest == a + ("." + (b + ("." + (c + rest))))
  {
  }

  lemma CoreComposed(core: string, a: string, b: string, c: string, rest: string)
    requires IsCore(core, a, b, c) && (rest != "" ==> !IsDigit(rest[0]))
    ensures ParseCore(core + rest) ==
      Some(CoreText(Version(DigitsValue(a), DigitsValue(b), DigitsValue(c), None), rest))
  {
    CoreAssociates(a, b, c, rest);
    NumberDotText(a, b + ("." + (c + rest)));
    NumberDotText(b, c + rest);
    NumberText(c, rest);
    CoreSteps(core + rest, b + ("." + (c + rest)), c + rest,
              Version(DigitsValue(a), DigitsValue(b), DigitsValue(c), None), rest);
  }

  lemma NumberParts(s: string) returns (digits: string)
    requires ParseNumber(s).Some?
    ensures IsDigits(digits) && s == digits + ParseNumber(s).value.rest
    ensures ParseNumber(s).value.value == DigitsValue(digits)
    ensures ParseNumber(s).value.rest != "" ==> !IsDigit(ParseNumber(s).value.rest[0])
  {
    digits := s[..DigitsAtStart(s)];
  }

  lemma NumberDotParts(s: string) returns (digits: string)
    requires ParseNumberDot(s).Some?
    ensures IsDigits(digits) && s == digits + ("." + ParseNumberDot(s).value.rest)
    ensures ParseNumberDot(s).value.value == DigitsValue(digits)
  {
    digits := NumberParts(s);
    var rest := ParseNumber(s).value.rest;
    assert rest == "." + rest[1..];
  }

  lemma CoreParts(s: string) returns (core: string, a: string, b: string, c: string)
    requires ParseCore(s).Some?
    ensures IsCore(core, a, b, c) && s == core + ParseCore(s).value.rest
    ensures ParseCore(s).value.core == Version(DigitsValue(a), DigitsValue(b), DigitsValue(c), None)
    ensures ParseCore(s).value.rest != "" ==> !IsDigit(ParseCore(s).value.rest[0])
  {
    a := NumberDotParts(s);
    var major := ParseNumberDot(s).value;
    b := NumberDotParts(major.rest);
    var minor := ParseNumberDot(major.rest).value;
    c := NumberParts(minor.rest);
    core := a + "." + b + "." + c;
    CoreAssociates(a, b, c, ParseNumber(minor.rest).value.rest);
  }

  // ---------- what follows the core

  lemma {:induction false} NoPlus(parts: seq<string>)
    requires AllIdentifiers(parts)
    ensures '+' !in JoinDots(parts) && JoinDots(parts) != ""
    decreases |parts|
  {
    assert parts == [parts[0]] + parts[1..];
    assert IsIdentifier(parts[0]);
    if |parts| > 1 { NoPlus(parts[1..]); }
  }

  lemma {:induction false} PlusAfter(s: string, rest: string)
    requires '+' !in s && (rest != "" ==> rest[0] == '+')
    ensures PlusAt(s + rest) == |s| && (s + rest)[..|s|] == s && (s + rest)[|s|..] == rest
  {
    if s == "" {
      assert s + rest == rest;
    } else {
      PlusAfter(s[1..], rest);
      assert (s + rest)[1..] == s[1..] + rest && s[0] in s;
    }
  }

  lemma {:induction false} PlusParts(s: string)
    ensures PlusAt(s) < |s| ==> s[PlusAt(s)] == '+'
  {
    if s != "" && s[0] != '+' { PlusParts(s[1..]); }
  }

  lemma BuildComposed(build: Option<seq<string>>)
    requires build.Some? ==> AllIdentifiers(build.value)
    ensures IsBuild(Tail("+", build))
    ensures Tail("+", build) != "" ==> Tail("+", build)[0] == '+'
  {
    if build.Some? {
      var joined := JoinDots(build.value);
      IdentifiersIff(build.value);
      SplitJoin(build.value);
      assert ("+" + joined)[1..] == joined;
    }
  }

  lemma BuildParts(s: string) returns (build: Option<seq<string>>)
    requires IsBuild(s)
    ensures s == Tail("+", build) && (build.Some? ==> AllIdentifiers(build.value))
  {
    if s == "" { return None; }
    JoinSplit(s[1..]);
    IdentifiersIff(SplitDots(s[1..]));
    assert s == "+" + s[1..];
    build := Some(SplitDots(s[1..]));
  }

  lemma TailComposed(core: Version, prerelease: Option<seq<string>>, build: Option<seq<string>>)
    requires AllIdentifiersIfAny(prerelease) && AllIdentifiersIfAny(build) && core.prerelease.None?
    ensures ParseTail(core, Tail("-", prerelease) + Tail("+", build)) == Some(core.(prerelease := prerelease))
  {
    var tail := Tail("+", build);
    BuildComposed(build);
    if prerelease.None? {
      assert Tail("-", prerelease) + tail == tail;
    } else {
      var ids := prerelease.value;
      var joined := JoinDots(ids);
      var rest := ("-" + joined) + tail;
      assert rest[1..] == joined + tail && rest[0] == '-';
      NoPlus(ids);
      PlusAfter(joined, tail);
      IdentifiersIff(ids);
      SplitJoin(ids);
    }
  }

  lemma TailSplit(rest: string, k: nat)
    requires rest != "" && rest[0] == '-' && k <= |rest| - 1
    ensures rest == ("-" + rest[1..][..k]) + rest[1..][k..]
  {
  }

  lemma TailParts(core: Version, rest: string) returns (prerelease: Option<seq<string>>)
    requires ParseTail(core, rest).Some? && core.prerelease.None?
    ensures ParseTail(core, rest) == Some(core.(prerelease := prerelease)) && IsTail(rest, prerelease)
  {
    if rest != "" && rest[0] == '-' {
      var tail := rest[1..];
      var before, after := tail[..PlusAt(tail)], tail[PlusAt(tail)..];
      prerelease := Some(SplitDots(before));
      var build := BuildParts(after);
      JoinSplit(before);
      IdentifiersIff(SplitDots(before));
      TailSplit(rest, PlusAt(tail));
    } else {
      prerelease := None;
      var build := BuildParts(rest);
      assert Tail("-", prerelease) + rest == rest;
    }
  }

  lemma {:induction false} TailStart(rest: string, prerelease: Option<seq<string>>)
    requires IsTail(rest, prerelease)
    ensures rest != "" ==> !IsDigit(rest[0])
  {
  }

  // ---------- the two patterns

  /** The strict pattern reads a bare text as this version exactly when it is put together so. */
  lemma BareIff(s: string, v: Version)
    ensures ParseBare(s) == Some(v) <==> Strict(s, v)
  {
    if ParseBare(s) == Some(v) {
      var core, a, b, c := CoreParts(s);
      var parsed := ParseCore(s).value;
      var prerelease := TailParts(parsed.core, parsed.rest);
      assert Numbers(v, a, b, c) && IsTail(parsed.rest, v.prerelease);
    }
    if Strict(s, v) { StrictParses(s, v); }
  }

  lemma StrictParses(s: string, v: Version)
    requires Strict(s, v)
    ensures ParseBare(s) == Some(v)
  {
    var core, a, b, c, rest :|
      IsCore(core, a, b, c) && Numbers(v, a, b, c) && s == core + rest && IsTail(rest, v.prerelease);
    var build :| AllIdentifiersIfAny(build) && rest == Tail("-", v.prerelease) + Tail("+", build);
    TailStart(rest, v.prerelease);
    CoreComposed(core, a, b, c, rest);
    TailComposed(v.(prerelease := None), v.prerelease, build);
  }

  lemma LooseTailIff(rest: string)
    ensures IsLooseTail(rest) <==>
      rest == "" || (rest[0] == '-' && |rest| > 1 && forall i :: 0 < i < |rest| ==> !EndsLine(rest[i]))
  {
    forall i | 0 < i < |rest| ensures rest[i] in rest {}
  }

  /** What the loose pattern accepts of a bare text. */
  predicate LooseBare(s: string) {
    match ParseCore(s) case None => false case Some(c) => IsLooseTail(c.rest)
  }

  lemma LooseBareIff(s: string)
    ensures LooseBare(s) <==> Loose(s)
  {
    if LooseBare(s) {
      var core, a, b, c := CoreParts(s);
      assert s == core + ParseCore(s).value.rest;
    }
    if core, a, b, c, rest :| IsCore(core, a, b, c) && s == core + rest && IsLooseTail(rest) {
      CoreComposed(core, a, b, c, rest);
    }
  }

  /** The text without the white space around it, and without one leading `v`. */
  ghost predicate Bared(raw: string, s: string) {
    exists text :: Trimmed(raw, text) && (text == "v" + s || (text == s && !("v" <= text)))
  }

  lemma BaredIs(raw: string)
    ensures Bared(raw, SkipV(Trim(raw)))
  {
    TrimIff(raw, Trim(raw));
    var text := Trim(raw);
    if text != "" && text[0] == 'v' { assert text == "v" + text[1..]; }
  }

  /** Each pattern accepts a text exactly when what is left of it is put together as that pattern says. */
  lemma PatternsIff(raw: string) returns (s: string)
    ensures Bared(raw, s)
    ensures forall v :: ParseVersion(raw) == Some(v) <==> Strict(s, v)
    ensures LooseParses(raw) <==> Loose(s)
  {
    s := SkipV(Trim(raw));
    BaredIs(raw);
    forall v ensures ParseVersion(raw) == Some(v) <==> Strict(s, v) { BareIff(s, v); }
    LooseBareIff(s);
    if ParseCore(s).Some? { LooseTailIff(ParseCore(s).value.rest); }
  }
}
