/** scripts/version-line.ts: the comparator, and SemVer 2.0.0 section 11 precedence stated on its own. */
module VersionOrder {
  import opened Sorting

  datatype Option<+T> = None | Some(value: T)

  /** A parsed version; build metadata is dropped by the parser. */
  datatype Version = Version(major: nat, minor: nat, patch: nat, prerelease: Option<seq<string>>)

  type Collation = (string, string) -> int

  predicate IsDigits(s: string) {
    s != "" && forall i :: 0 <= i < |s| ==> '0' <= s[i] <= '9'
  }

  /** `Number(s)` of a digit string. */
  function DigitsValue(s: string): nat
    requires forall i :: 0 <= i < |s| ==> '0' <= s[i] <= '9'
  {
    if s == "" then 0 else DigitsValue(s[..|s| - 1]) * 10 + (s[|s| - 1] as int - '0' as int)
  }

  /** One round of the identifier loop; 0 lets the loop go on. */
  function CompareIds(a: string, b: string, compareText: Collation): int {
    if IsDigits(a) && IsDigits(b) then DigitsValue(a) - DigitsValue(b)
    else if IsDigits(a) != IsDigits(b) then (if IsDigits(a) then -1 else 1)
    else compareText(a, b)
  }

  function ComparePrereleases(a: seq<string>, b: seq<string>, compareText: Collation): int
    decreases |a|
  {
    if a == [] && b == [] then 0
    else if a == [] then -1
    else if b == [] then 1
    else
      var difference := CompareIds(a[0], b[0], compareText);
      if difference != 0 then difference else ComparePrereleases(a[1..], b[1..], compareText)
  }

  function CompareParsed(a: Version, b: Version, compareText: Collation): int {
    if a.major != b.major then a.major - b.major
    else if a.minor != b.minor then a.minor - b.minor
    else if a.patch != b.patch then a.patch - b.patch
    else if a.prerelease.None? && b.prerelease.None? then 0
    else if a.prerelease.None? then 1
    else if b.prerelease.None? then -1
    else ComparePrereleases(a.prerelease.value, b.prerelease.value, compareText)
  }

  /** The strict comparator: identifiers by code unit. */
  function Compare(a: Version, b: Version): int {
    CompareParsed(a, b, CompareText)
  }

  // ---------- a total preorder

  ghost predicate Opposite(x: int, y: int) {
    (x < 0 <==> y > 0) && (x > 0 <==> y < 0)
  }

  /** At most, at most: then at most, and strictly if either was. */
  ghost predicate Chains(xy: int, yz: int, xz: int) {
    xy <= 0 && yz <= 0 ==> xz <= 0 && (xy < 0 || yz < 0 ==> xz < 0)
  }

  ghost predicate Consistent<T(!new)>(compare: (T, T) -> int) {
    && (forall x :: compare(x, x) == 0)
    && (forall x, y :: Opposite(compare(x, y), compare(y, x)))
    && (forall x, y, z :: Chains(compare(x, y), compare(y, z), compare(x, z)))
  }

  lemma CompareTextConsistent()
    ensures Consistent(CompareText)
  {
    forall x, y ensures Opposite(CompareText(x, y), CompareText(y, x)) { CompareTextAntisymmetric(x, y); }
    forall x, y, z ensures Chains(CompareText(x, y), CompareText(y, z), CompareText(x, z)) {
      if CompareText(x, y) <= 0 && CompareText(y, z) <= 0 { CompareTextTransitive(x, y, z); }
    }
  }

  lemma {:induction false} PrereleasesReflexive(a: seq<string>, c: Collation)
    requires Consistent(c)
    ensures ComparePrereleases(a, a, c) == 0
  {
    if a != [] { PrereleasesReflexive(a[1..], c); }
  }

  lemma {:induction false} PrereleasesOpposite(a: seq<string>, b: seq<string>, c: Collation)
    requires Consistent(c)
    ensures Opposite(ComparePrereleases(a, b, c), ComparePrereleases(b, a, c))
    decreases |a|
  {
    if a != [] && b != [] {
      assert Opposite(CompareIds(a[0], b[0], c), CompareIds(b[0], a[0], c));
      PrereleasesOpposite(a[1..], b[1..], c);
    }
  }

  lemma {:induction false} PrereleasesChain(x: seq<string>, y: seq<string>, z: seq<string>, c: Collation)
    requires Consistent(c)
    ensures Chains(ComparePrereleases(x, y, c), ComparePrereleases(y, z, c), ComparePrereleases(x, z, c))
    decreases |x|
  {
    if x != [] && y != [] && z != [] {
      IdsChain(x[0], y[0], z[0], c);
      IdsChain(z[0], y[0], x[0], c);
      assert Opposite(CompareIds(x[0], y[0], c), CompareIds(y[0], x[0], c));
      assert Opposite(CompareIds(y[0], z[0], c), CompareIds(z[0], y[0], c));
      assert Opposite(CompareIds(x[0], z[0], c), CompareIds(z[0], x[0], c));
      PrereleasesChain(x[1..], y[1..], z[1..], c);
    }
  }

  lemma IdsChain(x: string, y: string, z: string, c: Collation)
    requires Consistent(c)
    ensures Chains(CompareIds(x, y, c), CompareIds(y, z, c), CompareIds(x, z, c))
  {
    assert Chains(c(x, y), c(y, z), c(x, z));
  }

  /** Whatever consistent text order it is given, the comparator is reflexive, sign-antisymmetric and transitive. */
  lemma ComparatorConsistent(c: Collation)
    requires Consistent(c)
    ensures Consistent((a, b) => CompareParsed(a, b, c))
  {
    var compare := (a, b) => CompareParsed(a, b, c);
    forall a ensures compare(a, a) == 0 {
      if a.prerelease.Some? { PrereleasesReflexive(a.prerelease.value, c); }
    }
    forall a, b ensures Opposite(compare(a, b), compare(b, a)) {
      if a.prerelease.Some? && b.prerelease.Some? { PrereleasesOpposite(a.prerelease.value, b.prerelease.value, c); }
    }
    forall x, y, z ensures Chains(compare(x, y), compare(y, z), compare(x, z)) {
      VersionsChain(x, y, z, c);
    }
  }

  lemma VersionsChain(x: Version, y: Version, z: Version, c: Collation)
    requires Consistent(c)
    ensures Chains(CompareParsed(x, y, c), CompareParsed(y, z, c), CompareParsed(x, z, c))
  {
    if x.prerelease.Some? && y.prerelease.Some? && z.prerelease.Some? {
      PrereleasesChain(x.prerelease.value, y.prerelease.value, z.prerelease.value, c);
    }
  }

  /** The facts about two and three versions that the resolvers' proofs use. */
  lemma CompareFacts(x: Version, y: Version, z: Version)
    ensures Compare(x, x) == 0 && Opposite(Compare(x, y), Compare(y, x))
    ensures Chains(Compare(x, y), Compare(y, z), Compare(x, z))
  {
    CompareTextConsistent();
    ComparatorConsistent(CompareText);
    var compare := (a, b) => CompareParsed(a, b, CompareText);
    assert compare(x, x) == 0 && Opposite(compare(x, y), compare(y, x));
    VersionsChain(x, y, z, CompareText);
  }

  // ---------- SemVer 2.0.0, section 11

  /** ASCII sort order: at the first difference the smaller character, or a proper prefix. */
  ghost predicate TextPrecedesAt(x: string, y: string, k: int) {
    && 0 <= k <= |x| && k <= |y| && x[..k] == y[..k]
    && ((k == |x| && k < |y|) || (k < |x| && k < |y| && x[k] < y[k]))
  }

  ghost predicate TextPrecedes(x: string, y: string) {
    exists k :: TextPrecedesAt(x, y, k)
  }

  /** 11.4.1-11.4.3: numbers numerically, numbers below text, text in ASCII order. */
  ghost predicate IdPrecedes(x: string, y: string) {
    if IsDigits(x) && IsDigits(y) then DigitsValue(x) < DigitsValue(y)
    else if IsDigits(x) then true
    else !IsDigits(y) && TextPrecedes(x, y)
  }

  ghost predicate IdTies(x: string, y: string) {
    if IsDigits(x) && IsDigits(y) then DigitsValue(x) == DigitsValue(y) else x == y
  }

  /** 11.4, 11.4.4: decided at the first identifier that differs, or by running out of identifiers first. */
  ghost predicate ListPrecedesAt(a: seq<string>, b: seq<string>, k: int) {
    && 0 <= k <= |a| && k <= |b| && (forall i :: 0 <= i < k ==> IdTies(a[i], b[i]))
    && ((k == |a| && k < |b|) || (k < |a| && k < |b| && IdPrecedes(a[k], b[k])))
  }

  ghost predicate ListPrecedes(a: seq<string>, b: seq<string>) {
    exists k :: ListPrecedesAt(a, b, k)
  }

  /** 11.2, 11.3: the core first, then a prerelease below its release. */
  ghost predicate Precedes(a: Version, b: Version) {
    || a.major < b.major
    || (a.major == b.major && a.minor < b.minor)
    || (a.major == b.major && a.minor == b.minor && a.patch < b.patch)
    || (a.major == b.major && a.minor == b.minor && a.patch == b.patch && a.prerelease.Some?
        && (b.prerelease.None? || ListPrecedes(a.prerelease.value, b.prerelease.value)))
  }

  lemma {:induction false} CompareTextIsAsciiOrder(x: string, y: string)
    ensures CompareText(x, y) < 0 <==> TextPrecedes(x, y)
  {
    if x == [] || y == [] {
      if x == [] && y != [] { assert TextPrecedesAt(x, y, 0); }
    } else if x[0] != y[0] {
      if x[0] < y[0] { assert TextPrecedesAt(x, y, 0); }
      if k :| TextPrecedesAt(x, y, k) {
        if k > 0 { assert x[..k][0] == y[..k][0]; }
      }
    } else {
      CompareTextIsAsciiOrder(x[1..], y[1..]);
      if k :| TextPrecedesAt(x[1..], y[1..], k) {
        assert x[..k + 1] == [x[0]] + x[1..][..k] && y[..k + 1] == [y[0]] + y[1..][..k];
        assert TextPrecedesAt(x, y, k + 1);
      }
      if k :| TextPrecedesAt(x, y, k) {
        assert x[1..][..k - 1] == x[..k][1..] && y[1..][..k - 1] == y[..k][1..];
        assert TextPrecedesAt(x[1..], y[1..], k - 1);
      }
    }
  }

  lemma CompareIdsIsSemVer(x: string, y: string)
    ensures CompareIds(x, y, CompareText) < 0 <==> IdPrecedes(x, y)
    ensures CompareIds(x, y, CompareText) == 0 <==> IdTies(x, y)
  {
    CompareTextIsAsciiOrder(x, y);
  }

  lemma ListShift(a: seq<string>, b: seq<string>, k: int)
    requires a != [] && b != [] && IdTies(a[0], b[0])
    ensures k >= 0 ==> (ListPrecedesAt(a, b, k + 1) <==> ListPrecedesAt(a[1..], b[1..], k))
  {
    if k >= 0 && ListPrecedesAt(a[1..], b[1..], k) {
      forall i | 0 <= i < k + 1 ensures IdTies(a[i], b[i]) {
        if i > 0 { assert a[i] == a[1..][i - 1] && b[i] == b[1..][i - 1]; }
      }
    }
    if k >= 0 && ListPrecedesAt(a, b, k + 1) {
      forall i | 0 <= i < k ensures IdTies(a[1..][i], b[1..][i]) {
        assert IdTies(a[i + 1], b[i + 1]);
      }
    }
  }

  lemma {:induction false} ComparePrereleasesIsSemVer(a: seq<string>, b: seq<string>)
    ensures ComparePrereleases(a, b, CompareText) < 0 <==> ListPrecedes(a, b)
    decreases |a|
  {
    if a == [] || b == [] {
      if a == [] && b != [] { assert ListPrecedesAt(a, b, 0); }
    } else {
      CompareIdsIsSemVer(a[0], b[0]);
      if CompareIds(a[0], b[0], CompareText) != 0 {
        if CompareIds(a[0], b[0], CompareText) < 0 { assert ListPrecedesAt(a, b, 0); }
        if k :| ListPrecedesAt(a, b, k) { assert k == 0; }
      } else {
        ComparePrereleasesIsSemVer(a[1..], b[1..]);
        if k :| ListPrecedesAt(a[1..], b[1..], k) { ListShift(a, b, k); }
        if k :| ListPrecedesAt(a, b, k) {
          assert k != 0;
          ListShift(a, b, k - 1);
        }
      }
    }
  }

  /** The comparator is SemVer precedence: negative below, positive above, zero when neither precedes. */
  lemma CompareIsSemVer(a: Version, b: Version)
    ensures Compare(a, b) < 0 <==> Precedes(a, b)
    ensures Compare(a, b) > 0 <==> Precedes(b, a)
  {
    CompareFacts(a, b, a);
    CompareFacts(b, a, b);
    if a.prerelease.Some? && b.prerelease.Some? {
      ComparePrereleasesIsSemVer(a.prerelease.value, b.prerelease.value);
      ComparePrereleasesIsSemVer(b.prerelease.value, a.prerelease.value);
    }
  }
}
