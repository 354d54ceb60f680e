/** scripts/build-release-changelog.ts: collecting the entries, and the validator that can only find them empty. */
module ReleaseCoverage {
  import opened VersionOrder
  import opened MarkerSearch
  import opened ReleaseCommits
  import opened ReleaseRender

  /** The parsed generated notes. */
  datatype Section = Section(title: string, pulls: seq<GeneratedPull>)

  datatype GeneratedPull = GeneratedPull(number: nat, title: string, author: string)

  /** The headings for pull requests and for commit subjects. */
  datatype Categories = Categories(ofPull: Pull -> string, ofTitle: string -> string)

  datatype ReleaseError = NotRepresented(sha: string) | CommitMissing(sha: string)
    | PullsMissing(sha: string, ids: seq<nat>) | EmptyChangelog(commits: nat)

  ghost predicate InSections(sections: seq<Section>, i: int, j: int) {
    0 <= i < |sections| && 0 <= j < |sections[i].pulls|
  }

  ghost predicate Before(i: int, j: int, k: int, l: int) {
    i < k || (i == k && j < l)
  }

  /** The entry made of the first mention of its number. */
  ghost predicate FirstMention(sections: seq<Section>, i: int, j: int, e: Entry) {
    && InSections(sections, i, j)
    && e == PullEntry(sections[i].title, sections[i].pulls[j].number, sections[i].pulls[j].title,
      sections[i].pulls[j].author)
    && forall k, l {:trigger InSections(sections, k, l)} :: InSections(sections, k, l) && Before(k, l, i, j) ==>
         sections[k].pulls[l].number != e.number
  }

  /** All numbers mentioned in front of position (i, j) have an entry, and entries are first mentions. */
  ghost predicate CollectedUpTo(sections: seq<Section>, i: int, j: int, changes: seq<Entry>) {
    && PullsDistinct(changes)
    && (forall e :: e in changes ==> exists k, l :: Before(k, l, i, j) && FirstMention(sections, k, l, e))
    && forall k, l {:trigger InSections(sections, k, l)} :: InSections(sections, k, l) && Before(k, l, i, j) ==>
         HasPull(changes, sections[k].pulls[l].number)
  }

  lemma HasPullAppend(a: seq<Entry>, b: seq<Entry>, number: nat)
    ensures HasPull(a + b, number) <==> HasPull(a, number) || HasPull(b, number)
  {
    if HasPull(a, number) {
      var i :| 0 <= i < |a| && a[i].PullEntry? && a[i].number == number;
      assert (a + b)[i] == a[i];
    }
    if HasPull(b, number) {
      var i :| 0 <= i < |b| && b[i].PullEntry? && b[i].number == number;
      assert (a + b)[|a| + i] == b[i];
    }
  }

  lemma DistinctAppend(entries: seq<Entry>, e: Entry)
    requires PullsDistinct(entries) && (e.PullEntry? ==> !HasPull(entries, e.number))
    ensures PullsDistinct(entries + [e])
  {
  }

  /** The generated notes' pull requests: each number once, at its first mention. */
  method GeneratedPullChanges(sections: seq<Section>) returns (changes: seq<Entry>)
    ensures PullsDistinct(changes)
    ensures forall e :: e in changes ==> exists i, j :: FirstMention(sections, i, j, e)
    ensures forall i, j :: InSections(sections, i, j) ==> HasPull(changes, sections[i].pulls[j].number)
  {
    changes := [];
    var i := 0;
    while i < |sections|
      invariant 0 <= i <= |sections| && CollectedUpTo(sections, i, 0, changes)
    {
      var pulls := sections[i].pulls;
      var j := 0;
      while j < |pulls|
        invariant 0 <= j <= |pulls| && CollectedUpTo(sections, i, j, changes)
      {
        var p := pulls[j];
        ghost var was := changes;
        if !HasPull(changes, p.number) {
          var e := PullEntry(sections[i].title, p.number, p.title, p.author);
          DistinctAppend(changes, e);
          assert InSections(sections, i, j);
          assert FirstMention(sections, i, j, e);
          changes := changes + [e];
          assert changes[|was|] == e;
        }
        CollectOne(sections, i, j, was, changes);
        j := j + 1;
      }
      i := i + 1;
    }
    forall e | e in changes ensures exists k, l :: FirstMention(sections, k, l, e) {
      var k, l :| Before(k, l, i, 0) && FirstMention(sections, k, l, e);
    }
  }

  lemma CollectOne(sections: seq<Section>, i: int, j: int, was: seq<Entry>, changes: seq<Entry>)
    requires InSections(sections, i, j) && CollectedUpTo(sections, i, j, was) && PullsDistinct(changes)
    requires was <= changes && HasPull(changes, sections[i].pulls[j].number)
    requires forall k :: |was| <= k < |changes| ==> FirstMention(sections, i, j, changes[k])
    ensures CollectedUpTo(sections, i, j + 1, changes)
  {
    assert changes == was + changes[|was|..];
    forall e | e in changes ensures exists k, l :: Before(k, l, i, j + 1) && FirstMention(sections, k, l, e) {
      if e in was {
        var k, l :| Before(k, l, i, j) && FirstMention(sections, k, l, e);
        assert Before(k, l, i, j + 1);
      } else {
        assert Before(i, j, i, j + 1);
      }
    }
    forall k, l | InSections(sections, k, l) && Before(k, l, i, j + 1)
      ensures HasPull(changes, sections[k].pulls[l].number)
    {
      if Before(k, l, i, j) { HasPullAppend(was, changes[|was|..], sections[k].pulls[l].number); }
    }
  }

  // ---------- what the commits add to the generated entries

  function EntryOf(p: Pull, categories: Categories): Entry {
    PullEntry(categories.ofPull(p), p.number, p.title, p.author)
  }

  /** A line for each pull that has none yet, in order. */
  function AddAll(entries: seq<Entry>, pulls: seq<Pull>, categories: Categories): seq<Entry> {
    if pulls == [] then entries
    else
      var p := pulls[|pulls| - 1];
      var before := AddAll(entries, pulls[..|pulls| - 1], categories);
      if HasPull(before, p.number) then before else before + [EntryOf(p, categories)]
  }

  /** The lines that the commits bring, commit by commit. */
  function AllBrought(commits: seq<Commit>, brings: Commit -> seq<Pull>, categories: Categories): seq<Entry> {
    if commits == [] then []
    else AddAll(AllBrought(commits[..|commits| - 1], brings, categories), brings(commits[|commits| - 1]), categories)
  }

  function Brings(generated: seq<Entry>): Commit -> seq<Pull> {
    c => Unlisted(c, generated)
  }

  function Fallbacks(commits: seq<Commit>, generated: seq<Entry>, categories: Categories): seq<Entry> {
    AllBrought(commits, Brings(generated), categories)
  }

  /** A commit that stands for itself, as an entry. */
  function DirectOf(c: Commit, generated: seq<Entry>, categories: Categories): seq<Entry> {
    if Decide(c, generated).Direct? then [CommitEntry(categories.ofTitle(c.subject), c.sha, c.subject)] else []
  }

  function FlatMap(commits: seq<Commit>, f: Commit -> seq<Entry>): seq<Entry> {
    if commits == [] then [] else FlatMap(commits[..|commits| - 1], f) + f(commits[|commits| - 1])
  }

  function Directs(commits: seq<Commit>, generated: seq<Entry>, categories: Categories): seq<Entry> {
    FlatMap(commits, StandsAlone(generated, categories))
  }

  function StandsAlone(generated: seq<Entry>, categories: Categories): Commit -> seq<Entry> {
    c => DirectOf(c, generated, categories)
  }

  /** The map that is set for each commit in turn. */
  function Keyed(commits: seq<Commit>, f: Commit -> Coverage): map<string, Coverage> {
    if commits == [] then map[]
    else Keyed(commits[..|commits| - 1], f)[commits[|commits| - 1].sha := f(commits[|commits| - 1])]
  }

  function CoveredBy(generated: seq<Entry>): Commit -> Coverage {
    c => Decide(c, generated)
  }

  function Covers(commits: seq<Commit>, generated: seq<Entry>): map<string, Coverage> {
    Keyed(commits, CoveredBy(generated))
  }

  function Entries(commits: seq<Commit>, generated: seq<Entry>, categories: Categories): seq<Entry> {
    generated + Fallbacks(commits, generated, categories) + Directs(commits, generated, categories)
  }

  /** The inner loop over the pulls of one commit. */
  method AddFallbacks(fallback: seq<Entry>, pulls: seq<Pull>, categories: Categories) returns (r: seq<Entry>)
    ensures r == AddAll(fallback, pulls, categories)
  {
    r := fallback;
    var i := 0;
    while i < |pulls|
      invariant 0 <= i <= |pulls| && r == AddAll(fallback, pulls[..i], categories)
    {
      assert pulls[..i + 1][..i] == pulls[..i];
      if !HasPull(r, pulls[i].number) { r := r + [EntryOf(pulls[i], categories)]; }
      i := i + 1;
    }
    assert pulls[..i] == pulls;
  }

  /** One turn of the collecting loop. */
  method CoverOne(c: Commit, generated: seq<Entry>, categories: Categories,
                  fallback: seq<Entry>, direct: seq<Entry>, coverage: map<string, Coverage>)
    returns (fallback': seq<Entry>, direct': seq<Entry>, coverage': map<string, Coverage>)
    ensures fallback' == AddAll(fallback, Unlisted(c, generated), categories)
    ensures direct' == direct + DirectOf(c, generated, categories)
    ensures coverage' == coverage[c.sha := Decide(c, generated)]
  {
    fallback', direct' := fallback, direct;
    var landing := TrailingLandingPull(c.subject);
    var merged := Merged(c.pulls);
    var visible := Visible(merged);
    var listed := Listed(visible, generated);
    if landing.Some? && HasPull(generated, landing.value) {
      coverage' := coverage[c.sha := ByPulls([landing.value])];
    } else if listed != [] {
      coverage' := coverage[c.sha := ByPulls(Numbers(listed))];
    } else if visible != [] {
      fallback' := AddFallbacks(fallback, visible, categories);
      coverage' := coverage[c.sha := ByPulls(Numbers(visible))];
    } else if merged != [] && forall k :: 0 <= k < |merged| ==> HasSkipChangelog(merged[k]) {
      coverage' := coverage[c.sha := Ignored(Numbers(merged))];
    } else {
      direct' := direct + [CommitEntry(categories.ofTitle(c.subject), c.sha, c.subject)];
      coverage' := coverage[c.sha := Direct(c.sha)];
    }
  }

  lemma OneMoreBrings(commits: seq<Commit>, c: Commit, brings: Commit -> seq<Pull>, categories: Categories)
    ensures AllBrought(commits + [c], brings, categories) ==
      AddAll(AllBrought(commits, brings, categories), brings(c), categories)
  {
    assert (commits + [c])[..|commits|] == commits;
  }

  lemma OneMoreMaps(commits: seq<Commit>, c: Commit, f: Commit -> seq<Entry>)
    ensures FlatMap(commits + [c], f) == FlatMap(commits, f) + f(c)
  {
    assert (commits + [c])[..|commits|] == commits;
  }

  lemma OneMoreKeyed(commits: seq<Commit>, c: Commit, f: Commit -> Coverage)
    ensures Keyed(commits + [c], f) == Keyed(commits, f)[c.sha := f(c)]
  {
    assert (commits + [c])[..|commits|] == commits;
  }

  /** What one more commit adds to the three collections. */
  lemma OneMoreCommit(commits: seq<Commit>, c: Commit, generated: seq<Entry>, categories: Categories)
    ensures Fallbacks(commits + [c], generated, categories) ==
      AddAll(Fallbacks(commits, generated, categories), Unlisted(c, generated), categories)
    ensures Directs(commits + [c], generated, categories) ==
      Directs(commits, generated, categories) + DirectOf(c, generated, categories)
    ensures Covers(commits + [c], generated) == Covers(commits, generated)[c.sha := Decide(c, generated)]
  {
    OneMoreBrings(commits, c, Brings(generated), categories);
    OneMoreMaps(commits, c, StandsAlone(generated, categories));
    OneMoreKeyed(commits, c, CoveredBy(generated));
  }

  /** The collecting loop over the releasable commits. */
  method CoverCommits(commits: seq<Commit>, generated: seq<Entry>, categories: Categories)
    returns (fallback: seq<Entry>, direct: seq<Entry>, coverage: map<string, Coverage>)
    ensures fallback == Fallbacks(commits, generated, categories)
    ensures direct == Directs(commits, generated, categories)
    ensures coverage == Covers(commits, generated)
  {
    fallback, direct, coverage := [], [], map[];
    var i := 0;
    while i < |commits|
      invariant 0 <= i <= |commits|
      invariant fallback == Fallbacks(commits[..i], generated, categories)
      invariant direct == Directs(commits[..i], generated, categories)
      invariant coverage == Covers(commits[..i], generated)
    {
      OneMoreCommit(commits[..i], commits[i], generated, categories);
      assert commits[..i + 1] == commits[..i] + [commits[i]];
      fallback, direct, coverage := CoverOne(commits[i], generated, categories, fallback, direct, coverage);
      i := i + 1;
    }
    assert commits[..i] == commits;
  }

  // ---------- which lines there are

  lemma {:induction false} AddAllHas(entries: seq<Entry>, pulls: seq<Pull>, categories: Categories, number: nat)
    ensures HasPull(AddAll(entries, pulls, categories), number)
      <==> HasPull(entries, number) || Numbered(pulls, number)
  {
    if pulls != [] {
      var n := |pulls| - 1;
      var before := AddAll(entries, pulls[..n], categories);
      AddAllHas(entries, pulls[..n], categories, number);
      assert pulls == pulls[..n] + [pulls[n]];
      HasPullAppend(before, [EntryOf(pulls[n], categories)], number);
      assert [EntryOf(pulls[n], categories)][0].number == pulls[n].number;
    }
  }

  lemma {:induction false} AddAllDistinct(entries: seq<Entry>, pulls: seq<Pull>, categories: Categories)
    requires PullsDistinct(entries) && forall e :: e in entries ==> e.PullEntry?
    ensures var r := AddAll(entries, pulls, categories);
      PullsDistinct(r) && forall e :: e in r ==> e.PullEntry?
  {
    if pulls != [] {
      AddAllDistinct(entries, pulls[..|pulls| - 1], categories);
      var before := AddAll(entries, pulls[..|pulls| - 1], categories);
      var e := EntryOf(pulls[|pulls| - 1], categories);
      if !HasPull(before, e.number) { DistinctAppend(before, e); }
    }
  }

  lemma {:induction false} BroughtDistinct(commits: seq<Commit>, brings: Commit -> seq<Pull>, categories: Categories)
    ensures var r := AllBrought(commits, brings, categories);
      PullsDistinct(r) && forall e :: e in r ==> e.PullEntry?
  {
    if commits != [] {
      var n := |commits| - 1;
      BroughtDistinct(commits[..n], brings, categories);
      AddAllDistinct(AllBrought(commits[..n], brings, categories), brings(commits[n]), categories);
    }
  }

  ghost predicate Numbered(pulls: seq<Pull>, number: nat) {
    exists p :: p in pulls && p.number == number
  }

  /** Some commit brings a line for this number. */
  ghost predicate SomeBrings(commits: seq<Commit>, brings: Commit -> seq<Pull>, number: nat) {
    exists i :: 0 <= i < |commits| && Numbered(brings(commits[i]), number)
  }

  lemma {:induction false} BroughtHave(commits: seq<Commit>, brings: Commit -> seq<Pull>, categories: Categories,
    number: nat)
    ensures HasPull(AllBrought(commits, brings, categories), number) <==> SomeBrings(commits, brings, number)
  {
    if commits != [] {
      var n := |commits| - 1;
      BroughtHave(commits[..n], brings, categories, number);
      AddAllHas(AllBrought(commits[..n], brings, categories), brings(commits[n]), categories, number);
    }
  }

  /** The fallback lines are those some commit brings, no others. */
  lemma FallbacksHave(commits: seq<Commit>, generated: seq<Entry>, categories: Categories, number: nat)
    ensures HasPull(Fallbacks(commits, generated, categories), number) <==>
      SomeBrings(commits, Brings(generated), number)
  {
    BroughtHave(commits, Brings(generated), categories, number);
  }

  lemma {:induction false} FlatMapMembers(commits: seq<Commit>, f: Commit -> seq<Entry>, e: Entry)
    ensures e in FlatMap(commits, f) <==> exists i :: 0 <= i < |commits| && e in f(commits[i])
  {
    if commits != [] { FlatMapMembers(commits[..|commits| - 1], f, e); }
  }

  /** The direct entries are the commits that stand for themselves. */
  lemma DirectsMembers(commits: seq<Commit>, generated: seq<Entry>, categories: Categories, e: Entry)
    ensures e in Directs(commits, generated, categories)
      <==> exists i :: 0 <= i < |commits| && e in DirectOf(commits[i], generated, categories)
  {
    var f := StandsAlone(generated, categories);
    FlatMapMembers(commits, f, e);
    assert forall i :: 0 <= i < |commits| ==> f(commits[i]) == DirectOf(commits[i], generated, categories);
  }

  /** The last commit with this id. */
  ghost predicate LastWith(commits: seq<Commit>, sha: string, k: int) {
    0 <= k < |commits| && commits[k].sha == sha && forall l :: k < l < |commits| ==> commits[l].sha != sha
  }

  /** What a commit id maps to is what covers the last commit that has it. */
  lemma {:induction false} KeyedLast(commits: seq<Commit>, f: Commit -> Coverage, i: int) returns (k: int)
    requires 0 <= i < |commits|
    ensures LastWith(commits, commits[i].sha, k)
    ensures commits[i].sha in Keyed(commits, f) && Keyed(commits, f)[commits[i].sha] == f(commits[k])
  {
    var n := |commits| - 1;
    if commits[i].sha == commits[n].sha {
      k := n;
    } else {
      k := KeyedLast(commits[..n], f, i);
    }
  }

  // ---------- every commit is represented

  /** A releasable commit's cover can be read off the entries. */
  ghost predicate Represented(c: Commit, generated: seq<Entry>, entries: seq<Entry>) {
    match Decide(c, generated)
    case ByPulls(ids) => ids != [] && forall n :: n in ids ==> HasPull(entries, n)
    case Direct(sha) => sha == c.sha && exists e :: e in entries && e.CommitEntry? && e.sha == sha
    case Ignored(ids) => ids != []
  }

  lemma PullsRepresented(commits: seq<Commit>, i: int, generated: seq<Entry>, categories: Categories, n: nat)
    requires 0 <= i < |commits| && Decide(commits[i], generated).ByPulls? && n in Decide(commits[i], generated).ids
    ensures HasPull(Entries(commits, generated, categories), n)
  {
    var fallback := Fallbacks(commits, generated, categories);
    if !HasPull(generated, n) {
      UnlistedCovers(commits[i], generated, n);
      assert Numbered(Brings(generated)(commits[i]), n);
      FallbacksHave(commits, generated, categories, n);
    }
    HasPullAppend(generated, fallback, n);
    HasPullAppend(generated + fallback, Directs(commits, generated, categories), n);
  }

  /** A covering number that the notes lack is one the commit brings. */
  lemma UnlistedCovers(c: Commit, generated: seq<Entry>, n: nat)
    requires Decide(c, generated).ByPulls? && n in Decide(c, generated).ids && !HasPull(generated, n)
    ensures Numbered(Unlisted(c, generated), n)
  {
    CoveringPulls(c, generated);
    var pulls := Unlisted(c, generated);
    var i :| 0 <= i < |pulls| && Numbers(pulls)[i] == n;
    assert pulls[i] in pulls;
  }

  /** What a commit brings covers it, and is not in the notes. */
  lemma BroughtIsNew(commits: seq<Commit>, generated: seq<Entry>, number: nat) returns (c: Commit)
    requires SomeBrings(commits, Brings(generated), number)
    ensures !HasPull(generated, number) && c in commits && Decide(c, generated).ByPulls?
  {
    var i :| 0 <= i < |commits| && Numbered(Brings(generated)(commits[i]), number);
    c := commits[i];
    var p :| p in Unlisted(c, generated) && p.number == number;
    UnlistedIsNew(c, generated, p);
  }

  lemma UnlistedIsNew(c: Commit, generated: seq<Entry>, p: Pull)
    requires p in Unlisted(c, generated)
    ensures !HasPull(generated, p.number) && Decide(c, generated).ByPulls?
  {
    assert p !in Listed(Visible(Merged(c.pulls)), generated);
  }

  lemma DirectRepresented(commits: seq<Commit>, i: int, generated: seq<Entry>, categories: Categories)
    requires 0 <= i < |commits| && Decide(commits[i], generated).Direct?
    ensures var c := commits[i];
      CommitEntry(categories.ofTitle(c.subject), c.sha, c.subject) in Entries(commits, generated, categories)
  {
    var e := CommitEntry(categories.ofTitle(commits[i].subject), commits[i].sha, commits[i].subject);
    assert e in DirectOf(commits[i], generated, categories);
    DirectsMembers(commits, generated, categories, e);
  }

  lemma CommitRepresented(commits: seq<Commit>, i: int, generated: seq<Entry>, categories: Categories)
    requires 0 <= i < |commits|
    ensures Represented(commits[i], generated, Entries(commits, generated, categories))
  {
    var entries := Entries(commits, generated, categories);
    match Decide(commits[i], generated)
    case ByPulls(ids) =>
      CoveringPulls(commits[i], generated);
      forall n | n in ids ensures HasPull(entries, n) { PullsRepresented(commits, i, generated, categories, n); }
    case Direct(sha) =>
      DirectRepresented(commits, i, generated, categories);
    case Ignored(_) =>
  }

  /** No pull request number is rendered twice. */
  lemma EntriesDistinct(commits: seq<Commit>, generated: seq<Entry>, categories: Categories)
    requires PullsDistinct(generated)
    ensures PullsDistinct(Entries(commits, generated, categories))
  {
    var fallback, direct := Fallbacks(commits, generated, categories), Directs(commits, generated, categories);
    var entries := Entries(commits, generated, categories);
    BroughtDistinct(commits, Brings(generated), categories);
    forall k | |generated| + |fallback| <= k < |entries| ensures entries[k].CommitEntry? {
      assert entries[k] in direct;
      DirectsMembers(commits, generated, categories, entries[k]);
    }
    forall i, j | 0 <= i < j < |entries| && entries[i].PullEntry? && entries[j].PullEntry?
      ensures entries[i].number != entries[j].number
    {
      if i < |generated| <= j {
        var number := entries[j].number;
        assert fallback[j - |generated|] == entries[j];
        FallbacksHave(commits, generated, categories, number);
        var _ := BroughtIsNew(commits, generated, number);
      } else if |generated| <= i {
        assert fallback[i - |generated|] == entries[i] && fallback[j - |generated|] == entries[j];
      }
    }
  }

  /** There is no entry at all exactly when the notes are empty and every commit is ignored. */
  lemma NoEntriesIff(commits: seq<Commit>, generated: seq<Entry>, categories: Categories)
    ensures Entries(commits, generated, categories) == []
      <==> generated == [] && forall c :: c in commits ==> Decide(c, generated).Ignored?
  {
    var entries := Entries(commits, generated, categories);
    var fallback, direct := Fallbacks(commits, generated, categories), Directs(commits, generated, categories);
    forall c | c in commits && !Decide(c, generated).Ignored? ensures entries != [] {
      var i :| 0 <= i < |commits| && commits[i] == c;
      CommitRepresented(commits, i, generated, categories);
      if Decide(c, generated).ByPulls? { assert HasPull(entries, Decide(c, generated).ids[0]); }
    }
    if fallback != [] {
      BroughtDistinct(commits, Brings(generated), categories);
      assert fallback[0] in fallback;
      assert HasPull(fallback, fallback[0].number);
      FallbacksHave(commits, generated, categories, fallback[0].number);
      var c := BroughtIsNew(commits, generated, fallback[0].number);
    } else if direct != [] {
      DirectsMembers(commits, generated, categories, direct[0]);
    }
  }

  // ---------- the validator

  function CommitError(c: Commit, coverage: map<string, Coverage>, body: string): Option<ReleaseError> {
    if c.sha !in coverage then Some(NotRepresented(c.sha))
    else match coverage[c.sha]
      case Direct(_) => if Includes(body, Short(c.sha)) then None else Some(CommitMissing(c.sha))
      case ByPulls(ids) =>
        if exists i :: 0 <= i < |ids| && HasRenderedPull(body, ids[i]) then None else Some(PullsMissing(c.sha, ids))
      case Ignored(_) => None
  }

  /** The errors of the commits that have one, in their order. */
  function ErrorsOf(commits: seq<Commit>, check: Commit -> Option<ReleaseError>): (r: seq<ReleaseError>)
    ensures forall e :: e in r <==> exists c :: c in commits && check(c) == Some(e)
  {
    if commits == [] then []
    else
      var n := |commits| - 1;
      assert commits == commits[..n] + [commits[n]];
      ErrorsOf(commits[..n], check) + if check(commits[n]).Some? then [check(commits[n]).value] else []
  }

  lemma OneMoreError(commits: seq<Commit>, c: Commit, check: Commit -> Option<ReleaseError>)
    ensures ErrorsOf(commits + [c], check) ==
      ErrorsOf(commits, check) + if check(c).Some? then [check(c).value] else []
  {
    assert (commits + [c])[..|commits|] == commits;
  }

  function Check(coverage: map<string, Coverage>, body: string): Commit -> Option<ReleaseError> {
    c => CommitError(c, coverage, body)
  }

  /** The loop over the commits, whatever is asked of each. */
  method CollectErrors(commits: seq<Commit>, check: Commit -> Option<ReleaseError>) returns (errors: seq<ReleaseError>)
    ensures errors == ErrorsOf(commits, check)
  {
    errors := [];
    var i := 0;
    while i < |commits|
      invariant 0 <= i <= |commits| && errors == ErrorsOf(commits[..i], check)
    {
      OneMoreError(commits[..i], commits[i], check);
      assert commits[..i + 1] == commits[..i] + [commits[i]];
      var e := check(commits[i]);
      if e.Some? { errors := errors + [e.value]; }
      i := i + 1;
    }
    assert commits[..i] == commits;
  }

  method Validate(commits: seq<Commit>, coverage: map<string, Coverage>, body: string, visibleEntryCount: nat)
    returns (errors: seq<ReleaseError>)
    ensures errors == ErrorsOf(commits, Check(coverage, body))
      + if commits != [] && visibleEntryCount == 0 then [EmptyChangelog(|commits|)] else []
  {
    errors := CollectErrors(commits, Check(coverage, body));
    if |commits| > 0 && visibleEntryCount == 0 { errors := errors + [EmptyChangelog(|commits|)]; }
  }

  lemma NoErrors(commits: seq<Commit>, check: Commit -> Option<ReleaseError>)
    requires forall c :: c in commits ==> check(c).None?
    ensures ErrorsOf(commits, check) == []
  {
    assert ErrorsOf(commits, check) != [] ==> ErrorsOf(commits, check)[0] in ErrorsOf(commits, check);
  }

  /** What the validator looks up is in the rendered body. */
  lemma CommitPasses(commits: seq<Commit>, i: int, generated: seq<Entry>, categories: Categories, texts: Texts)
    requires 0 <= i < |commits|
    ensures CommitError(commits[i], Covers(commits, generated),
      Body(Entries(commits, generated, categories), texts)) == None
  {
    var entries := Entries(commits, generated, categories);
    var k := KeyedLast(commits, CoveredBy(generated), i);
    CommitRepresented(commits, k, generated, categories);
    match Decide(commits[k], generated)
    case ByPulls(ids) => PullRendered(entries, texts, ids[0]);
    case Direct(sha) =>
      var e :| e in entries && e.CommitEntry? && e.sha == sha;
      CommitRendered(entries, texts, e);
    case Ignored(_) =>
  }

  datatype ReleaseNotes = ReleaseNotes(body: string, entries: seq<Entry>, releasableCommitCount: nat,
    errors: seq<ReleaseError>)

  lemma AllRepresented(commits: seq<Commit>, generated: seq<Entry>, categories: Categories, texts: Texts)
    ensures forall c :: c in commits ==> Represented(c, generated, Entries(commits, generated, categories))
    ensures forall c :: c in commits ==>
      CommitError(c, Covers(commits, generated), Body(Entries(commits, generated, categories), texts)).None?
  {
    forall c | c in commits
      ensures Represented(c, generated, Entries(commits, generated, categories))
      ensures CommitError(c, Covers(commits, generated), Body(Entries(commits, generated, categories), texts)).None?
    {
      var i :| 0 <= i < |commits| && commits[i] == c;
      CommitRepresented(commits, i, generated, categories);
      CommitPasses(commits, i, generated, categories, texts);
    }
  }

  lemma NothingFails(commits: seq<Commit>, generated: seq<Entry>, categories: Categories, texts: Texts)
    ensures
      var body := Body(Entries(commits, generated, categories), texts);
      ErrorsOf(commits, Check(Covers(commits, generated), body)) == []
  {
    var body := Body(Entries(commits, generated, categories), texts);
    var check := Check(Covers(commits, generated), body);
    AllRepresented(commits, generated, categories, texts);
    forall c | c in commits ensures check(c).None? {
      assert check(c) == CommitError(c, Covers(commits, generated), body);
    }
    NoErrors(commits, check);
  }

  /** The generated notes' entries, all entries, and what covers each commit. */
  method Collect(releasable: seq<Commit>, sections: seq<Section>, categories: Categories)
    returns (listed: seq<Entry>, entries: seq<Entry>, coverage: map<string, Coverage>)
    ensures AllMentioned(sections, listed)
    ensures entries == Entries(releasable, listed, categories) && coverage == Covers(releasable, listed)
  {
    listed := GeneratedPullChanges(sections);
    var fallback, direct;
    fallback, direct, coverage := CoverCommits(releasable, listed, categories);
    entries := listed + fallback + direct;
  }

  /** Every number mentioned has one entry, made of its first mention. */
  ghost predicate AllMentioned(sections: seq<Section>, listed: seq<Entry>) {
    && PullsDistinct(listed) && (forall e :: e in listed ==> exists i, j :: FirstMention(sections, i, j, e))
    && forall i, j :: InSections(sections, i, j) ==> HasPull(listed, sections[i].pulls[j].number)
  }

  /**
   * Every releasable commit is represented, no pull request is rendered twice, and the only error there can
   * be is the empty changelog, which arises exactly when there are releasable commits, the generated notes
   * list nothing and every commit has only skipped pull requests.
   */
  method BuildReleaseNotes(commits: seq<Commit>, sections: seq<Section>, categories: Categories, texts: Texts)
    returns (notes: ReleaseNotes, ghost generated: seq<Entry>)
    ensures AllMentioned(sections, generated) && generated <= notes.entries
    ensures notes.entries == Entries(Releasable(commits), generated, categories)
    ensures notes.body == Body(notes.entries, texts) && PullsDistinct(notes.entries)
    ensures forall c :: c in Releasable(commits) ==> Represented(c, generated, notes.entries)
    ensures notes.entries == [] <==>
      generated == [] && forall c :: c in Releasable(commits) ==> Decide(c, generated).Ignored?
    ensures notes.releasableCommitCount == |Releasable(commits)|
    ensures notes.errors ==
      if Releasable(commits) != [] && notes.entries == [] then [EmptyChangelog(|Releasable(commits)|)] else []
  {
    var releasable := Releasable(commits);
    var listed, entries, coverage := Collect(releasable, sections, categories);
    generated := listed;
    var body := Body(entries, texts);
    EntriesDistinct(releasable, listed, categories);
    NoEntriesIff(releasable, listed, categories);
    AllRepresented(releasable, listed, categories, texts);
    NothingFails(releasable, listed, categories, texts);
    var errors := Validate(releasable, coverage, body, |entries|);
    notes := ReleaseNotes(body, entries, |releasable|, errors);
  }
}
