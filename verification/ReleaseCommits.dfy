/** scripts/build-release-changelog.ts: commits, pull requests and what covers a commit. */
module ReleaseCommits {
  import opened TextLines
  import opened VersionOrder
  import VersionWriter

  datatype Pull = Pull(number: nat, title: string, author: string, labels: seq<string>, merged: bool)

  datatype Commit = Commit(sha: string, subject: string, pulls: seq<Pull>)

  /** A line of the notes: a pull request or a direct commit. */
  datatype Entry =
    | PullEntry(category: string, number: nat, title: string, author: string)
    | CommitEntry(category: string, sha: string, title: string)

  datatype Coverage = ByPulls(ids: seq<nat>) | Direct(sha: string) | Ignored(ids: seq<nat>)

  // ---------- reading a commit

  /** `toLowerCase` as far as it can yield an ASCII letter: A to Z, and the Kelvin sign. */
  function Lower(s: string): (r: string)
    ensures |r| == |s|
  {
    seq(|s|, i requires 0 <= i < |s| =>
      if 'A' <= s[i] <= 'Z' then 'a' + (s[i] - 'A') else if s[i] == '\U{212A}' then 'k' else s[i])
  }

  const SKIP_LABEL: string := "skip-changelog"

  predicate HasSkipChangelog(p: Pull) {
    exists i :: 0 <= i < |p.labels| && Lower(p.labels[i]) == SKIP_LABEL
  }

  /** Length of the digit run at the end of a text. */
  function DigitsAtEnd(s: string): (n: nat)
    ensures n <= |s| && forall i :: |s| - n <= i < |s| ==> '0' <= s[i] <= '9'
  {
    if s != "" && '0' <= s[|s| - 1] <= '9' then DigitsAtEnd(s[..|s| - 1]) + 1 else 0
  }

  /** The number in a `(#123)` that ends a subject, when there is a positive one. */
  function TrailingLandingPull(subject: string): Option<nat> {
    var s := Trim(subject);
    if s == "" || s[|s| - 1] != ')' then None
    else
      var rest := s[..|s| - 1];
      var n := DigitsAtEnd(rest);
      if n == 0 || |rest| < n + 2 || rest[|rest| - n - 2..|rest| - n] != "(#" then None
      else
        var value := DigitsValue(rest[|rest| - n..]);
        if value > 0 then Some(value) else None
  }

  /** ASCII-only case folding, as a pattern's `i` flag does it. */
  function Fold(s: string): (r: string)
    ensures |r| == |s|
  {
    seq(|s|, i requires 0 <= i < |s| => if 'A' <= s[i] <= 'Z' then 'a' + (s[i] - 'A') else s[i])
  }

  /** `release: v1.2.3` or `chore(release): 1.2.3-x`, in any case. */
  predicate IsReleaseMetadata(subject: string) {
    var s := Trim(subject);
    || ("release:" <= Fold(s) && IsVersionAfterSpaces(s[|"release:"|..]))
    || ("chore(release):" <= Fold(s) && IsVersionAfterSpaces(s[|"chore(release):"|..]))
  }

  predicate IsVersionAfterSpaces(s: string) {
    var t := TrimStart(s);
    VersionWriter.VersionShape(if t != "" && t[0] in {'v', 'V'} then t[1..] else t)
  }

  function Where<T(!new)>(items: seq<T>, keep: T -> bool): (r: seq<T>)
    ensures forall x :: x in r <==> x in items && keep(x)
  {
    if items == [] then []
    else
      assert items == [items[0]] + items[1..];
      (if keep(items[0]) then [items[0]] else []) + Where(items[1..], keep)
  }

  lemma {:induction false} WhereConcat<T(!new)>(a: seq<T>, b: seq<T>, keep: T -> bool)
    ensures Where(a + b, keep) == Where(a, keep) + Where(b, keep)
  {
    if a == [] {
      assert a + b == b;
    } else {
      assert (a + b)[1..] == a[1..] + b;
      WhereConcat(a[1..], b, keep);
    }
  }

  lemma {:induction false} WhereCounts<T(!new)>(items: seq<T>, keep: T -> bool, x: T)
    ensures multiset(Where(items, keep))[x] == if keep(x) then multiset(items)[x] else 0
  {
    if items != [] {
      WhereCounts(items[1..], keep, x);
      assert items == [items[0]] + items[1..];
    }
  }

  function IsReleasable(): Commit -> bool {
    (c: Commit) => !IsReleaseMetadata(c.subject)
  }

  /** The commits other than release commits, in order. */
  function Releasable(commits: seq<Commit>): (r: seq<Commit>)
    ensures forall c :: c in r <==> c in commits && !IsReleaseMetadata(c.subject)
  {
    Where(commits, IsReleasable())
  }

  /** Dropping the release commits keeps the others in order, each as often as it occurs. */
  lemma ReleasableInOrder(a: seq<Commit>, b: seq<Commit>, c: Commit)
    ensures Releasable(a + b) == Releasable(a) + Releasable(b)
    ensures multiset(Releasable(a))[c] == if IsReleaseMetadata(c.subject) then 0 else multiset(a)[c]
  {
    WhereConcat(a, b, IsReleasable());
    WhereCounts(a, IsReleasable(), c);
  }

  function Merged(pulls: seq<Pull>): (r: seq<Pull>)
    ensures forall p :: p in r <==> p in pulls && p.merged
  {
    Where(pulls, (p: Pull) => p.merged)
  }

  function Visible(pulls: seq<Pull>): (r: seq<Pull>)
    ensures forall p :: p in r <==> p in pulls && !HasSkipChangelog(p)
  {
    Where(pulls, (p: Pull) => !HasSkipChangelog(p))
  }

  /** The pulls that already are in the generated notes. */
  function Listed(pulls: seq<Pull>, generated: seq<Entry>): (r: seq<Pull>)
    ensures forall p :: p in r <==> p in pulls && HasPull(generated, p.number)
  {
    Where(pulls, (p: Pull) => HasPull(generated, p.number))
  }

  function Numbers(pulls: seq<Pull>): (r: seq<nat>)
    ensures |r| == |pulls| && forall i :: 0 <= i < |r| ==> r[i] == pulls[i].number
  {
    seq(|pulls|, i requires 0 <= i < |pulls| => pulls[i].number)
  }

  /** `generated.has(number)`, for the ordered map of pull entries. */
  predicate HasPull(entries: seq<Entry>, number: nat) {
    exists i :: 0 <= i < |entries| && entries[i].PullEntry? && entries[i].number == number
  }

  /** A pull request number appears at most once. */
  ghost predicate PullsDistinct(entries: seq<Entry>) {
    forall i, j :: 0 <= i < j < |entries| && entries[i].PullEntry? && entries[j].PullEntry? ==>
      entries[i].number != entries[j].number
  }

  // ---------- what covers a commit

  function Decide(c: Commit, generated: seq<Entry>): Coverage {
    var landing := TrailingLandingPull(c.subject);
    var merged := Merged(c.pulls);
    var visible := Visible(merged);
    var listed := Listed(visible, generated);
    if landing.Some? && HasPull(generated, landing.value) then ByPulls([landing.value])
    else if listed != [] then ByPulls(Numbers(listed))
    else if visible != [] then ByPulls(Numbers(visible))
    else if merged != [] && forall i :: 0 <= i < |merged| ==> HasSkipChangelog(merged[i]) then Ignored(Numbers(merged))
    else Direct(c.sha)
  }

  ghost predicate LandedInNotes(c: Commit, generated: seq<Entry>) {
    var landing := TrailingLandingPull(c.subject);
    landing.Some? && HasPull(generated, landing.value)
  }

  /**
   * Exactly one of three things covers a commit: a pull request, when its subject lands in the notes or a
   * merged pull is not skipped; nothing needed, when all its merged pulls are skipped and there is one;
   * itself, when it has no merged pull.
   */
  lemma DecideIff(c: Commit, generated: seq<Entry>)
    ensures Decide(c, generated).ByPulls? <==>
      LandedInNotes(c, generated) || exists p :: p in c.pulls && p.merged && !HasSkipChangelog(p)
    ensures Decide(c, generated).Ignored? <==>
      && !LandedInNotes(c, generated) && (exists p :: p in c.pulls && p.merged)
      && forall p :: p in c.pulls && p.merged ==> HasSkipChangelog(p)
    ensures Decide(c, generated).Direct? <==>
      !LandedInNotes(c, generated) && forall p :: p in c.pulls ==> !p.merged
  {
    var merged := Merged(c.pulls);
    var visible := Visible(merged);
    if visible != [] { assert visible[0] in visible; }
    if merged != [] { assert merged[0] in merged; }
    if visible == [] {
      forall i | 0 <= i < |merged| ensures HasSkipChangelog(merged[i]) {
        assert merged[i] in merged && merged[i] !in visible;
      }
    }
    forall p | p in c.pulls && p.merged ensures p in merged && (!HasSkipChangelog(p) ==> p in visible) {}
  }

  /** The pull requests a commit brings a line for: its visible ones, when the notes have none of them. */
  function Unlisted(c: Commit, generated: seq<Entry>): seq<Pull> {
    var landing := TrailingLandingPull(c.subject);
    var visible := Visible(Merged(c.pulls));
    if landing.Some? && HasPull(generated, landing.value) then []
    else if Listed(visible, generated) != [] then []
    else visible
  }

  /** Pulls that cover a commit either are all in the generated notes or all its visible ones, none of them there. */
  lemma CoveringPulls(c: Commit, generated: seq<Entry>)
    requires Decide(c, generated).ByPulls?
    ensures var ids := Decide(c, generated).ids;
      && ids != []
      && ((forall n :: n in ids ==> HasPull(generated, n))
          || (ids == Numbers(Unlisted(c, generated)) && forall n :: n in ids ==> !HasPull(generated, n)))
  {
    var visible := Visible(Merged(c.pulls));
    var listed := Listed(visible, generated);
    if !LandedInNotes(c, generated) {
      if listed == [] {
        forall n | n in Numbers(visible) ensures !HasPull(generated, n) {
          var i :| 0 <= i < |visible| && visible[i].number == n;
          assert visible[i] !in listed;
        }
      } else {
        forall n | n in Numbers(listed) ensures HasPull(generated, n) {
          var i :| 0 <= i < |listed| && listed[i].number == n;
          assert listed[i] in listed;
        }
      }
    }
  }
}
