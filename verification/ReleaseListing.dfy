/** scripts/build-release-changelog.ts: what the changelog lists, in which order, and what the validator looks for. */
module ReleaseListing {
  import opened MarkerSearch
  import opened ReleaseCommits
  import opened ReleaseCoverage
  import opened ReleaseRender
  import opened Sorting
  import opened TextLines
  import opened VersionBumps
  import opened VersionLine
  import opened VersionOrder

  // ---------- what is rendered

  /** The text behind position `i` does not start with a digit. */
  predicate NoDigitAt(body: string, i: int) {
    0 <= i <= |body| && (i < |body| ==> !('0' <= body[i] <= '9'))
  }

  /** `#` and the number in decimal form stand at `i`, and no digit follows. */
  ghost predicate MentionedAt(body: string, number: nat, i: int) {
    exists digits :: Decimal(digits, number) && OccursAt(body, "#" + digits, i) && NoDigitAt(body, i + 1 + |digits|)
  }

  ghost predicate Mentioned(body: string, number: nat) {
    exists i :: MentionedAt(body, number, i)
  }

  /** A number has one decimal form. */
  lemma {:induction false} DecimalUnique(a: string, b: string, n: nat)
    requires Decimal(a, n) && Decimal(b, n)
    ensures a == b
    decreases |a|
  {
    var x, y := a[..|a| - 1], b[..|b| - 1];
    LastApart(a);
    LastApart(b);
    if x == "" || y == "" {
      if x != "" { LeadingNotZero(x); }
      if y != "" { LeadingNotZero(y); }
    } else {
      DecimalUnique(x, y, DigitsValue(x));
    }
    assert a == x + [a[|a| - 1]] && b == y + [b[|b| - 1]];
  }

  lemma LastApart(s: string)
    requires IsDigits(s)
    ensures
      var front, last := s[..|s| - 1], s[|s| - 1] as int - '0' as int;
      DigitsValue(s) == DigitsValue(front) * 10 + last && 0 <= last < 10
  {
  }

  lemma {:induction false} LeadingNotZero(s: string)
    requires IsDigits(s) && s[0] != '0'
    ensures DigitsValue(s) > 0
  {
    if |s| > 1 {
      LeadingNotZero(s[..|s| - 1]);
      LastApart(s);
    }
  }

  lemma MarkOnly(body: string, number: nat, i: int)
    ensures MentionedAt(body, number, i) <==>
      OccursAt(body, PullMark(number), i) && NoDigitAt(body, i + |PullMark(number)|)
  {
    WrittenDecimal(number);
    forall digits | Decimal(digits, number) ensures digits == NatToString(number) {
      DecimalUnique(digits, NatToString(number), number);
    }
  }

  lemma OccursShift(body: string, marker: string, i: int)
    requires body != "" && i >= 0
    ensures OccursAt(body, marker, i + 1) <==> OccursAt(body[1..], marker, i)
  {
    if i + 1 + |marker| <= |body| { assert body[1..][i..i + |marker|] == body[i + 1..i + 1 + |marker|]; }
  }

  lemma MentionShift(body: string, number: nat, i: int)
    requires body != "" && i >= 0
    ensures MentionedAt(body, number, i + 1) <==> MentionedAt(body[1..], number, i)
  {
    MarkOnly(body, number, i + 1);
    MarkOnly(body[1..], number, i);
    OccursShift(body, PullMark(number), i);
  }

  lemma MentionHere(body: string, number: nat)
    ensures MentionedAt(body, number, 0) <==>
      PullMark(number) <= body && (|body| == |PullMark(number)| || !('0' <= body[|PullMark(number)|] <= '9'))
  {
    MarkOnly(body, number, 0);
    if |PullMark(number)| <= |body| { assert body[0..0 + |PullMark(number)|] == body[..|PullMark(number)|]; }
  }

  /** The validator's search finds a number exactly when the body mentions it, and not as part of a longer one. */
  lemma {:induction false} RenderedIff(body: string, number: nat)
    ensures HasRenderedPull(body, number) <==> Mentioned(body, number)
    decreases |body|
  {
    MentionHere(body, number);
    if body != "" {
      RenderedIff(body[1..], number);
      if i :| MentionedAt(body[1..], number, i) { MentionShift(body, number, i); }
      if i :| MentionedAt(body, number, i) {
        if i > 0 { MentionShift(body, number, i - 1); }
      }
    }
  }

  /** What the validator says of a commit, by what covers it: the first eight characters, or any one of the pulls. */
  lemma CommitErrorIff(c: Commit, coverage: map<string, Coverage>, body: string)
    ensures
      var error := CommitError(c, coverage, body);
      if c.sha !in coverage then error == Some(NotRepresented(c.sha))
      else
        match coverage[c.sha]
        case Ignored(_) => error == None
        case Direct(_) =>
          var short := if |c.sha| > 8 then c.sha[..8] else c.sha;
          error == if Contains(body, short) then None else Some(CommitMissing(c.sha))
        case ByPulls(ids) =>
          if exists n :: n in ids && Mentioned(body, n) then error == None else error == Some(PullsMissing(c.sha, ids))
  {
    if c.sha in coverage {
      match coverage[c.sha]
      case Direct(_) => IncludesIffContains(body, Short(c.sha));
      case ByPulls(ids) =>
        forall i | 0 <= i < |ids| ensures HasRenderedPull(body, ids[i]) <==> Mentioned(body, ids[i]) && ids[i] in ids {
          RenderedIff(body, ids[i]);
        }
      case _ =>
    }
  }

  /** The commits among the entries keep their order. */
  lemma {:induction false} CommitsInOrder(a: seq<Entry>, b: seq<Entry>)
    ensures CommitsOf(a + b) == CommitsOf(a) + CommitsOf(b)
  {
    if a == [] {
      assert a + b == b;
    } else {
      var first := if a[0].CommitEntry? then [a[0]] else [];
      assert (a + b)[1..] == a[1..] + b && (a + b)[0] == a[0];
      CommitsInOrder(a[1..], b);
      assert first + (CommitsOf(a[1..]) + CommitsOf(b)) == (first + CommitsOf(a[1..])) + CommitsOf(b);
    }
  }

  lemma {:induction false} PullsCount(entries: seq<Entry>, e: Entry)
    ensures multiset(PullsOf(entries))[e] == if e.PullEntry? then multiset(entries)[e] else 0
  {
    if entries != [] {
      PullsCount(entries[1..], e);
      assert entries == [entries[0]] + entries[1..];
    }
  }

  /** The pull entries, each as often as it occurs, by rising number. */
  ghost predicate ByNumber(pulls: seq<Entry>, entries: seq<Entry>) {
    && multiset(pulls) == multiset(PullsOf(entries)) && (forall p :: p in pulls ==> p.PullEntry?)
    && forall i, j :: 0 <= i < j < |pulls| && pulls[i].PullEntry? && pulls[j].PullEntry? ==>
         pulls[i].number <= pulls[j].number
  }

  lemma SortedByNumber(entries: seq<Entry>)
    ensures ByNumber(SortBy(NumberLeq, PullsOf(entries)), entries)
  {
    SortByMembers(NumberLeq, PullsOf(entries));
    SortBySorted(NumberLeq, PullsOf(entries));
  }

  /** The changelog lists the pulls by rising number, then the commits in their order. */
  lemma ChangelogOrder(entries: seq<Entry>, texts: Texts) returns (pulls: seq<Entry>)
    ensures ByNumber(pulls, entries)
    ensures ChangelogLines(entries, texts) ==
      texts.intro + PullLines(pulls, texts) + CommitLines(CommitsOf(entries), texts)
  {
    pulls := SortBy(NumberLeq, PullsOf(entries));
    SortedByNumber(entries);
  }

  lemma PullLineText(e: Entry, texts: Texts)
    requires e.PullEntry?
    ensures PullLine(e, texts) == "- #" + NatToString(e.number) + " " + texts.pullText(e)
  {
    assert "- " + ("#" + NatToString(e.number) + " ") == "- #" + NatToString(e.number) + " ";
  }

  lemma CommitLineText(e: Entry, texts: Texts)
    requires e.CommitEntry?
    ensures CommitLine(e, texts) == "- [" + (if |e.sha| > 8 then e.sha[..8] else e.sha) + "](" + texts.commitText(e)
  {
    if |e.sha| == 8 { assert e.sha[..8] == e.sha; }
    var head := "- [" + Short(e.sha);
    assert head + ("](" + texts.commitText(e)) == head + "](" + texts.commitText(e);
  }

  // ---------- where the entries come from

  /** The entry that stands for a pull request: its own number, title and author. */
  ghost predicate IsEntryOf(e: Entry, p: Pull, categories: Categories) {
    e.PullEntry? && e.category == categories.ofPull(p) && e.number == p.number && e.title == p.title
    && e.author == p.author
  }

  lemma {:induction false} AddedFrom(entries: seq<Entry>, pulls: seq<Pull>, categories: Categories, e: Entry)
    requires e in AddAll(entries, pulls, categories)
    ensures e in entries || exists p :: p in pulls && IsEntryOf(e, p, categories)
  {
    if pulls != [] {
      var n := |pulls| - 1;
      var before := AddAll(entries, pulls[..n], categories);
      if e in before {
        AddedFrom(entries, pulls[..n], categories, e);
      } else {
        assert IsEntryOf(e, pulls[n], categories);
      }
    }
  }

  lemma {:induction false} BroughtFrom(commits: seq<Commit>, brings: Commit -> seq<Pull>, categories: Categories,
    e: Entry)
    requires e in AllBrought(commits, brings, categories)
    ensures exists i, p :: 0 <= i < |commits| && p in brings(commits[i]) && IsEntryOf(e, p, categories)
  {
    var n := |commits| - 1;
    var before := AllBrought(commits[..n], brings, categories);
    AddedFrom(before, brings(commits[n]), categories, e);
    if e in before { BroughtFrom(commits[..n], brings, categories, e); }
  }

  /**
   * Every fallback line is some commit's merged pull request, not skipped and not in the notes, under its own number,
   * title and author.
   */
  lemma FallbackFrom(commits: seq<Commit>, generated: seq<Entry>, categories: Categories, e: Entry)
    returns (c: Commit, p: Pull)
    requires e in Fallbacks(commits, generated, categories)
    ensures c in commits && p in c.pulls && p.merged && !HasSkipChangelog(p) && !HasPull(generated, p.number)
    ensures IsEntryOf(e, p, categories)
  {
    BroughtFrom(commits, Brings(generated), categories, e);
    var i: int, q: Pull :| 0 <= i < |commits| && q in Brings(generated)(commits[i]) && IsEntryOf(e, q, categories);
    c, p := commits[i], q;
    UnlistedIsNew(c, generated, p);
  }
}
