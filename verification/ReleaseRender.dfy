/** scripts/build-release-changelog.ts: the rendered body, as far as the validator looks at it. */
module ReleaseRender {
  import opened Sorting
  import opened TextLines
  import opened VersionOrder
  import opened VersionLine
  import opened MarkerSearch
  import opened ReleaseCommits

  /**
   * The parts of the text that this model leaves open: everything in front of the changelog's first line,
   * its introductory lines, what follows `#number ` or `[sha](` on a line, and the footer.
   */
  datatype Texts = Texts(head: seq<Entry> -> string, intro: seq<string>,
                         pullText: Entry -> string, commitText: Entry -> string, footer: string)

  function StripTrailingLineFeeds(s: string): (r: string)
    ensures r <= s && forall i :: |r| <= i < |s| ==> s[i] == '\n'
    ensures r != "" ==> r[|r| - 1] != '\n'
  {
    if s != "" && s[|s| - 1] == '\n' then StripTrailingLineFeeds(s[..|s| - 1]) else s
  }

  function PullsOf(entries: seq<Entry>): (r: seq<Entry>)
    ensures forall e :: e in r <==> e in entries && e.PullEntry?
  {
    if entries == [] then [] else (if entries[0].PullEntry? then [entries[0]] else []) + PullsOf(entries[1..])
  }

  function CommitsOf(entries: seq<Entry>): (r: seq<Entry>)
    ensures forall e :: e in r <==> e in entries && e.CommitEntry?
  {
    if entries == [] then [] else (if entries[0].CommitEntry? then [entries[0]] else []) + CommitsOf(entries[1..])
  }

  /** `a.number - b.number` is not positive; only pull entries are sorted by it. */
  predicate NumberLeq(a: Entry, b: Entry) {
    a.CommitEntry? || (b.PullEntry? && a.number <= b.number)
  }

  function Short(sha: string): string {
    if |sha| <= 8 then sha else sha[..8]
  }

  function PullMark(number: nat): string {
    "#" + NatToString(number)
  }

  function PullLine(e: Entry, texts: Texts): string
    requires e.PullEntry?
  {
    "- " + (PullMark(e.number) + " ") + texts.pullText(e)
  }

  function CommitLine(e: Entry, texts: Texts): string
    requires e.CommitEntry?
  {
    "- [" + Short(e.sha) + ("](" + texts.commitText(e))
  }

  function PullLines(entries: seq<Entry>, texts: Texts): (r: seq<string>)
    requires forall e :: e in entries ==> e.PullEntry?
    ensures |r| == |entries| && forall i :: 0 <= i < |r| ==> r[i] == PullLine(entries[i], texts)
  {
    if entries == [] then [] else [PullLine(entries[0], texts)] + PullLines(entries[1..], texts)
  }

  function CommitLines(entries: seq<Entry>, texts: Texts): (r: seq<string>)
    requires forall e :: e in entries ==> e.CommitEntry?
    ensures |r| == |entries| && forall i :: 0 <= i < |r| ==> r[i] == CommitLine(entries[i], texts)
  {
    if entries == [] then [] else [CommitLine(entries[0], texts)] + CommitLines(entries[1..], texts)
  }

  function ChangelogLines(entries: seq<Entry>, texts: Texts): seq<string> {
    var pulls := SortBy(NumberLeq, PullsOf(entries));
    SortByMembers(NumberLeq, PullsOf(entries));
    texts.intro + PullLines(pulls, texts) + CommitLines(CommitsOf(entries), texts)
  }

  function Body(entries: seq<Entry>, texts: Texts): string {
    StripTrailingLineFeeds(
      texts.head(entries)
      + StripTrailingLineFeeds(JoinLines(ChangelogLines(entries, texts)))
      + ("\n\n" + texts.footer)) + "\n"
  }

  // ---------- a landing reference read back

  lemma {:induction false} DigitsAtEndOf(front: string, digits: string)
    requires front != "" && !('0' <= front[|front| - 1] <= '9')
    requires forall i :: 0 <= i < |digits| ==> '0' <= digits[i] <= '9'
    ensures DigitsAtEnd(front + digits) == |digits|
    decreases |digits|
  {
    if digits == "" {
      assert front + digits == front;
    } else {
      var n := |digits| - 1;
      assert (front + digits)[..|front + digits| - 1] == front + digits[..n];
      DigitsAtEndOf(front, digits[..n]);
    }
  }

  lemma {:induction false} TrimStartConcat(x: string, y: string)
    requires y != "" && !IsSpace(y[0])
    ensures TrimStart(x + y) == TrimStart(x) + y
  {
    if x == "" {
      assert x + y == y;
    } else if IsSpace(x[0]) {
      assert (x + y)[1..] == x[1..] + y;
      TrimStartConcat(x[1..], y);
    }
  }

  /** A text that ends in such a reference, whatever is in front. */
  lemma ReferenceRead(front: string, digits: string, number: nat)
    requires number > 0 && IsDigits(digits) && DigitsValue(digits) == number
    requires var s := front + ("(#" + digits + ")"); Trim(s) == s
    ensures TrailingLandingPull(front + ("(#" + digits + ")")) == Some(number)
  {
    SubjectParts(front, digits);
    DigitsAtEndOf(front + "(#", digits);
  }

  /** A squash subject names its pull request: `title (#n)` is read back as `n`, for every title. */
  lemma LandingReadBack(title: string, number: nat)
    requires number > 0
    ensures TrailingLandingPull(title + " (#" + NatToString(number) + ")") == Some(number)
  {
    var digits := NatToString(number);
    var reference := "(#" + digits + ")";
    assert title + " (#" + digits + ")" == (title + " ") + reference;
    TrimStartConcat(title + " ", reference);
    EndsClosed(TrimStart(title + " "), digits);
    TrimmedOnce((title + " ") + reference, TrimStart(title + " ") + reference);
    ReferenceRead(TrimStart(title + " "), digits, number);
  }

  lemma EndsClosed(front: string, digits: string)
    ensures
      var s := front + ("(#" + digits + ")");
      s != "" && s[|s| - 1] == ')' && TrimEnd(s) == s
  {
  }

  lemma {:induction false} TrimStartTwice(s: string)
    ensures TrimStart(TrimStart(s)) == TrimStart(s)
  {
    if s != "" && IsSpace(s[0]) { TrimStartTwice(s[1..]); }
  }

  /** The landing reference is looked for in the trimmed subject. */
  lemma TrimmedOnce(subject: string, trimmed: string)
    requires TrimStart(subject) == trimmed && TrimEnd(trimmed) == trimmed
    ensures Trim(trimmed) == trimmed && TrailingLandingPull(subject) == TrailingLandingPull(trimmed)
  {
    TrimStartTwice(subject);
  }

  lemma SubjectParts(front: string, digits: string)
    ensures
      var rest := front + "(#" + digits;
      var subject := front + ("(#" + digits + ")");
      var n := |rest| - |digits|;
      && subject != "" && subject[|subject| - 1] == ')' && subject[..|subject| - 1] == rest
      && n >= 2 && rest[n - 2..n] == "(#" && rest[n..] == digits
      && (front + "(#") != "" && (front + "(#")[|front + "(#"| - 1] == '#'
  {
  }

  /** `#number` that no further digit follows occurs in the body. */
  predicate HasRenderedPull(body: string, number: nat)
    decreases |body|
  {
    var mark := PullMark(number);
    || (mark <= body && (|body| == |mark| || !('0' <= body[|mark|] <= '9')))
    || (body != "" && HasRenderedPull(body[1..], number))
  }

  lemma {:induction false} MarkIsRendered(body: string, number: nat)
    requires Contains(body, PullMark(number) + " ")
    ensures HasRenderedPull(body, number)
    decreases |body|
  {
    var mark := PullMark(number) + " ";
    var i :| OccursAt(body, mark, i);
    if i == 0 {
      assert body[..|mark|] == mark;
      assert body[|PullMark(number)|] == ' ';
    } else {
      assert body[1..][i - 1..i - 1 + |mark|] == body[i..i + |mark|];
      assert OccursAt(body[1..], mark, i - 1);
      MarkIsRendered(body[1..], number);
    }
  }

  /** Stripping line feeds at the end keeps every occurrence that does not end in one. */
  lemma StripKeeps(s: string, marker: string)
    requires Contains(s, marker) && marker != "" && marker[|marker| - 1] != '\n'
    ensures Contains(StripTrailingLineFeeds(s), marker)
  {
    var i :| OccursAt(s, marker, i);
    var r := StripTrailingLineFeeds(s);
    var last := i + |marker| - 1;
    assert s[i..i + |marker|][|marker| - 1] == s[last];
    assert last < |r|;
    assert r[i..i + |marker|] == s[i..i + |marker|];
    assert OccursAt(r, marker, i);
  }

  lemma {:induction false} LineInJoin(lines: seq<string>, k: nat, marker: string)
    requires k < |lines| && Contains(lines[k], marker)
    ensures Contains(JoinLines(lines), marker)
  {
    if |lines| > 1 {
      if k == 0 {
        ContainsInContext("", lines[0], "\n" + JoinLines(lines[1..]), marker);
        assert "" + lines[0] + ("\n" + JoinLines(lines[1..])) == JoinLines(lines);
      } else {
        LineInJoin(lines[1..], k - 1, marker);
        ContainsInContext(lines[0] + "\n", JoinLines(lines[1..]), "", marker);
        assert lines[0] + "\n" + JoinLines(lines[1..]) + "" == JoinLines(lines);
      }
    }
  }

  lemma ContainsSelf(marker: string)
    ensures Contains(marker, marker)
  {
    assert OccursAt(marker, marker, 0);
  }

  /** A mark on some changelog line, ending in no line feed, reaches the body. */
  lemma LineMarkInBody(entries: seq<Entry>, texts: Texts, k: nat, marker: string)
    requires k < |ChangelogLines(entries, texts)| && Contains(ChangelogLines(entries, texts)[k], marker)
    requires marker != "" && marker[|marker| - 1] != '\n'
    ensures Contains(Body(entries, texts), marker)
  {
    var lines := ChangelogLines(entries, texts);
    LineInJoin(lines, k, marker);
    StripKeeps(JoinLines(lines), marker);
    var changelog := StripTrailingLineFeeds(JoinLines(lines));
    ContainsInContext(texts.head(entries), changelog, "\n\n" + texts.footer, marker);
    var whole := texts.head(entries) + changelog + ("\n\n" + texts.footer);
    StripKeeps(whole, marker);
    ContainsInContext("", StripTrailingLineFeeds(whole), "\n", marker);
    assert "" + StripTrailingLineFeeds(whole) + "\n" == Body(entries, texts);
  }

  lemma PullLineAt(entries: seq<Entry>, texts: Texts, e: Entry) returns (k: nat)
    requires e in entries && e.PullEntry?
    ensures k < |ChangelogLines(entries, texts)| && ChangelogLines(entries, texts)[k] == PullLine(e, texts)
  {
    SortByMembers(NumberLeq, PullsOf(entries));
    var pulls := SortBy(NumberLeq, PullsOf(entries));
    var j :| 0 <= j < |pulls| && pulls[j] == e;
    k := |texts.intro| + j;
    PullLineIn(pulls, CommitsOf(entries), texts, j);
  }

  lemma PullLineIn(pulls: seq<Entry>, commits: seq<Entry>, texts: Texts, j: nat)
    requires (forall p :: p in pulls ==> p.PullEntry?) && (forall c :: c in commits ==> c.CommitEntry?) && j < |pulls|
    ensures
      var lines := texts.intro + PullLines(pulls, texts) + CommitLines(commits, texts);
      |texts.intro| + j < |lines| && lines[|texts.intro| + j] == PullLine(pulls[j], texts)
  {
    ThirdsAt(texts.intro, PullLines(pulls, texts), CommitLines(commits, texts), j);
  }

  lemma ThirdsAt(a: seq<string>, b: seq<string>, c: seq<string>, j: nat)
    ensures j < |b| ==> (a + b + c)[|a| + j] == b[j]
    ensures j < |c| ==> (a + b + c)[|a| + |b| + j] == c[j]
  {
  }

  lemma CommitLineAt(entries: seq<Entry>, texts: Texts, e: Entry) returns (k: nat)
    requires e in entries && e.CommitEntry?
    ensures k < |ChangelogLines(entries, texts)| && ChangelogLines(entries, texts)[k] == CommitLine(e, texts)
  {
    SortByMembers(NumberLeq, PullsOf(entries));
    var commits := CommitsOf(entries);
    var j :| 0 <= j < |commits| && commits[j] == e;
    var pulls := SortBy(NumberLeq, PullsOf(entries));
    k := |texts.intro| + |pulls| + j;
    CommitLineIn(pulls, commits, texts, j);
  }

  lemma CommitLineIn(pulls: seq<Entry>, commits: seq<Entry>, texts: Texts, j: nat)
    requires (forall p :: p in pulls ==> p.PullEntry?) && (forall c :: c in commits ==> c.CommitEntry?) && j < |commits|
    ensures
      var lines := texts.intro + PullLines(pulls, texts) + CommitLines(commits, texts);
      |texts.intro| + |pulls| + j < |lines| && lines[|texts.intro| + |pulls| + j] == CommitLine(commits[j], texts)
  {
    ThirdsAt(texts.intro, PullLines(pulls, texts), CommitLines(commits, texts), j);
  }

  lemma PullLineMark(e: Entry, texts: Texts)
    requires e.PullEntry?
    ensures Contains(PullLine(e, texts), PullMark(e.number) + " ")
  {
    ContainsSelf(PullMark(e.number) + " ");
    ContainsInContext("- ", PullMark(e.number) + " ", texts.pullText(e), PullMark(e.number) + " ");
  }

  lemma CommitLineMark(e: Entry, texts: Texts)
    requires e.CommitEntry?
    ensures Contains(CommitLine(e, texts), Short(e.sha) + "](")
  {
    var marker := Short(e.sha) + "](";
    ContainsSelf(marker);
    ContainsInContext("- [", marker, texts.commitText(e), marker);
    assert "- [" + marker + texts.commitText(e) == CommitLine(e, texts);
  }

  lemma ContainsPrefix(text: string, marker: string, more: string)
    requires Contains(text, marker + more)
    ensures Contains(text, marker)
  {
    var i :| OccursAt(text, marker + more, i);
    assert text[i..i + |marker|] == text[i..i + |marker + more|][..|marker|] == marker;
    assert OccursAt(text, marker, i);
  }

  /** Every pull request entry is referenced in the body. */
  lemma PullRendered(entries: seq<Entry>, texts: Texts, number: nat)
    requires HasPull(entries, number)
    ensures HasRenderedPull(Body(entries, texts), number)
  {
    var i :| 0 <= i < |entries| && entries[i].PullEntry? && entries[i].number == number;
    var k := PullLineAt(entries, texts, entries[i]);
    PullLineMark(entries[i], texts);
    LineMarkInBody(entries, texts, k, PullMark(number) + " ");
    MarkIsRendered(Body(entries, texts), number);
  }

  /** Every direct commit's abbreviated id is in the body. */
  lemma CommitRendered(entries: seq<Entry>, texts: Texts, e: Entry)
    requires e in entries && e.CommitEntry?
    ensures Includes(Body(entries, texts), Short(e.sha))
  {
    var k := CommitLineAt(entries, texts, e);
    CommitLineMark(e, texts);
    LineMarkInBody(entries, texts, k, Short(e.sha) + "](");
    ContainsPrefix(Body(entries, texts), Short(e.sha), "](");
    IncludesIffContains(Body(entries, texts), Short(e.sha));
  }
}
