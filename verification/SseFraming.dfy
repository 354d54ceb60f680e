/**
 * scripts/codebuddy-live-acceptance.ts, the buffer of readResponseStream: CRLF normalisation and
 * frame cutting repeated after every chunk, against normalising and cutting the whole text at once.
 */
module SseFraming {

  /** `text.replace(/\r\n/g, "\n")`: left to right, pairs only. */
  function Normalize(s: string): (r: string)
    ensures |r| <= |s|
  {
    if |s| < 2 then s
    else if s[0] == '\r' && s[1] == '\n' then ['\n'] + Normalize(s[2..])
    else [s[0]] + Normalize(s[1..])
  }

  /** `buffer.indexOf("\n\n")`; -1 when there is none. */
  function BlankAt(s: string): (i: int)
    ensures i == -1 || (0 <= i && i + 1 < |s| && s[i] == '\n' && s[i + 1] == '\n')
  {
    if |s| < 2 then -1
    else if s[0] == '\n' && s[1] == '\n' then 0
    else var i := BlankAt(s[1..]); if i == -1 then -1 else i + 1
  }

  /** What a buffer yields: the frames handed on, and what stays behind. */
  datatype Cuts = Cuts(frames: seq<string>, rest: string) {
    function After(frames': seq<string>): Cuts {
      Cuts(frames' + frames, rest)
    }
  }

  /** The inner loop: cut at the first blank line until there is none. */
  function Cut(s: string): Cuts
    decreases |s|
  {
    var i := BlankAt(s);
    if i == -1 then Cuts([], s) else Cut(s[i + 2..]).After([s[..i]])
  }

  /** The outer loop over decoded chunks, starting from `buffer`. */
  function FeedAll(buffer: string, chunks: seq<string>): Cuts
    decreases |chunks|
  {
    if chunks == [] then Cuts([], buffer)
    else
      var cuts := Cut(Normalize(buffer + chunks[0]));
      FeedAll(cuts.rest, chunks[1..]).After(cuts.frames)
  }

  function Text(chunks: seq<string>): string {
    if chunks == [] then "" else chunks[0] + Text(chunks[1..])
  }

  /** The reference: one normalisation and one cut of the whole text. */
  function OneShot(text: string): Cuts {
    Cut(Normalize(text))
  }

  ghost predicate HasCrLf(s: string) {
    exists i :: 0 <= i && i + 1 < |s| && s[i] == '\r' && s[i + 1] == '\n'
  }

  ghost predicate CrCrLfAt(s: string, i: int) {
    0 <= i && i + 2 < |s| && s[i] == '\r' && s[i + 1] == '\r' && s[i + 2] == '\n'
  }

  ghost predicate HasCrCrLf(s: string) {
    exists i :: CrCrLfAt(s, i)
  }

  ghost predicate ChunkingIndependent(text: string) {
    forall chunks :: Text(chunks) == text ==> FeedAll("", chunks) == OneShot(text)
  }

  // ---------- normalisation across a boundary

  ghost predicate SplitsPair(p: string, y: string) {
    p != [] && y != [] && p[|p| - 1] == '\r' && y[0] == '\n'
  }

  /** Unless the boundary separates a CR from its LF, both sides normalise on their own. */
  lemma {:induction false} NormalizeConcat(p: string, y: string)
    requires !SplitsPair(p, y)
    ensures Normalize(p + y) == Normalize(p) + Normalize(y)
    decreases |p|
  {
    if |p| < 2 {
      NormalizeConcatShort(p, y);
    } else if p[0] == '\r' && p[1] == '\n' {
      DropConcat(p, y, 2);
      NormalizeConcat(p[2..], y);
      ConsConcat('\n', Normalize(p[2..]), Normalize(y));
    } else {
      DropConcat(p, y, 1);
      NormalizeConcat(p[1..], y);
      ConsConcat(p[0], Normalize(p[1..]), Normalize(y));
    }
  }

  lemma DropConcat(p: string, y: string, n: nat)
    requires n <= |p|
    ensures (p + y)[n..] == p[n..] + y && forall i :: 0 <= i < |p| ==> (p + y)[i] == p[i]
  {
  }

  lemma ConsConcat(c: char, a: string, b: string)
    ensures [c] + (a + b) == ([c] + a) + b
  {
  }

  lemma NormalizeConcatShort(p: string, y: string)
    requires |p| < 2 && !SplitsPair(p, y)
    ensures Normalize(p + y) == Normalize(p) + Normalize(y)
  {
    if p == [] {
      assert p + y == y;
    } else if y == [] {
      assert p + y == p;
    } else {
      assert (p + y)[1..] == y;
    }
  }

  lemma {:induction false} NormalizeFixed(s: string)
    requires !HasCrLf(s)
    ensures Normalize(s) == s
    decreases |s|
  {
    if |s| >= 2 {
      assert !(s[0] == '\r' && s[0 + 1] == '\n');
      assert !HasCrLf(s[1..]) by {
        forall i | 0 <= i && i + 1 < |s[1..]| ensures !(s[1..][i] == '\r' && s[1..][i + 1] == '\n') {
          assert !(s[i + 1] == '\r' && s[i + 1 + 1] == '\n');
        }
      }
      NormalizeFixed(s[1..]);
    }
  }

  lemma CrCrLfSuffix(s: string, k: nat)
    requires k <= |s| && !HasCrCrLf(s)
    ensures !HasCrCrLf(s[k..])
  {
    forall i ensures !CrCrLfAt(s[k..], i) {
      assert !CrCrLfAt(s, k + i);
    }
  }

  lemma CrLfSuffix(s: string, k: nat)
    requires k <= |s| && !HasCrLf(s)
    ensures !HasCrLf(s[k..])
  {
    forall i | 0 <= i && i + 1 < |s[k..]| ensures !(s[k..][i] == '\r' && s[k..][i + 1] == '\n') {
      assert !(s[k + i] == '\r' && s[k + i + 1] == '\n');
    }
  }

  lemma CrLfCons(c: char, s: string)
    requires !HasCrLf(s) && !(c == '\r' && s != [] && s[0] == '\n')
    ensures !HasCrLf([c] + s)
  {
    forall i | 0 <= i && i + 1 < |[c] + s| ensures !(([c] + s)[i] == '\r' && ([c] + s)[i + 1] == '\n') {
      if i > 0 { assert !(s[i - 1] == '\r' && s[i - 1 + 1] == '\n'); }
    }
  }

  /** Only CR CR LF leaves a CRLF pair behind. */
  lemma {:induction false} NormalizeLeavesNoPair(s: string)
    requires !HasCrCrLf(s)
    ensures !HasCrLf(Normalize(s))
    decreases |s|
  {
    if |s| < 2 {
    } else if s[0] == '\r' && s[1] == '\n' {
      CrCrLfSuffix(s, 2);
      NormalizeLeavesNoPair(s[2..]);
      CrLfCons('\n', Normalize(s[2..]));
    } else {
      CrCrLfSuffix(s, 1);
      NormalizeLeavesNoPair(s[1..]);
      assert !CrCrLfAt(s, 0);
      CrLfCons(s[0], Normalize(s[1..]));
    }
  }

  /** Normalising what was already read changes nothing, as long as the text has no CR CR LF. */
  lemma {:induction false} NormalizeAgain(x: string, r: string)
    requires !HasCrCrLf(x + r)
    ensures Normalize(Normalize(x) + r) == Normalize(x + r)
    decreases |x|
  {
    if |x| < 2 {
    } else if x[0] == '\r' && x[1] == '\n' {
      assert (x + r)[2..] == x[2..] + r;
      CrCrLfSuffix(x + r, 2);
      NormalizeAgain(x[2..], r);
      NormalizeAgainPair(x, r);
    } else {
      assert (x + r)[1..] == x[1..] + r;
      CrCrLfSuffix(x + r, 1);
      NormalizeAgain(x[1..], r);
      assert !CrCrLfAt(x + r, 0);
      NormalizeAgainChar(x, r);
    }
  }

  lemma Associate(a: string, b: string, c: string)
    ensures a + (b + c) == (a + b) + c
  {
  }

  lemma HeadAndTail(s: string)
    requires s != []
    ensures s == [s[0]] + s[1..]
  {
  }

  lemma NormalizeAgainPair(x: string, r: string)
    requires |x| >= 2 && x[0] == '\r' && x[1] == '\n' && Normalize(Normalize(x[2..]) + r) == Normalize(x[2..] + r)
    ensures Normalize(Normalize(x) + r) == Normalize(x + r)
  {
    assert (x + r)[2..] == x[2..] + r;
    NormalizeCons('\n', Normalize(x[2..]) + r);
    Associate(['\n'], Normalize(x[2..]), r);
  }

  lemma NormalizeAgainChar(x: string, r: string)
    requires |x| >= 2 && !(x[0] == '\r' && x[1] == '\n') &&
      !(x[0] == '\r' && x[1] == '\r' && |x + r| > 2 && (x + r)[2] == '\n')
    requires Normalize(Normalize(x[1..]) + r) == Normalize(x[1..] + r)
    ensures Normalize(Normalize(x) + r) == Normalize(x + r)
  {
    var y := x[1..];
    var tail := Normalize(y) + r;
    NormalizeHead(y);
    assert tail[0] == Normalize(y)[0];
    assert |x + r| > 2 && |y| >= 2 ==> (x + r)[2] == y[1];
    NormalizeCons(x[0], y);
    NormalizeCons(x[0], y + r);
    NormalizeCons(x[0], tail);
    HeadAndTail(x);
    Associate([x[0]], y, r);
    Associate([x[0]], Normalize(y), r);
  }

  lemma NormalizeHead(y: string)
    requires y != []
    ensures Normalize(y) != []
    ensures Normalize(y)[0] == if |y| >= 2 && y[0] == '\r' && y[1] == '\n' then '\n' else y[0]
  {
  }

  lemma NormalizeCons(c: char, tail: string)
    requires !(c == '\r' && tail != [] && tail[0] == '\n')
    ensures Normalize([c] + tail) == [c] + Normalize(tail)
  {
    assert ([c] + tail)[1..] == tail;
  }

  /** Reading ahead never creates a CR CR LF. */
  lemma {:induction false} NormalizeAddsNoCrCrLf(x: string, r: string)
    requires !HasCrCrLf(x + r)
    ensures !HasCrCrLf(Normalize(x) + r)
    decreases |x|
  {
    if |x| < 2 {
    } else {
      var k := if x[0] == '\r' && x[1] == '\n' then 2 else 1;
      assert (x + r)[k..] == x[k..] + r;
      CrCrLfSuffix(x + r, k);
      NormalizeAddsNoCrCrLf(x[k..], r);
      var tail := Normalize(x[k..]) + r;
      var c := if k == 2 then '\n' else x[0];
      assert Normalize(x) + r == [c] + tail;
      forall i ensures !CrCrLfAt([c] + tail, i) {
        if i > 0 { assert !CrCrLfAt(tail, i - 1); }
        if i == 0 && k == 1 { HeadNotCrCrLf(x, r); }
      }
    }
  }

  lemma HeadNotCrCrLf(x: string, r: string)
    requires |x| >= 2 && !(x[0] == '\r' && x[1] == '\n') && !HasCrCrLf(x + r)
    ensures !CrCrLfAt([x[0]] + (Normalize(x[1..]) + r), 0)
  {
    var y := x[1..];
    var n := Normalize(y);
    assert (x + r)[1..] == y + r;
    assert !HasCrCrLf(y) by {
      forall i ensures !CrCrLfAt(y, i) { assert !CrCrLfAt(x + r, i + 1); }
    }
    NormalizeLeavesNoPair(y);
    assert !CrCrLfAt(x + r, 0);
    if x[0] == '\r' && n[0] == '\r' && |n| >= 2 {
      assert !(n[0] == '\r' && n[0 + 1] == '\n');
    }
    assert |n| == 1 && n[0] == '\r' ==> y == n;
  }

  // ---------- cutting

  lemma {:induction false} BlankInPrefix(p: string, i: nat, y: string)
    requires BlankAt(p) == i
    ensures BlankAt(p + y) == i
    decreases |p|
  {
    assert (p + y)[1..] == p[1..] + y;
    if i > 0 { BlankInPrefix(p[1..], i - 1, y); }
  }

  lemma {:induction false} BlankTruncated(u: string)
    requires BlankAt(u) >= 0
    ensures BlankAt(u[..BlankAt(u) + 2]) == BlankAt(u)
    decreases |u|
  {
    var i := BlankAt(u);
    if i > 0 {
      BlankTruncated(u[1..]);
      assert u[..i + 2][1..] == u[1..][..i + 1];
    }
  }

  lemma DropTwice(s: string, k: nat, m: nat)
    requires k + m <= |s|
    ensures s[k..][m..] == s[k + m..]
  {
  }

  /** What is left after cutting is a suffix, without a blank line. */
  lemma {:induction false} CutRest(u: string)
    ensures BlankAt(Cut(u).rest) == -1
    ensures |Cut(u).rest| <= |u| && Cut(u).rest == u[|u| - |Cut(u).rest|..]
    decreases |u|
  {
    var i := BlankAt(u);
    if i != -1 {
      CutRest(u[i + 2..]);
      DropTwice(u, i + 2, |u[i + 2..]| - |Cut(u).rest|);
    }
  }

  /** A first frame is cut off whatever follows its blank line. */
  lemma CutFirst(u: string, z: string)
    requires BlankAt(u) >= 0
    ensures Cut(u[..BlankAt(u) + 2] + z) == Cut(z).After([u[..BlankAt(u)]])
  {
    var i := BlankAt(u);
    var p := u[..i + 2];
    BlankTruncated(u);
    BlankInPrefix(p, i, z);
    assert (p + z)[..i] == u[..i] && (p + z)[i + 2..] == z;
  }

  lemma NormalizePastBlank(u: string, r: string)
    requires !HasCrLf(u) && BlankAt(u) >= 0
    ensures Normalize(u + r) == u[..BlankAt(u) + 2] + Normalize(u[BlankAt(u) + 2..] + r)
  {
    var i := BlankAt(u);
    var p, v := u[..i + 2], u[i + 2..];
    assert u + r == p + (v + r);
    NormalizeConcat(p, v + r);
    assert !HasCrLf(p) by {
      forall k | 0 <= k && k + 1 < |p| ensures !(p[k] == '\r' && p[k + 1] == '\n') {
        assert !(u[k] == '\r' && u[k + 1] == '\n');
      }
    }
    NormalizeFixed(p);
  }

  lemma AfterAfter(c: Cuts, a: seq<string>, b: seq<string>)
    ensures c.After(b).After(a) == c.After(a + b)
  {
    assert a + (b + c.frames) == (a + b) + c.frames;
  }

  /** Cutting early and carrying the rest over is cutting late. */
  lemma {:induction false} CutThenFeed(u: string, r: string)
    requires !HasCrLf(u)
    ensures Cut(Normalize(u + r)) == Cut(Normalize(Cut(u).rest + r)).After(Cut(u).frames)
    decreases |u|
  {
    var i := BlankAt(u);
    if i == -1 {
      var whole := Cut(Normalize(u + r));
      assert [] + whole.frames == whole.frames;
    } else {
      var v := u[i + 2..];
      NormalizePastBlank(u, r);
      CutFirst(u, Normalize(v + r));
      CrLfSuffix(u, i + 2);
      CutThenFeed(v, r);
      AfterAfter(Cut(Normalize(Cut(v).rest + r)), [u[..i]], Cut(v).frames);
    }
  }

  lemma NoCrCrLfPrefix(x: string, r: string)
    requires !HasCrCrLf(x + r)
    ensures !HasCrCrLf(x)
  {
    forall i ensures !CrCrLfAt(x, i) { assert !CrCrLfAt(x + r, i); }
  }

  /** After a read the buffer is normalised and cut, and normalising it again with the rest to come is harmless. */
  lemma ReadSettles(x: string, r: string)
    requires !HasCrCrLf(x + r)
    ensures var u := Normalize(x);
      && !HasCrLf(u) && Normalize(u + r) == Normalize(x + r)
      && !HasCrLf(Cut(u).rest) && BlankAt(Cut(u).rest) == -1 && !HasCrCrLf(Cut(u).rest + r)
  {
    var u := Normalize(x);
    NormalizeAgain(x, r);
    NormalizeAddsNoCrCrLf(x, r);
    NoCrCrLfPrefix(x, r);
    NormalizeLeavesNoPair(x);
    CutRest(u);
    var k := |u| - |Cut(u).rest|;
    CrLfSuffix(u, k);
    CrCrLfSuffix(u + r, k);
    assert (u + r)[k..] == u[k..] + r;
  }

  lemma {:induction false} FeedIsOneShot(buffer: string, chunks: seq<string>)
    requires !HasCrLf(buffer) && BlankAt(buffer) == -1 && !HasCrCrLf(buffer + Text(chunks))
    ensures FeedAll(buffer, chunks) == OneShot(buffer + Text(chunks))
    decreases |chunks|
  {
    if chunks == [] {
      assert buffer + Text(chunks) == buffer;
      NormalizeFixed(buffer);
    } else {
      var x, r := buffer + chunks[0], Text(chunks[1..]);
      assert buffer + Text(chunks) == x + r;
      ReadSettles(x, r);
      CutThenFeed(Normalize(x), r);
      FeedIsOneShot(Cut(Normalize(x)).rest, chunks[1..]);
    }
  }

  // ---------- a text with CR CR LF can be chunked to give something else

  function CrCount(s: string): nat {
    if s == [] then 0 else (if s[0] == '\r' then 1 else 0) + CrCount(s[1..])
  }

  function FrameCrCount(frames: seq<string>): nat {
    if frames == [] then 0 else CrCount(frames[0]) + FrameCrCount(frames[1..])
  }

  lemma {:induction false} CrCountConcat(a: string, b: string)
    ensures CrCount(a + b) == CrCount(a) + CrCount(b)
  {
    if a == [] { assert a + b == b; } else { assert (a + b)[1..] == a[1..] + b; CrCountConcat(a[1..], b); }
  }

  lemma {:induction false} FrameCrCountConcat(a: seq<string>, b: seq<string>)
    ensures FrameCrCount(a + b) == FrameCrCount(a) + FrameCrCount(b)
  {
    if a == [] { assert a + b == b; } else { assert (a + b)[1..] == a[1..] + b; FrameCrCountConcat(a[1..], b); }
  }

  lemma CrAroundBlank(s: string, i: nat)
    requires i + 2 <= |s| && s[i] == '\n' && s[i + 1] == '\n'
    ensures CrCount(s) == CrCount(s[..i]) + CrCount(s[i + 2..])
  {
    assert s == s[..i] + s[i..];
    CrCountConcat(s[..i], s[i..]);
    assert s[i..][1..] == s[i + 1..] && s[i + 1..][1..] == s[i + 2..];
  }

  /** Cutting neither gains nor loses a CR. */
  lemma {:induction false} CutConservesCr(s: string)
    ensures FrameCrCount(Cut(s).frames) + CrCount(Cut(s).rest) == CrCount(s)
    decreases |s|
  {
    var i := BlankAt(s);
    if i != -1 {
      CutConservesCr(s[i + 2..]);
      CrAroundBlank(s, i);
      FrameCrCountConcat([s[..i]], Cut(s[i + 2..]).frames);
    }
  }

  lemma {:induction false} NormalizeDropsCr(s: string)
    ensures CrCount(Normalize(s)) <= CrCount(s)
    decreases |s|
  {
    if |s| >= 2 {
      if s[0] == '\r' && s[1] == '\n' {
        NormalizeDropsCr(s[2..]);
        assert s[1..][1..] == s[2..];
      } else {
        NormalizeDropsCr(s[1..]);
      }
    }
  }

  lemma {:induction false} EndsWithPairKeepsIt(u: string)
    requires |u| >= 2 && u[|u| - 2] == '\r' && u[|u| - 1] == '\n'
    ensures var b := Cut(u).rest; |b| >= 2 && b[|b| - 2] == '\r' && b[|b| - 1] == '\n'
    decreases |u|
  {
    var i := BlankAt(u);
    if i != -1 {
      EndsWithPairKeepsIt(u[i + 2..]);
    }
  }

  function TotalCr(c: Cuts): nat {
    FrameCrCount(c.frames) + CrCount(c.rest)
  }

  /** Normalised once, a text that ends in CR CR LF still ends in a CRLF pair. */
  lemma PairSurvives(p: string)
    ensures var u := Normalize(p + "\r\r\n"); |u| >= 2 && u[|u| - 2] == '\r' && u[|u| - 1] == '\n'
  {
    assert p + "\r\r\n" == (p + "\r") + "\r\n";
    NormalizeConcat(p + "\r", "\r\n");
    assert Normalize("\r\n") == ['\n'] + Normalize("");
    NormalizeEndsWithCr(p);
  }

  lemma LineEndCounts()
    ensures Normalize("\r\n") == "\n" && CrCount("\r\n") == 1 && CrCount("\n") == 0 && CrCount("\n\n") == 0
  {
    assert "\r\n"[1..] == "\n" && "\n"[1..] == "" && "\n\n"[1..] == "\n" && "\r\n"[2..] == "";
  }

  /** Normalised again, it loses a CR. */
  lemma PairLosesCr(b: string)
    requires |b| >= 2 && b[|b| - 2] == '\r' && b[|b| - 1] == '\n'
    ensures CrCount(Normalize(b)) < CrCount(b)
  {
    var b' := b[..|b| - 2];
    assert b == b' + "\r\n";
    LineEndCounts();
    NormalizeConcat(b', "\r\n");
    NormalizeDropsCr(b');
    CrCountConcat(Normalize(b'), "\n");
    CrCountConcat(b', "\r\n");
  }

  lemma TextTwo(a: string, r: string)
    ensures Text([a, r]) == a + r
  {
    assert [a, r][1..] == [r] && [r][1..] == [] && r + "" == r;
    assert Text([r]) == r;
  }

  lemma FeedTwo(a: string, r: string)
    ensures FeedAll("", [a, r]) == Cut(Normalize(Cut(Normalize(a)).rest + r)).After(Cut(Normalize(a)).frames)
  {
    assert [a, r][1..] == [r] && [r][1..] == [] && "" + a == a;
    var late := Cut(Normalize(Cut(Normalize(a)).rest + r));
    assert late.frames + [] == late.frames;
    assert FeedAll(Cut(Normalize(a)).rest, [r]) == late;
  }

  lemma OneShotCr(p: string, y: string)
    requires !SplitsPair(p, y)
    ensures TotalCr(OneShot(p + y)) == CrCount(Normalize(p)) + CrCount(Normalize(y))
  {
    NormalizeConcat(p, y);
    CutConservesCr(Normalize(p + y));
    CrCountConcat(Normalize(p), Normalize(y));
  }

  lemma CutAt(text: string, i: nat)
    requires CrCrLfAt(text, i)
    ensures text == text[..i + 3] + text[i + 3..] && text[..i + 3] == text[..i] + "\r\r\n"
    ensures Text([text[..i + 3], text[i + 3..]]) == text
  {
    TextTwo(text[..i + 3], text[i + 3..]);
  }

  lemma TotalAfter(c: Cuts, frames: seq<string>)
    ensures TotalCr(c.After(frames)) == FrameCrCount(frames) + TotalCr(c)
  {
    FrameCrCountConcat(frames, c.frames);
  }

  /** What is left of the first chunk is normalised again. */
  lemma TwoChunksCr(a: string, r: string)
    requires a != "" && a[|a| - 1] == '\n'
    requires var b := Cut(Normalize(a)).rest; |b| >= 2 && b[|b| - 2] == '\r' && b[|b| - 1] == '\n'
    ensures TotalCr(FeedAll("", [a, r])) < TotalCr(OneShot(a + r))
  {
    var first := Cut(Normalize(a));
    FeedTwo(a, r);
    TotalAfter(OneShot(first.rest + r), first.frames);
    PairLosesCr(first.rest);
    CutConservesCr(Normalize(a));
    OneShotCr(a, r);
    OneShotCr(first.rest, r);
  }

  /** A first chunk that ends in CR CR LF: what comes out holds one CR less. */
  lemma ChunkLosesCr(p: string, a: string, r: string)
    requires a == p + "\r\r\n"
    ensures FeedAll("", [a, r]) != OneShot(a + r)
  {
    PairSurvives(p);
    EndsWithPairKeepsIt(Normalize(a));
    TwoChunksCr(a, r);
  }

  /** Chunking right after a CR CR LF makes the second normalisation eat one CR more. */
  lemma SplitAfterCrCrLfDiffers(text: string, i: nat)
    requires CrCrLfAt(text, i)
    ensures Text([text[..i + 3], text[i + 3..]]) == text
    ensures FeedAll("", [text[..i + 3], text[i + 3..]]) != OneShot(text)
  {
    CutAt(text, i);
    ChunkLosesCr(text[..i], text[..i + 3], text[i + 3..]);
  }

  lemma {:induction false} NormalizeEndsWithCr(p: string)
    ensures var n := Normalize(p + "\r"); n != [] && n[|n| - 1] == '\r'
    decreases |p|
  {
    var s := p + "\r";
    if |s| >= 2 {
      if s[0] == '\r' && s[1] == '\n' {
        assert s[2..] == p[2..] + "\r";
        NormalizeEndsWithCr(p[2..]);
      } else {
        assert s[1..] == p[1..] + "\r";
        NormalizeEndsWithCr(p[1..]);
      }
    }
  }

  /**
   * The incremental buffer agrees with the one-shot reading for every chunking of a text exactly when
   * the text has no CR CR LF.
   */
  lemma ChunkingIndependentIff(text: string)
    ensures ChunkingIndependent(text) <==> !HasCrCrLf(text)
  {
    if !HasCrCrLf(text) {
      forall chunks | Text(chunks) == text ensures FeedAll("", chunks) == OneShot(text) {
        assert "" + Text(chunks) == text;
        FeedIsOneShot("", chunks);
      }
    } else {
      var i :| CrCrLfAt(text, i);
      SplitAfterCrCrLfDiffers(text, i);
    }
  }
}
