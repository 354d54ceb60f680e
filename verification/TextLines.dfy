/** Lines and white space as JavaScript's `split("\n")`, `trim` and `\s` see them. */
module TextLines {

  function Lines(text: string): (lines: seq<string>)
    ensures lines != []
  {
    if text == "" then [""]
    else
      var rest := Lines(text[1..]);
      if text[0] == '\n' then [""] + rest else [[text[0]] + rest[0]] + rest[1..]
  }

  function JoinLines(lines: seq<string>): string {
    if lines == [] then "" else if |lines| == 1 then lines[0] else lines[0] + "\n" + JoinLines(lines[1..])
  }

  /** Splitting at line feeds loses nothing. */
  lemma {:induction false} JoinInvertsLines(text: string)
    ensures JoinLines(Lines(text)) == text
  {
    if text != "" {
      JoinInvertsLines(text[1..]);
      var rest := Lines(text[1..]);
      if text[0] == '\n' {
        assert ([""] + rest)[1..] == rest;
      } else if |rest| > 1 {
        assert ([[text[0]] + rest[0]] + rest[1..])[1..] == rest[1..];
      }
    }
  }

  ghost predicate NoLineFeeds(lines: seq<string>) {
    forall i :: 0 <= i < |lines| ==> '\n' !in lines[i]
  }

  lemma {:induction false} LinesHaveNoLineFeeds(text: string)
    ensures NoLineFeeds(Lines(text))
  {
    if text != "" {
      var rest := Lines(text[1..]);
      LinesHaveNoLineFeeds(text[1..]);
      var lines := Lines(text);
      forall i | 0 <= i < |lines| ensures '\n' !in lines[i] {
        if text[0] == '\n' {
          if i > 0 { assert lines[i] == rest[i - 1]; }
        } else {
          if i > 0 { assert lines[i] == rest[i]; }
        }
      }
    }
  }

  lemma {:induction false} SplitFirst(line: string, rest: string)
    requires '\n' !in line
    ensures Lines(line) == [line] && Lines(line + "\n" + rest) == [line] + Lines(rest)
  {
    if line == "" {
      assert (line + "\n" + rest)[1..] == rest;
    } else {
      SplitFirst(line[1..], rest);
      assert line == [line[0]] + line[1..];
      assert (line + "\n" + rest)[1..] == line[1..] + "\n" + rest;
    }
  }

  /** Joining lines that contain no line feed is undone by splitting. */
  lemma {:induction false} LinesInvertJoin(lines: seq<string>)
    requires lines != [] && NoLineFeeds(lines)
    ensures Lines(JoinLines(lines)) == lines
  {
    assert lines == [lines[0]] + lines[1..];
    if |lines| > 1 {
      LinesInvertJoin(lines[1..]);
      SplitFirst(lines[0], JoinLines(lines[1..]));
    } else {
      SplitFirst(lines[0], "");
    }
  }

  predicate IsSpace(c: char) {
    || c in {' ', '\t', '\n', '\r', '\U{000B}', '\U{000C}', '\U{00A0}', '\U{1680}', '\U{2028}', '\U{2029}', '\U{202F}'}
    || '\U{2000}' <= c <= '\U{200A}' || c in {'\U{205F}', '\U{3000}', '\U{FEFF}'}
  }

  /** White space and line ends by their code points. */
  lemma SpaceCodes(c: char)
    ensures IsSpace(c) <==>
      var code := c as int;
      || 9 <= code <= 13 || code in {32, 160, 5760, 8232, 8233, 8239, 8287, 12288, 65279} || 8192 <= code <= 8202
  {
  }

  function TrimStart(s: string): string {
    if s != "" && IsSpace(s[0]) then TrimStart(s[1..]) else s
  }

  function TrimEnd(s: string): (r: string)
    ensures r <= s
  {
    if s != "" && IsSpace(s[|s| - 1]) then TrimEnd(s[..|s| - 1]) else s
  }

  function Trim(s: string): string {
    TrimEnd(TrimStart(s))
  }

  // ---------- what trimming leaves

  /** All white space. */
  predicate Blank(s: string) {
    forall i :: 0 <= i < |s| ==> IsSpace(s[i])
  }

  /** No white space at either end. */
  predicate Tight(s: string) {
    s != "" ==> !IsSpace(s[0]) && !IsSpace(s[|s| - 1])
  }

  /** The text between the white space around it. */
  ghost predicate Trimmed(raw: string, s: string) {
    Tight(s) && exists before, after :: Blank(before) && Blank(after) && raw == before + s + after
  }

  lemma {:induction false} TrimStartParts(s: string) returns (before: string)
    ensures Blank(before) && s == before + TrimStart(s) && (TrimStart(s) != "" ==> !IsSpace(TrimStart(s)[0]))
  {
    if s != "" && IsSpace(s[0]) {
      var rest := TrimStartParts(s[1..]);
      before := [s[0]] + rest;
      assert s == [s[0]] + s[1..];
    } else {
      before := "";
    }
  }

  lemma {:induction false} TrimEndParts(s: string) returns (after: string)
    ensures Blank(after) && s == TrimEnd(s) + after
    ensures TrimEnd(s) != "" ==> !IsSpace(TrimEnd(s)[|TrimEnd(s)| - 1]) && TrimEnd(s)[0] == s[0]
    decreases |s|
  {
    if s != "" && IsSpace(s[|s| - 1]) {
      var t := s[..|s| - 1];
      var rest := TrimEndParts(t);
      after := rest + [s[|s| - 1]];
      assert s == t + [s[|s| - 1]];
    } else {
      after := "";
      assert s == s + "";
    }
  }

  lemma {:induction false} TrimStartBlank(before: string, s: string)
    requires Blank(before) && (s != "" ==> !IsSpace(s[0]))
    ensures TrimStart(before + s) == s
  {
    if before == "" {
      assert before + s == s;
    } else {
      assert (before + s)[0] == before[0] && (before + s)[1..] == before[1..] + s;
      TrimStartBlank(before[1..], s);
    }
  }

  lemma {:induction false} TrimEndBlankAfter(s: string, after: string)
    requires Blank(after) && (s != "" ==> !IsSpace(s[|s| - 1]))
    ensures TrimEnd(s + after) == s
    decreases |after|
  {
    if after == "" {
      assert s + after == s;
    } else {
      var n := |after| - 1;
      assert (s + after)[|s + after| - 1] == after[n] && (s + after)[..|s + after| - 1] == s + after[..n];
      TrimEndBlankAfter(s, after[..n]);
    }
  }

  lemma TrimComposed(before: string, s: string, after: string)
    requires Blank(before) && Blank(after) && Tight(s)
    ensures Trim(before + s + after) == s
  {
    if s == "" {
      var all := before + after;
      assert before + s + after == all && all + "" == all && "" + "" == "";
      TrimStartBlank(all, "");
    } else {
      assert before + s + after == before + (s + after);
      TrimStartBlank(before, s + after);
      TrimEndBlankAfter(s, after);
    }
  }

  /** Trimming takes away exactly the white space around the text. */
  lemma TrimIff(raw: string, s: string)
    ensures Trim(raw) == s <==> Trimmed(raw, s)
  {
    var start := TrimStartParts(raw);
    var end := TrimEndParts(TrimStart(raw));
    assert raw == start + Trim(raw) + end;
    assert Trimmed(raw, Trim(raw));
    if before, after :| Tight(s) && Blank(before) && Blank(after) && raw == before + s + after {
      TrimComposed(before, s, after);
    }
  }

  /** A text with nothing but white space behind it. */
  lemma TrimEndIff(raw: string, s: string)
    requires s != "" && !IsSpace(s[|s| - 1])
    ensures TrimEnd(raw) == s <==> exists after :: Blank(after) && raw == s + after
  {
    var end := TrimEndParts(raw);
    if after :| Blank(after) && raw == s + after { TrimEndBlankAfter(s, after); }
  }
}
