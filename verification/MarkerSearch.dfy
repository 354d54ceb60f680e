/** Substring search over a text that arrives in pieces, with only a tail of it kept. */
module MarkerSearch {

  ghost predicate OccursAt(text: string, marker: string, i: int) {
    0 <= i && i + |marker| <= |text| && text[i..i + |marker|] == marker
  }

  /** `text.includes(marker)`. */
  ghost predicate Contains(text: string, marker: string) {
    exists i :: OccursAt(text, marker, i)
  }

  /** `text.includes(marker)`, computed: the search from each position in turn. */
  predicate Includes(text: string, marker: string)
    decreases |text|
  {
    marker <= text || (text != "" && Includes(text[1..], marker))
  }

  lemma {:induction false} IncludesIffContains(text: string, marker: string)
    ensures Includes(text, marker) <==> Contains(text, marker)
    decreases |text|
  {
    if marker <= text { assert OccursAt(text, marker, 0); }
    if text != "" {
      IncludesIffContains(text[1..], marker);
      if i :| OccursAt(text[1..], marker, i) { assert OccursAt(text, marker, i + 1); }
      if i :| OccursAt(text, marker, i) {
        if i > 0 { assert OccursAt(text[1..], marker, i - 1); }
      }
    } else if i :| OccursAt(text, marker, i) {
      assert marker == "";
    }
  }

  /** `text.slice(-n)` for a positive `n`. */
  function Tail(text: string, n: nat): (tail: string)
    ensures |tail| <= n
  {
    if |text| <= n then text else text[|text| - n..]
  }

  /** An occurrence survives text added on either side. */
  lemma ContainsInContext(before: string, text: string, after: string, marker: string)
    requires Contains(text, marker)
    ensures Contains(before + text + after, marker)
  {
    var i :| OccursAt(text, marker, i);
    var whole := before + text + after;
    assert whole[|before| + i..|before| + i + |marker|] == text[i..i + |marker|];
    assert OccursAt(whole, marker, |before| + i);
  }

  lemma OccurrenceSplits(head: string, kept: string, piece: string, marker: string, i: int)
    requires OccursAt(head + kept + piece, marker, i) && (|kept| == |marker| || head == "")
    ensures Contains(head + kept, marker) || Contains(kept + piece, marker)
  {
    var whole := head + kept + piece;
    var n := |marker|;
    if i < |head| {
      assert (head + kept)[i..i + n] == whole[i..i + n];
      assert OccursAt(head + kept, marker, i);
    } else {
      assert (kept + piece)[i - |head|..i - |head| + n] == whole[i..i + n];
      assert OccursAt(kept + piece, marker, i - |head|);
    }
  }

  /** The next piece completes an occurrence exactly when the kept tail and the piece contain one. */
  lemma TailSuffices(text: string, piece: string, marker: string)
    ensures Contains(text + piece, marker)
      <==> Contains(text, marker) || Contains(Tail(text, |marker|) + piece, marker)
  {
    var kept := Tail(text, |marker|);
    var head := text[..|text| - |kept|];
    assert text == head + kept;
    assert text + piece == head + (kept + piece) + "" && text + piece == "" + text + piece;
    if i :| OccursAt(text + piece, marker, i) { OccurrenceSplits(head, kept, piece, marker, i); }
    if Contains(text, marker) { ContainsInContext("", text, piece, marker); }
    if Contains(kept + piece, marker) { ContainsInContext(head, kept + piece, "", marker); }
  }

  /** The tail of a tail with more text is the tail of the whole. */
  lemma TailOfTail(text: string, piece: string, n: nat)
    ensures Tail(Tail(text, n) + piece, n) == Tail(text + piece, n)
  {
    var whole, kept := text + piece, Tail(text, n) + piece;
    if |text| > n {
      assert kept == whole[|text| - n..];
    }
  }
}
