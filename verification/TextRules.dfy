/** Trimming and lowering text, letter by letter. */
module TextRules {

  /** Which characters are spaces, and how a letter is lowered. */
  datatype Letters = Letters(space: char -> bool, lower: char -> char)

  predicate PlainLetter(c: char) {
    '0' <= c <= '9' || 'a' <= c <= 'z' || c == '-'
  }

  predicate PlainText(s: string) {
    forall i :: 0 <= i < |s| ==> PlainLetter(s[i])
  }

  /** What any character table gives: lowering twice is lowering once and never
      makes or removes a space; digits, small letters and '-' are what they are. */
  ghost predicate SaneLetters(t: Letters) {
    && (forall c :: t.lower(t.lower(c)) == t.lower(c) && (t.space(t.lower(c)) <==> t.space(c)))
    && (forall c :: PlainLetter(c) ==> t.lower(c) == c && !t.space(c))
  }

  function TrimLeft(t: Letters, s: string): (r: string)
    ensures r != "" ==> !t.space(r[0])
    ensures forall i :: 0 <= i < |r| ==> r[i] in s
  {
    if s != "" && t.space(s[0]) then TrimLeft(t, s[1..]) else s
  }

  function TrimRight(t: Letters, s: string): (r: string)
    ensures r <= s && (r != "" ==> !t.space(r[|r| - 1]))
    decreases |s|
  {
    if s != "" && t.space(s[|s| - 1]) then TrimRight(t, s[..|s| - 1]) else s
  }

  function Trim(t: Letters, s: string): (r: string)
    ensures r != "" ==> !t.space(r[0]) && !t.space(r[|r| - 1])
    ensures forall i :: 0 <= i < |r| ==> r[i] in s
  {
    TrimRight(t, TrimLeft(t, s))
  }

  predicate AllSpaces(t: Letters, s: string) {
    forall i :: 0 <= i < |s| ==> t.space(s[i])
  }

  lemma {:induction false} LeftIsSpaces(t: Letters, s: string) returns (front: string)
    ensures AllSpaces(t, front) && s == front + TrimLeft(t, s)
    decreases |s|
  {
    front := "";
    if s != "" && t.space(s[0]) {
      var rest := LeftIsSpaces(t, s[1..]);
      front := [s[0]] + rest;
    }
  }

  lemma {:induction false} RightIsSpaces(t: Letters, s: string) returns (back: string)
    ensures AllSpaces(t, back) && s == TrimRight(t, s) + back
    decreases |s|
  {
    back := "";
    if s != "" && t.space(s[|s| - 1]) {
      var rest := RightIsSpaces(t, s[..|s| - 1]);
      back := rest + [s[|s| - 1]];
    }
  }

  /** Trimming takes the spaces at both ends and nothing else. */
  lemma TrimsTheEnds(t: Letters, s: string)
    ensures exists front, back :: AllSpaces(t, front) && AllSpaces(t, back) && s == front + Trim(t, s) + back
  {
    var front := LeftIsSpaces(t, s);
    var back := RightIsSpaces(t, TrimLeft(t, s));
    assert s == front + Trim(t, s) + back;
  }

  lemma TrimmedStays(t: Letters, s: string)
    requires s != "" ==> !t.space(s[0]) && !t.space(s[|s| - 1])
    ensures Trim(t, s) == s
  {
  }

  function Lower(t: Letters, s: string): (r: string)
    ensures |r| == |s| && forall i :: 0 <= i < |r| ==> r[i] == t.lower(s[i])
  {
    seq(|s|, i requires 0 <= i < |s| => t.lower(s[i]))
  }

  function Fold(t: Letters, s: string): string {
    Trim(t, Lower(t, s))
  }

  /** Trimming and folding settle at once, and plain text is left alone. */
  lemma FoldingSettles(t: Letters, s: string)
    requires SaneLetters(t)
    ensures Trim(t, Trim(t, s)) == Trim(t, s) && Fold(t, Fold(t, s)) == Fold(t, s)
    ensures PlainText(s) ==> Trim(t, s) == s && Fold(t, s) == s
  {
    TrimmedStays(t, Trim(t, s));
    FoldStays(t, s);
    if PlainText(s) {
      hide Trim;
      assert Lower(t, s) == s;
      TrimmedStays(t, s);
    }
  }

  lemma FoldStays(t: Letters, s: string)
    requires SaneLetters(t)
    ensures Fold(t, Fold(t, s)) == Fold(t, s)
  {
    hide Trim;
    var lowered := Lower(t, s);
    var folded := Trim(t, lowered);
    forall i | 0 <= i < |folded| ensures t.lower(folded[i]) == folded[i] {
      var j :| 0 <= j < |lowered| && lowered[j] == folded[i];
      assert lowered[j] == t.lower(s[j]);
    }
    assert Lower(t, folded) == folded;
    TrimmedStays(t, folded);
  }
}
