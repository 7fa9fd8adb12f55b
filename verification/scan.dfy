/** Left-to-right substitution as performed by Python's `re.sub` for patterns
    that never match the empty string, and the whole-word alternation patterns
    (`\b(k1|k2|...)\b`) the pipeline builds from its dictionaries. */
module Scan {
  import opened Text

  /** A matcher reports the length of the match its pattern makes at
      position `i` of `s`, or 0 where the pattern does not match. The whole
      text is passed so that look-behind and `\b` can inspect the character
      before `i`. */
  type Matcher = (string, nat) -> nat

  predicate MatchesAt(s: string, i: nat, m: Matcher) {
    0 < m(s, i) <= |s| - i
  }

  /** `re.sub` from position `i`: at every position the pattern matches, the
      matched text is replaced by `rep` of it and scanning resumes after the
      match; elsewhere the character is copied. */
  function SubFrom(s: string, i: nat, m: Matcher, rep: string -> string): string
    decreases |s| - i
  {
    if i >= |s| then ""
    else if MatchesAt(s, i, m) then
      var n := m(s, i);
      rep(s[i..i + n]) + SubFrom(s, i + n, m, rep)
    else
      [s[i]] + SubFrom(s, i + 1, m, rep)
  }

  function Sub(s: string, m: Matcher, rep: string -> string): string {
    SubFrom(s, 0, m, rep)
  }

  /** A match that covers the whole text is replaced as a whole. */
  lemma SubTodo(s: string, m: Matcher, rep: string -> string)
    requires |s| > 0 && m(s, 0) == |s|
    ensures Sub(s, m, rep) == rep(s)
  {
    assert s[0..|s|] == s;
    assert SubFrom(s, |s|, m, rep) == "";
  }

  /** One step of the substitution at a match. */
  lemma SubFromCasa(s: string, i: nat, m: Matcher, rep: string -> string)
    requires i < |s| && MatchesAt(s, i, m)
    ensures SubFrom(s, i, m, rep) == rep(s[i..i + m(s, i)]) + SubFrom(s, i + m(s, i), m, rep)
  {
  }

  /** The step at a match whose replacement is the text `c`. */
  lemma SubFromCasaFixa(s: string, i: nat, m: Matcher, rep: string -> string, c: string)
    requires i < |s| && MatchesAt(s, i, m) && rep(s[i..i + m(s, i)]) == c
    ensures SubFrom(s, i, m, rep) == c + SubFrom(s, i + m(s, i), m, rep)
  {
    SubFromCasa(s, i, m, rep);
  }

  /** One step of the substitution elsewhere. */
  lemma SubFromCopia(s: string, i: nat, m: Matcher, rep: string -> string)
    requires i < |s| && !MatchesAt(s, i, m)
    ensures SubFrom(s, i, m, rep) == [s[i]] + SubFrom(s, i + 1, m, rep)
  {
  }

  function Nothing(t: string): string { "" }

  /** `re.sub(pattern, '', s)`. */
  function Delete(s: string, m: Matcher): string {
    Sub(s, m, Nothing)
  }

  /** When the pattern matches nowhere, substitution changes nothing. */
  lemma {:induction false} SubFromNoMatch(s: string, i: nat, m: Matcher, rep: string -> string)
    requires i <= |s|
    requires forall j :: i <= j < |s| ==> !MatchesAt(s, j, m)
    ensures SubFrom(s, i, m, rep) == s[i..]
    decreases |s| - i
  {
    if i < |s| {
      SubFromNoMatch(s, i + 1, m, rep);
      assert s[i..] == [s[i]] + s[i + 1..];
    }
  }

  /** A stretch without matches is copied as it is. */
  lemma {:induction false} SubFromCopiaAte(s: string, i: nat, e: nat, m: Matcher, rep: string -> string)
    requires i <= e <= |s|
    requires forall j :: i <= j < e ==> !MatchesAt(s, j, m)
    ensures SubFrom(s, i, m, rep) == s[i..e] + SubFrom(s, e, m, rep)
    decreases e - i
  {
    if i < e {
      SubFromCopia(s, i, m, rep);
      SubFromCopiaAte(s, i + 1, e, m, rep);
      assert s[i..e] == [s[i]] + s[i + 1..e];
      assert [s[i]] + (s[i + 1..e] + SubFrom(s, e, m, rep))
          == ([s[i]] + s[i + 1..e]) + SubFrom(s, e, m, rep);
    }
  }

  /** Over a stretch that is either matched whole at its start or not
      matched anywhere, and that the replacement leaves alone when it is
      not matched, the substitution writes the replacement of the stretch. */
  lemma SubTrecho(s: string, i: nat, e: nat, m: Matcher, rep: string -> string)
    requires i < e <= |s|
    requires m(s, i) == 0 || m(s, i) == e - i
    requires forall j :: i < j < e ==> m(s, j) == 0
    requires m(s, i) == 0 ==> rep(s[i..e]) == s[i..e]
    ensures SubFrom(s, i, m, rep) == rep(s[i..e]) + SubFrom(s, e, m, rep)
  {
    if m(s, i) == 0 {
      SubFromCopiaAte(s, i, e, m, rep);
    } else {
      SubFromCasa(s, i, m, rep);
    }
  }

  /** A stretch written as `x`, then an unmatched space, then the rest
      written as `y`. */
  lemma SubEspaco(s: string, i: nat, e: nat, m: Matcher, rep: string -> string, x: string, y: string)
    requires i <= e < |s| && !MatchesAt(s, e, m) && s[e] == ' '
    requires SubFrom(s, i, m, rep) == x + SubFrom(s, e, m, rep)
    requires SubFrom(s, e + 1, m, rep) == y
    ensures SubFrom(s, i, m, rep) == x + (" " + y)
  {
    SubFromCopia(s, e, m, rep);
  }

  lemma SubNoMatch(s: string, m: Matcher, rep: string -> string)
    requires forall j :: 0 <= j < |s| ==> !MatchesAt(s, j, m)
    ensures Sub(s, m, rep) == s
  {
    SubFromNoMatch(s, 0, m, rep);
  }

  /** Deleting matches keeps any property of every character: the result
      is made of characters of the input. */
  lemma {:induction false} DeleteFromKeeps(s: string, i: nat, m: Matcher, p: char -> bool)
    requires AllChars(s, p)
    ensures AllChars(SubFrom(s, i, m, Nothing), p)
    decreases |s| - i
  {
    if i < |s| {
      if MatchesAt(s, i, m) {
        DeleteFromKeeps(s, i + m(s, i), m, p);
      } else {
        DeleteFromKeeps(s, i + 1, m, p);
      }
    }
  }

  lemma DeleteKeeps(s: string, m: Matcher, p: char -> bool)
    requires AllChars(s, p)
    ensures AllChars(Delete(s, m), p)
  {
    DeleteFromKeeps(s, 0, m, p);
  }

  /** Deletion leaves only characters no match covered: when every
      character where the pattern does not match has the property `p`, so
      does every character of the result. */
  lemma {:induction false} DeleteFromUnmatched(s: string, i: nat, m: Matcher, p: char -> bool)
    requires forall j :: i <= j < |s| && !MatchesAt(s, j, m) ==> p(s[j])
    ensures AllChars(SubFrom(s, i, m, Nothing), p)
    decreases |s| - i
  {
    if i < |s| {
      if MatchesAt(s, i, m) {
        DeleteFromUnmatched(s, i + m(s, i), m, p);
      } else {
        DeleteFromUnmatched(s, i + 1, m, p);
      }
    }
  }

  // ---------------------------------------------------------------------------
  // Word boundaries and whole-word alternations
  // ---------------------------------------------------------------------------

  predicate WordAt(s: string, i: int) { 0 <= i < |s| && IsWordChar(s[i]) }

  /** `\b` at position `i`. */
  predicate Boundary(s: string, i: int) { WordAt(s, i - 1) != WordAt(s, i) }

  /** The text at `i` equals `k` (up to case when `ci`). */
  predicate TextAt(s: string, i: nat, k: string, ci: bool) {
    i + |k| <= |s| && (if ci then Upper(s[i..i + |k|]) == Upper(k) else s[i..i + |k|] == k)
  }

  /** `\b(k)\b` matches at `i`. */
  predicate WholeWordAt(s: string, i: nat, k: string, ci: bool) {
    |k| > 0 && TextAt(s, i, k, ci) && Boundary(s, i) && Boundary(s, i + |k|)
  }

  /** The length of the match of `\b(k1|k2|...)\b` at `i`: Python tries the
      alternatives in order and keeps the first whose closing `\b` holds. */
  function FirstKeyLen(keys: seq<string>, s: string, i: nat, ci: bool): (n: nat)
    ensures n == 0 <==> forall j :: 0 <= j < |keys| ==> !WholeWordAt(s, i, keys[j], ci)
    ensures n > 0 ==> exists j :: (0 <= j < |keys| && WholeWordAt(s, i, keys[j], ci) && n == |keys[j]|
                                   && forall j' :: 0 <= j' < j ==> !WholeWordAt(s, i, keys[j'], ci))
  {
    if |keys| == 0 then 0
    else if WholeWordAt(s, i, keys[0], ci) then |keys[0]|
    else
      var n := FirstKeyLen(keys[1..], s, i, ci);
      assert forall j :: 1 <= j < |keys| ==> keys[j] == keys[1..][j - 1];
      if n > 0 then
        var j :| 0 <= j < |keys| - 1 && WholeWordAt(s, i, keys[1..][j], ci) && n == |keys[1..][j]|
          && forall j' :: 0 <= j' < j ==> !WholeWordAt(s, i, keys[1..][j'], ci);
        assert WholeWordAt(s, i, keys[j + 1], ci) && forall j' :: 0 <= j' < j + 1 ==> !WholeWordAt(s, i, keys[j'], ci);
        n
      else n
  }

  /** The matcher of `\b(k1|k2|...)\b`, case-insensitive when `ci`. */
  function WholeWords(keys: seq<string>, ci: bool): Matcher {
    (s: string, i: nat) => FirstKeyLen(keys, s, i, ci)
  }

  /** The matcher of a literal text `k` (no word boundaries). */
  function Literal(k: string, ci: bool): Matcher {
    (s: string, i: nat) => if |k| > 0 && TextAt(s, i, k, ci) then |k| else 0
  }
}
