/** Character classes and string helpers shared by the text normalisers.

    Python's `\d`, `\w`, `\s`, `str.upper` and `str.split` are Unicode-aware;
    this module follows them on the characters up to U+00FF, which covers
    the Portuguese text the pipeline handles: the letters are the ASCII ones
    and U+00C0..U+00FF without the signs U+00D7 and U+00F7. */
module Text {

  // ---------------------------------------------------------------------------
  // Character classes
  // ---------------------------------------------------------------------------

  predicate IsDigit(c: char) { '0' <= c <= '9' }

  predicate IsAsciiUpper(c: char) { 'A' <= c <= 'Z' }

  predicate IsAsciiLetter(c: char) { 'A' <= c <= 'Z' || 'a' <= c <= 'z' }

  predicate IsLatinLetter(c: char) {
    'À' <= c <= 'ÿ' && c != '×' && c != '÷'
  }

  predicate IsLetter(c: char) { IsAsciiLetter(c) || IsLatinLetter(c) }

  /** The Latin-1 signs Python counts as alphanumeric although they are
      neither letters of the Latin-1 block above nor decimal digits: the
      ordinal indicators ª and º, the micro sign µ, the superscripts ², ³,
      ¹ and the fractions ¼, ½, ¾. */
  predicate IsAlnumSign(c: char) {
    c == 'ª' || c == 'µ' || c == 'º' || c == '²' || c == '³' || c == '¹' || '¼' <= c <= '¾'
  }

  /** Python's `\w`. */
  predicate IsWordChar(c: char) { IsLetter(c) || IsDigit(c) || c == '_' || IsAlnumSign(c) }

  /** Python's `\s` (and the separators of `str.split()` / `str.strip()`):
      the ASCII whitespace, the information separators U+001C..U+001F, the
      next-line control U+0085 and the no-break space U+00A0. */
  predicate IsSpace(c: char) {
    c == ' ' || '\t' <= c <= '\r' || '\U{1C}' <= c <= '\U{1F}' || c == '\U{85}' || c == '\U{A0}'
  }

  function UpperChar(c: char): char {
    if 'a' <= c <= 'z' then (c as int - 32) as char
    else if 'à' <= c <= 'þ' && c != '÷' then (c as int - 32) as char
    else c
  }

  function LowerChar(c: char): char {
    if 'A' <= c <= 'Z' then (c as int + 32) as char
    else if 'À' <= c <= 'Þ' && c != '×' then (c as int + 32) as char
    else c
  }

  /** A combining mark (the block of combining diacritical marks, which is
      where NFD and NFKD put the accents of Latin letters; the Unicode
      category Mn of the pipeline's accent filters). */
  predicate Combinante(ch: char) { '\U{0300}' <= ch <= '\U{036F}' }

  function NaoCombinante(ch: char): bool { !Combinante(ch) }

  /** `str.upper()`. */
  function Upper(s: string): string {
    seq(|s|, i requires 0 <= i < |s| => UpperChar(s[i]))
  }

  /** `str.lower()`. */
  function Lower(s: string): string {
    seq(|s|, i requires 0 <= i < |s| => LowerChar(s[i]))
  }

  predicate IsUpperText(s: string) { forall i :: 0 <= i < |s| ==> UpperChar(s[i]) == s[i] }

  lemma UpperIsUpper(s: string)
    ensures IsUpperText(Upper(s)) && Upper(Upper(s)) == Upper(s)
  {
  }

  /** Case-insensitive equality as used by `re.IGNORECASE` and `str.upper() ==`. */
  predicate EqualsCI(a: string, b: string) { Upper(a) == Upper(b) }

  // ---------------------------------------------------------------------------
  // Substrings
  // ---------------------------------------------------------------------------

  predicate OccursAt(s: string, sub: string, i: int) {
    0 <= i && i + |sub| <= |s| && s[i..i + |sub|] == sub
  }

  /** `s.find(sub, i)`: the first occurrence of `sub` at or after `i`, or
      -1 when there is none. */
  function FindFrom(s: string, sub: string, i: nat): (k: int)
    ensures k == -1 || (i <= k && OccursAt(s, sub, k))
    ensures k == -1 ==> forall j :: i <= j ==> !OccursAt(s, sub, j)
    ensures k >= 0 ==> forall j :: i <= j < k ==> !OccursAt(s, sub, j)
    decreases |s| - i
  {
    if i + |sub| > |s| then -1
    else if s[i..i + |sub|] == sub then i
    else FindFrom(s, sub, i + 1)
  }

  /** `s.find(sub)`. */
  function Find(s: string, sub: string): int { FindFrom(s, sub, 0) }

  /** `sub in s`. */
  predicate Contains(s: string, sub: string) {
    exists i :: 0 <= i <= |s| - |sub| && OccursAt(s, sub, i)
  }

  /** `s.str.contains(sub, case=False)` with a literal pattern. */
  predicate ContainsCI(s: string, sub: string) { Contains(Upper(s), Upper(sub)) }

  predicate ContainsChar(s: string, c: char) { c in s }

  predicate HasDigit(s: string) { exists i :: 0 <= i < |s| && IsDigit(s[i]) }

  predicate AllDigits(s: string) { forall i :: 0 <= i < |s| ==> IsDigit(s[i]) }

  predicate StartsWith(s: string, p: string) { |p| <= |s| && s[..|p|] == p }

  predicate EndsWith(s: string, p: string) { |p| <= |s| && s[|s| - |p|..] == p }

  // ---------------------------------------------------------------------------
  // Filtering and padding
  // ---------------------------------------------------------------------------

  /** `re.sub(r'\D', '', s)`: the digits of `s`, in order. */
  function KeepDigits(s: string): (r: string)
    ensures AllDigits(r) && |r| <= |s|
    ensures AllDigits(s) ==> r == s
  {
    if |s| == 0 then ""
    else (if IsDigit(s[0]) then [s[0]] else "") + KeepDigits(s[1..])
  }

  function Repeat(c: char, n: nat): (r: string)
    ensures |r| == n && forall i :: 0 <= i < n ==> r[i] == c
  {
    if n == 0 then "" else [c] + Repeat(c, n - 1)
  }

  /** `str.zfill(n)` on an unsigned digit string. */
  function ZFill(s: string, n: nat): (r: string)
    ensures |r| == if |s| >= n then |s| else n
    ensures EndsWith(r, s)
    ensures forall i :: 0 <= i < |r| - |s| ==> r[i] == '0'
  {
    if |s| >= n then s else Repeat('0', n - |s|) + s
  }

  predicate AllZeros(s: string) { forall i :: 0 <= i < |s| ==> s[i] == '0' }

  /** `str.replace(a, b)` for single characters. */
  function ReplaceChar(s: string, a: char, b: char): (r: string)
    ensures |r| == |s|
    ensures a != b ==> a !in r
    ensures forall i :: 0 <= i < |s| ==> r[i] == (if s[i] == a then b else s[i])
  {
    seq(|s|, i requires 0 <= i < |s| => if s[i] == a then b else s[i])
  }

  /** `str.replace(c, "")` for a single character. */
  function RemoveChar(s: string, c: char): (r: string)
    ensures c !in r && |r| <= |s|
    ensures c !in s ==> r == s
  {
    if |s| == 0 then "" else (if s[0] == c then "" else [s[0]]) + RemoveChar(s[1..], c)
  }

  /** Removing a character distributes over concatenation. */
  lemma {:induction false} RemoveCharAppend(a: string, b: string, c: char)
    ensures RemoveChar(a + b, c) == RemoveChar(a, c) + RemoveChar(b, c)
  {
    if |a| > 0 {
      assert (a + b)[0] == a[0] && (a + b)[1..] == a[1..] + b;
      RemoveCharAppend(a[1..], b, c);
    } else {
      assert a + b == b;
    }
  }

  // ---------------------------------------------------------------------------
  // Trimming
  // ---------------------------------------------------------------------------

  /** `str.lstrip(chars)`. */
  function TrimLeftSet(s: string, cs: set<char>): (r: string)
    ensures |r| <= |s|
    ensures |r| == 0 || r[0] !in cs
  {
    if |s| > 0 && s[0] in cs then TrimLeftSet(s[1..], cs) else s
  }

  /** `str.rstrip(chars)`. */
  function TrimRightSet(s: string, cs: set<char>): (r: string)
    ensures |r| <= |s|
    ensures |r| == 0 || r[|r| - 1] !in cs
  {
    if |s| > 0 && s[|s| - 1] in cs then TrimRightSet(s[..|s| - 1], cs) else s
  }

  lemma TrimRightSetPrefix(s: string, cs: set<char>)
    ensures TrimRightSet(s, cs) == s[..|TrimRightSet(s, cs)|]
  {
  }

  /** `str.strip(chars)`. */
  function StripSet(s: string, cs: set<char>): (r: string)
    ensures |r| == 0 || (r[0] !in cs && r[|r| - 1] !in cs)
    ensures |r| <= |s|
  {
    var l := TrimLeftSet(s, cs);
    var r := TrimRightSet(l, cs);
    assert |r| == 0 || r[0] !in cs by {
      if |r| > 0 { TrimRightSetPrefix(l, cs); assert r[0] == l[0]; }
    }
    r
  }

  // ---------------------------------------------------------------------------
  // Whitespace: `str.strip()`, `str.split()`, `" ".join(...)`, `re.sub(r'\s+', ' ', ...)`
  // ---------------------------------------------------------------------------

  function TrimLeftSp(s: string): (r: string)
    ensures |r| <= |s|
    ensures |r| == 0 || !IsSpace(r[0])
  {
    if |s| > 0 && IsSpace(s[0]) then TrimLeftSp(s[1..]) else s
  }
  function TrimRightSp(s: string): (r: string)
    ensures |r| <= |s|
    ensures |r| == 0 || !IsSpace(r[|r| - 1])
  {
    if |s| > 0 && IsSpace(s[|s| - 1]) then TrimRightSp(s[..|s| - 1]) else s
  }
  /** `str.strip()`. */
  function Strip(s: string): (r: string)
    ensures |r| == 0 || (!IsSpace(r[0]) && !IsSpace(r[|r| - 1]))
  {
    var l := TrimLeftSp(s);
    var r := TrimRightSp(l);
    assert |r| == 0 || !IsSpace(r[0]) by {
      if |r| > 0 { TrimRightPrefix(l); assert r[0] == l[0]; }
    }
    r
  }
  /** Text without whitespace is its own `strip()`. */
  lemma StripNoSpace(s: string)
    requires forall i :: 0 <= i < |s| ==> !IsSpace(s[i])
    ensures Strip(s) == s
  {
  }

  lemma TrimRightPrefix(s: string)
    ensures TrimRightSp(s) == s[..|TrimRightSp(s)|]
  {
  }
  lemma TrimLeftSuffix(s: string)
    ensures TrimLeftSp(s) == s[|s| - |TrimLeftSp(s)|..]
  {
  }
  function WordLen(t: string): (n: nat)
    ensures n <= |t|
  {
    if |t| == 0 || IsSpace(t[0]) then 0 else 1 + WordLen(t[1..])
  }
  predicate IsWord(w: string) { |w| > 0 && forall i :: 0 <= i < |w| ==> !IsSpace(w[i]) }
  lemma WordLenFacts(t: string)
    ensures forall i :: 0 <= i < WordLen(t) ==> !IsSpace(t[i])
    ensures WordLen(t) == |t| || IsSpace(t[WordLen(t)])
  {
  }
  /** `str.split()` with no argument: the maximal runs of non-whitespace. */
  function Split(s: string): (ws: seq<string>)
    ensures forall k :: 0 <= k < |ws| ==> IsWord(ws[k])
    decreases |s|
  {
    var t := TrimLeftSp(s);
    if |t| == 0 then []
    else
      var n := WordLen(t);
      assert n > 0;
      WordLenFacts(t);
      var w := t[..n];
      assert IsWord(w);
      [w] + Split(t[n..])
  }
  /** `sep.join(ws)`. */
  function Join(ws: seq<string>, sep: string): string {
    if |ws| == 0 then ""
    else if |ws| == 1 then ws[0]
    else ws[0] + sep + Join(ws[1..], sep)
  }
  function JoinSpace(ws: seq<string>): string { Join(ws, " ") }

  lemma {:induction false} WordLenOfWordThenRest(w: string, rest: string)
    requires IsWord(w)
    requires |rest| == 0 || IsSpace(rest[0])
    ensures WordLen(w + rest) == |w|
    decreases |w|
  {
    var x := w + rest;
    assert x[0] == w[0] && !IsSpace(x[0]);
    assert WordLen(x) == 1 + WordLen(x[1..]);
    if |w| > 1 {
      assert x[1..] == w[1..] + rest;
      assert IsWord(w[1..]) by {
        forall i | 0 <= i < |w| - 1 ensures !IsSpace(w[1..][i]) {
          assert w[1..][i] == w[i + 1];
        }
      }
      WordLenOfWordThenRest(w[1..], rest);
    } else {
      assert x[1..] == rest;
    }
  }

  /** The words of a space-joined word list are that list. */
  lemma {:induction false} SplitJoin(ws: seq<string>)
    requires forall k :: 0 <= k < |ws| ==> IsWord(ws[k])
    ensures Split(JoinSpace(ws)) == ws
    decreases |ws|
  {
    if |ws| == 0 {
    } else if |ws| == 1 {
      var w := ws[0];
      assert w + "" == w;
      WordLenOfWordThenRest(w, "");
      assert w[|w|..] == "";
      assert TrimLeftSp("") == "";
    } else {
      var w := ws[0];
      var rest := JoinSpace(ws[1..]);
      var s := w + (" " + rest);
      assert JoinSpace(ws) == s;
      assert TrimLeftSp(s) == s;
      WordLenOfWordThenRest(w, " " + rest);
      assert s[..|w|] == w;
      assert s[|w|..] == " " + rest;
      assert TrimLeftSp(" " + rest) == TrimLeftSp(rest) by {
        assert (" " + rest)[1..] == rest;
      }
      SplitJoin(ws[1..]);
      assert Split(" " + rest) == Split(rest);
      assert ws == [w] + ws[1..];
    }
  }

  predicate NoDoubleSpace(s: string) { forall i :: 0 <= i < |s| - 1 ==> !(s[i] == ' ' && s[i + 1] == ' ') }
  predicate OnlyPlainSpaces(s: string) { forall i :: 0 <= i < |s| ==> IsSpace(s[i]) ==> s[i] == ' ' }
  /** Single plain spaces between words, no whitespace at either end. */
  predicate Normalized(s: string) {
    NoDoubleSpace(s) && OnlyPlainSpaces(s) && (|s| == 0 || (!IsSpace(s[0]) && !IsSpace(s[|s| - 1])))
  }

  lemma {:induction false} JoinSpaceNormalized(ws: seq<string>)
    requires forall k :: 0 <= k < |ws| ==> IsWord(ws[k])
    ensures Normalized(JoinSpace(ws))
    ensures |ws| > 0 ==> |JoinSpace(ws)| > 0
    decreases |ws|
  {
    if |ws| > 1 {
      JoinSpaceNormalized(ws[1..]);
      var w := ws[0];
      var rest := JoinSpace(ws[1..]);
      var s := w + " " + rest;
      assert JoinSpace(ws) == s;
      forall i | 0 <= i < |s|
        ensures IsSpace(s[i]) ==> s[i] == ' '
      {
        if i < |w| { assert s[i] == w[i]; }
        else if i > |w| { assert s[i] == rest[i - |w| - 1]; }
      }
      forall i | 0 <= i < |s| - 1
        ensures !(s[i] == ' ' && s[i + 1] == ' ')
      {
        if i < |w| {
          assert s[i] == w[i];
        } else if i == |w| {
          assert s[i + 1] == rest[0];
        } else {
          assert s[i] == rest[i - |w| - 1] && s[i + 1] == rest[i - |w|];
        }
      }
      assert s[0] == w[0];
      assert s[|s| - 1] == rest[|rest| - 1];
    }
  }
  /** `re.sub(r'\s+', ' ', s)`: every whitespace run becomes one space. */
  function Collapse(s: string): string
    decreases |s|
  {
    if |s| == 0 then ""
    else if IsSpace(s[0]) then " " + Collapse(TrimLeftSp(s))
    else
      var n := WordLen(s);
      assert n > 0;
      s[..n] + Collapse(s[n..])
  }

  function LeadPad(s: string): string {
    if |s| > 0 && IsSpace(s[0]) then " " else ""
  }

  function TrailPad(s: string): string {
    if |s| > 0 && IsSpace(s[|s| - 1]) && |TrimLeftSp(s)| > 0 then " " else ""
  }

  lemma TrimLeftIdem(s: string)
    ensures TrimLeftSp(TrimLeftSp(s)) == TrimLeftSp(s)
  {
  }

  lemma AllSpaceWhenTrimmedEmpty(s: string)
    requires |TrimLeftSp(s)| == 0
    ensures forall i :: 0 <= i < |s| ==> IsSpace(s[i])
  {
    if |s| > 0 {
      AllSpaceWhenTrimmedEmpty(s[1..]);
      assert forall i :: 1 <= i < |s| ==> s[i] == s[1..][i - 1];
    }
  }

  /** `re.sub(r'\s+', ' ', s)` is the normal form of `s`, padded by at most
      one space at each end. */
  lemma {:induction false} CollapseShape(s: string)
    ensures Collapse(s) == LeadPad(s) + JoinSpace(Split(s)) + TrailPad(s)
    decreases |s|, 1
  {
    if |s| == 0 {
    } else if IsSpace(s[0]) {
      CollapseShapeSpace(s);
    } else {
      CollapseShapeWord(s);
    }
  }

  lemma {:induction false} CollapseShapeSpace(s: string)
    requires |s| > 0 && IsSpace(s[0])
    ensures Collapse(s) == LeadPad(s) + JoinSpace(Split(s)) + TrailPad(s)
    decreases |s|, 0
  {
    var t := TrimLeftSp(s);
    SplitTrim(s);
    TrailPadTrim(s);
    CollapseShape(t);
    assert LeadPad(t) == "";
    SpaceAssoc(JoinSpace(Split(t)), TrailPad(t));
  }

  lemma SplitTrim(s: string)
    ensures Split(s) == Split(TrimLeftSp(s))
  {
    TrimLeftIdem(s);
  }

  lemma TrailPadTrim(s: string)
    ensures TrailPad(s) == TrailPad(TrimLeftSp(s))
  {
    var t := TrimLeftSp(s);
    TrimLeftIdem(s);
    if |t| > 0 {
      TrimLeftSuffix(s);
      assert s[|s| - 1] == t[|t| - 1];
    }
  }

  lemma SpaceAssoc(j: string, t: string)
    ensures " " + ("" + j + t) == " " + j + t
  {
  }

  lemma {:induction false} CollapseShapeWord(s: string)
    requires |s| > 0 && !IsSpace(s[0])
    ensures Collapse(s) == LeadPad(s) + JoinSpace(Split(s)) + TrailPad(s)
    decreases |s|, 0
  {
    var n := WordLen(s);
    var w := s[..n];
    var rest := s[n..];
    assert IsWord(w) && s == w + rest && (|rest| == 0 || IsSpace(rest[0])) by { WordLenFacts(s); }
    assert Split(s) == [w] + Split(rest) by { assert TrimLeftSp(s) == s; }
    assert Collapse(s) == w + Collapse(rest);
    CollapseShape(rest);
    if |Split(rest)| == 0 {
      WordThenBlank(s, w, rest);
    } else {
      WordThenWords(s, w, rest);
    }
  }

  lemma WordThenBlank(s: string, w: string, rest: string)
    requires IsWord(w) && s == w + rest && (|rest| == 0 || IsSpace(rest[0]))
    requires Split(s) == [w] + Split(rest) && |Split(rest)| == 0
    requires Collapse(s) == w + Collapse(rest)
    requires Collapse(rest) == LeadPad(rest) + JoinSpace(Split(rest)) + TrailPad(rest)
    ensures Collapse(s) == LeadPad(s) + JoinSpace(Split(s)) + TrailPad(s)
  {
    assert TrailPad(rest) == "" && TrailPad(s) == LeadPad(rest) by { TrailOfWordOnly(s, w, rest); }
    assert JoinSpace(Split(s)) == w by { assert Split(s) == [w]; }
    assert LeadPad(s) == "" by { assert s[0] == w[0]; }
  }

  lemma JoinCons(w: string, ws: seq<string>)
    requires |ws| > 0
    ensures JoinSpace([w] + ws) == w + " " + JoinSpace(ws)
  {
    assert ([w] + ws)[1..] == ws;
  }

  lemma TrailPadSameEnd(s: string, rest: string)
    requires |rest| > 0 && |s| >= |rest| && s[|s| - |rest|..] == rest
    requires |TrimLeftSp(s)| > 0 && |TrimLeftSp(rest)| > 0
    ensures TrailPad(s) == TrailPad(rest)
  {
    assert s[|s| - 1] == rest[|rest| - 1];
  }

  lemma WordThenWords(s: string, w: string, rest: string)
    requires IsWord(w) && s == w + rest && (|rest| == 0 || IsSpace(rest[0]))
    requires Split(s) == [w] + Split(rest) && |Split(rest)| > 0
    requires Collapse(s) == w + Collapse(rest)
    requires Collapse(rest) == LeadPad(rest) + JoinSpace(Split(rest)) + TrailPad(rest)
    ensures Collapse(s) == LeadPad(s) + JoinSpace(Split(s)) + TrailPad(s)
  {
    var ws := Split(rest);
    var j := JoinSpace(ws);
    var t := TrailPad(rest);
    assert LeadPad(rest) == " " by { assert |TrimLeftSp(rest)| > 0; }
    assert LeadPad(s) == "" by { assert s[0] == w[0]; }
    JoinCons(w, ws);
    assert TrimLeftSp(s) == s by { assert s[0] == w[0]; }
    assert s[|s| - |rest|..] == rest;
    TrailPadSameEnd(s, rest);
    ConcatAssoc(w, j, t);
  }

  lemma ConcatAssoc(w: string, j: string, t: string)
    ensures w + (" " + j + t) == "" + (w + " " + j) + t
  {
  }

  lemma TrailOfWordOnly(s: string, w: string, rest: string)
    requires s == w + rest && IsWord(w) && |Split(rest)| == 0
    requires |rest| == 0 || IsSpace(rest[0])
    requires |Split(s)| > 0
    ensures TrailPad(rest) == "" && TrailPad(s) == LeadPad(rest)
  {
    if |rest| == 0 {
      assert s[|s| - 1] == w[|w| - 1];
    } else {
      assert TrimLeftSp(rest) == TrimLeftSp(rest[1..]);
      AllSpaceWhenTrimmedEmpty(rest);
      assert s[|s| - 1] == rest[|rest| - 1];
    }
  }

  lemma StripPadded(lead: string, j: string, trail: string)
    requires lead == "" || lead == " "
    requires trail == "" || trail == " "
    requires Normalized(j)
    ensures Strip(lead + j + trail) == j
  {
    if |j| == 0 {
      StripBlank(lead, trail);
      assert lead + j + trail == lead + trail;
    } else {
      TrimLeftPadded(lead, j, trail);
      TrimRightPadded(j, trail);
    }
  }

  lemma StripBlank(lead: string, trail: string)
    requires lead == "" || lead == " "
    requires trail == "" || trail == " "
    ensures Strip(lead + trail) == ""
  {
    var x := lead + trail;
    assert TrimLeftSp(x) == "" by {
      if |x| == 2 { assert x[1..] == " "; assert x[1..][1..] == ""; }
      else if |x| == 1 { assert x[1..] == ""; }
    }
  }

  lemma TrimLeftPadded(lead: string, j: string, trail: string)
    requires lead == "" || lead == " "
    requires |j| > 0 && !IsSpace(j[0])
    ensures TrimLeftSp(lead + j + trail) == j + trail
  {
    var x := lead + j + trail;
    if lead == " " {
      assert x[1..] == j + trail;
      assert (j + trail)[0] == j[0];
    } else {
      assert x == j + trail;
      assert x[0] == j[0];
    }
  }

  lemma TrimRightPadded(j: string, trail: string)
    requires trail == "" || trail == " "
    requires |j| > 0 && !IsSpace(j[|j| - 1])
    ensures TrimRightSp(j + trail) == j
  {
    var x := j + trail;
    if trail == " " {
      assert x[..|x| - 1] == j;
    } else {
      assert x == j;
    }
  }

  /** `re.sub(r'\s+', ' ', s).strip()` joins the words of `s` by single spaces. */
  lemma CollapseStrip(s: string)
    ensures Strip(Collapse(s)) == JoinSpace(Split(s))
  {
    CollapseShape(s);
    JoinSpaceNormalized(Split(s));
    StripPadded(LeadPad(s), JoinSpace(Split(s)), TrailPad(s));
  }
  /** Normalising twice normalises once. */
  lemma NormalizeSpacesIdempotent(s: string)
    ensures NormalizeSpaces(NormalizeSpaces(s)) == NormalizeSpaces(s)
  {
    CollapseStrip(NormalizeSpaces(s));
    CollapseStrip(s);
  }

  /** Normalised text is its own whitespace normalisation. */
  lemma NormalizedFixed(s: string)
    requires Normalized(s)
    ensures NormalizeSpaces(s) == s
  {
    JoinSplitNormalized(s);
    CollapseStrip(s);
  }

  /** Normalised text is the space-joined list of its words. */
  lemma {:induction false} JoinSplitNormalized(s: string)
    requires Normalized(s)
    ensures JoinSpace(Split(s)) == s
    decreases |s|
  {
    if |s| > 0 {
      var n := WordLen(s);
      if n == |s| {
        WordLenFacts(s);
        SplitWord(s);
      } else {
        var rest := NormalizedTail(s);
        JoinSplitNormalized(rest);
        SplitWordTail(s, rest);
        JoinCons(s[..n], Split(rest));
      }
    }
  }

  lemma SplitWord(w: string)
    requires IsWord(w)
    ensures Split(w) == [w]
  {
    WordLenWord(w);
    assert TrimLeftSp(w) == w;
    assert w[..|w|] == w && w[|w|..] == "";
    assert Split("") == [];
  }

  /** After the first word of normalised text that is not all of it come
      one plain space and normalised, non-empty text. */
  lemma NormalizedTail(s: string) returns (rest: string)
    requires Normalized(s) && |s| > 0 && WordLen(s) < |s|
    ensures WordLen(s) + 1 < |s| && rest == s[WordLen(s) + 1..]
    ensures s == s[..WordLen(s)] + " " + rest
    ensures Normalized(rest) && |rest| > 0 && !IsSpace(rest[0])
  {
    var n := WordLen(s);
    WordLenFacts(s);
    assert s[n] == ' ';
    rest := s[n + 1..];
    assert !IsSpace(rest[0]) by { assert rest[0] == s[n + 1]; }
    assert forall i :: 0 <= i < |rest| ==> rest[i] == s[n + 1 + i];
  }

  lemma SplitWordTail(s: string, rest: string)
    requires |s| > 0 && !IsSpace(s[0]) && WordLen(s) + 1 < |s| && rest == s[WordLen(s) + 1..]
    requires s[WordLen(s)] == ' ' && |rest| > 0 && !IsSpace(rest[0])
    ensures Split(s) == [s[..WordLen(s)]] + Split(rest) && |Split(rest)| > 0
  {
    var n := WordLen(s);
    WordLenFacts(s);
    assert TrimLeftSp(s) == s;
    assert s[n..] == " " + rest;
    assert TrimLeftSp(" " + rest) == TrimLeftSp(rest) by { assert (" " + rest)[1..] == rest; }
    assert TrimLeftSp(rest) == rest;
  }

  /** A single word is its own whitespace normalisation. */
  lemma NormalizeSpacesWord(w: string)
    requires IsWord(w)
    ensures NormalizeSpaces(w) == w
  {
    SplitWord(w);
    CollapseStrip(w);
  }

  lemma {:induction false} WordLenWord(w: string)
    requires forall i :: 0 <= i < |w| ==> !IsSpace(w[i])
    ensures WordLen(w) == |w|
  {
    if |w| > 0 {
      WordLenWord(w[1..]);
    }
  }

  /** The length of the whitespace run that starts at `j` (`\s*`). */
  function SpaceRun(s: string, j: nat): (n: nat)
    ensures j + n <= |s| || n == 0
    ensures forall k :: j <= k < j + n ==> IsSpace(s[k])
    ensures j + n >= |s| || !IsSpace(s[j + n])
    decreases |s| - j
  {
    if j < |s| && IsSpace(s[j]) then 1 + SpaceRun(s, j + 1) else 0
  }

  /** The length of the run of characters with property `p` starting at
      `j`. */
  function CharRun(s: string, j: nat, p: char -> bool): (n: nat)
    ensures j + n <= |s| || n == 0
    ensures forall k :: j <= k < j + n ==> p(s[k])
    ensures j + n >= |s| || !p(s[j + n])
    decreases |s| - j
  {
    if j < |s| && p(s[j]) then 1 + CharRun(s, j + 1, p) else 0
  }

  /** Every character of `s` has the property `p`. */
  predicate AllChars(s: string, p: char -> bool) { forall i :: 0 <= i < |s| ==> p(s[i]) }

  /** Collapsing whitespace only adds plain spaces: a property of every
      character and of ' ' is a property of every character after it. */
  lemma {:induction false} CollapseKeeps(s: string, p: char -> bool)
    requires AllChars(s, p) && p(' ')
    ensures AllChars(Collapse(s), p)
    decreases |s|
  {
    if |s| > 0 {
      if IsSpace(s[0]) {
        TrimLeftSuffix(s);
        CollapseKeeps(TrimLeftSp(s), p);
      } else {
        var n := WordLen(s);
        CollapseKeeps(s[n..], p);
        assert Collapse(s) == s[..n] + Collapse(s[n..]);
      }
    }
  }

  /** `strip()` keeps a slice, so it keeps any property of every character. */
  lemma StripKeeps(s: string, p: char -> bool)
    requires AllChars(s, p)
    ensures AllChars(Strip(s), p)
  {
    TrimLeftSuffix(s);
    TrimRightPrefix(TrimLeftSp(s));
  }

  /** Whitespace normalisation keeps any property of every character that
      ' ' has too. */
  lemma NormalizeSpacesKeeps(s: string, p: char -> bool)
    requires AllChars(s, p) && p(' ')
    ensures AllChars(NormalizeSpaces(s), p)
  {
    CollapseKeeps(s, p);
    StripKeeps(Collapse(s), p);
  }

  /** Removing a character keeps any property of every character. */
  lemma {:induction false} RemoveCharKeeps(s: string, c: char, p: char -> bool)
    requires AllChars(s, p)
    ensures AllChars(RemoveChar(s, c), p)
  {
    if |s| > 0 {
      RemoveCharKeeps(s[1..], c, p);
    }
  }

  /** `re.sub(r'\s+', ' ', s).strip()`, the pipeline's usual whitespace cleanup:
      the words of `s` joined by single spaces. */
  function NormalizeSpaces(s: string): (r: string)
    ensures Normalized(r)
    ensures Split(r) == Split(s)
  {
    CollapseStrip(s);
    JoinSpaceNormalized(Split(s));
    SplitJoin(Split(s));
    Strip(Collapse(s))
  }

  // ---------------------------------------------------------------------------
  // Splitting on a separator
  // ---------------------------------------------------------------------------

  /** `str.split(c)`: the pieces between occurrences of `c`, empty ones
      included. */
  function SplitOn(s: string, c: char): (ps: seq<string>)
    ensures |ps| >= 1
    ensures forall k :: 0 <= k < |ps| ==> c !in ps[k]
  {
    if |s| == 0 then [""]
    else
      var rest := SplitOn(s[1..], c);
      if s[0] == c then [""] + rest
      else [[s[0]] + rest[0]] + rest[1..]
  }

  /** Joining the pieces back with the separator gives the text again. */
  lemma {:induction false} JoinSplitOn(s: string, c: char)
    ensures Join(SplitOn(s, c), [c]) == s
  {
    if |s| > 0 {
      JoinSplitOn(s[1..], c);
      var rest := SplitOn(s[1..], c);
      if s[0] == c {
        assert Join([""] + rest, [c]) == "" + [c] + Join(rest, [c]) by {
          assert ([""] + rest)[1..] == rest;
        }
        assert s == [c] + s[1..];
      } else {
        var ps := [[s[0]] + rest[0]] + rest[1..];
        if |rest| == 1 {
          assert Join(rest, [c]) == rest[0];
        } else {
          assert ps[1..] == rest[1..];
          assert Join(rest, [c]) == rest[0] + [c] + Join(rest[1..], [c]);
          assert Join(ps, [c]) == [s[0]] + rest[0] + [c] + Join(rest[1..], [c]);
        }
        assert s == [s[0]] + s[1..];
      }
    }
  }

  lemma {:induction false} SplitOnNoSep(w: string, c: char)
    requires c !in w
    ensures SplitOn(w, c) == [w]
  {
    if |w| > 0 {
      SplitOnNoSep(w[1..], c);
      assert w == [w[0]] + w[1..];
    }
  }

  lemma {:induction false} SplitOnWordSep(w: string, rest: string, c: char)
    requires c !in w
    ensures SplitOn(w + [c] + rest, c) == [w] + SplitOn(rest, c)
  {
    var s := w + [c] + rest;
    if |w| == 0 {
      assert s == [c] + rest && s[1..] == rest;
    } else {
      assert s[0] == w[0] && s[1..] == w[1..] + [c] + rest;
      SplitOnWordSep(w[1..], rest, c);
      assert [w[0]] + w[1..] == w;
    }
  }

  /** Splitting a joined list of separator-free pieces gives the pieces. */
  lemma {:induction false} SplitOnJoin(xs: seq<string>, c: char)
    requires |xs| >= 1 && forall k :: 0 <= k < |xs| ==> c !in xs[k]
    ensures SplitOn(Join(xs, [c]), c) == xs
  {
    if |xs| == 1 {
      SplitOnNoSep(xs[0], c);
    } else {
      SplitOnWordSep(xs[0], Join(xs[1..], [c]), c);
      SplitOnJoin(xs[1..], c);
      assert xs == [xs[0]] + xs[1..];
    }
  }

  /** Text without digits has no digits to keep. */
  lemma {:induction false} KeepDigitsNone(s: string)
    requires forall i :: 0 <= i < |s| ==> !IsDigit(s[i])
    ensures KeepDigits(s) == ""
  {
    if |s| > 0 {
      KeepDigitsNone(s[1..]);
    }
  }

  /** Keeping digits distributes over concatenation. */
  lemma {:induction false} KeepDigitsAppend(a: string, b: string)
    ensures KeepDigits(a + b) == KeepDigits(a) + KeepDigits(b)
  {
    if |a| == 0 {
      assert a + b == b;
    } else {
      assert (a + b)[0] == a[0] && (a + b)[1..] == a[1..] + b;
      KeepDigitsAppend(a[1..], b);
    }
  }

  /** Upper-casing keeps normalised whitespace: it maps no letter to
      whitespace and leaves whitespace alone. */
  lemma UpperNormalized(s: string)
    requires Normalized(s)
    ensures Normalized(Upper(s))
  {
  }

  /** The end of normalised text from a word start on is normalised. */
  lemma NormalizedSuffix(s: string, k: nat)
    requires Normalized(s) && k <= |s| && (k == |s| || !IsSpace(s[k]))
    ensures Normalized(s[k..])
  {
    var t := s[k..];
    assert forall i :: 0 <= i < |t| ==> t[i] == s[k + i];
  }

  /** Text with no whitespace at either end is its own `strip()`. */
  lemma StripEnds(s: string)
    requires |s| == 0 || (!IsSpace(s[0]) && !IsSpace(s[|s| - 1]))
    ensures Strip(s) == s
  {
  }
}
