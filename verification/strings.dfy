/** Text helpers shared by the cleaners: character classes, ASCII case
    folding, substring search, stripping and whitespace normalisation. */
module Strings {

  /** The non-breaking space U+00A0. */
  const Nbsp: char := '\U{A0}'

  /** The characters Python's `str.isspace` (and so the regex class `\s`
      and `str.strip`) treats as whitespace. */
  predicate IsSpace(c: char) {
    || c == ' ' || ('\t' <= c <= '\r') || ('\U{1C}' <= c <= '\U{1F}') || c == '\U{85}' || c == Nbsp
    || c == '\U{1680}' || ('\U{2000}' <= c <= '\U{200A}') || c == '\U{2028}' || c == '\U{2029}'
    || c == '\U{202F}' || c == '\U{205F}' || c == '\U{3000}'
  }

  /** The regex class `\d`, restricted to ASCII digits. */
  predicate IsDigit(c: char) {
    '0' <= c <= '9'
  }

  /** `str.lower` on one character, restricted to ASCII letters. */
  function LowerChar(c: char): char {
    if 'A' <= c <= 'Z' then (c as int + 32) as char else c
  }

  function Lower(s: string): string {
    seq(|s|, k requires 0 <= k < |s| => LowerChar(s[k]))
  }

  /** Python's `n in h` for strings. */
  predicate Contains(h: string, n: string) {
    exists i | 0 <= i <= |h| - |n| :: n <= h[i..]
  }

  /** Python's `s.replace(c, "")` for a one-character `c`. */
  function Remove(s: string, c: char): (r: string)
    ensures forall k | 0 <= k < |r| :: r[k] != c
    ensures |r| <= |s|
  {
    if |s| == 0 then ""
    else (if s[0] == c then "" else [s[0]]) + Remove(s[1..], c)
  }

  /** Python's `sep.join(parts)`. */
  function Join(sep: string, parts: seq<string>): string {
    if |parts| == 0 then ""
    else if |parts| == 1 then parts[0]
    else parts[0] + sep + Join(sep, parts[1..])
  }

  /** The characters of `s` that are not whitespace, in order. */
  function NonSpace(s: string): string {
    if |s| == 0 then ""
    else (if IsSpace(s[0]) then "" else [s[0]]) + NonSpace(s[1..])
  }

  lemma {:induction false} NonSpaceAppend(a: string, b: string)
    ensures NonSpace(a + b) == NonSpace(a) + NonSpace(b)
  {
    if |a| == 0 {
      assert a + b == b;
    } else {
      assert (a + b)[1..] == a[1..] + b;
      NonSpaceAppend(a[1..], b);
    }
  }

  predicate AllSpace(s: string) {
    forall k | 0 <= k < |s| :: IsSpace(s[k])
  }

  lemma {:induction false} NonSpaceOfAllSpace(s: string)
    requires AllSpace(s)
    ensures NonSpace(s) == ""
  {
    if |s| > 0 {
      NonSpaceOfAllSpace(s[1..]);
    }
  }

  /** The number of whitespace characters `s` starts with. */
  function LeadingSpace(s: string): (n: nat)
    ensures n <= |s|
    ensures forall k | 0 <= k < n :: IsSpace(s[k])
    ensures n == |s| || !IsSpace(s[n])
  {
    if |s| > 0 && IsSpace(s[0]) then
      var n := 1 + LeadingSpace(s[1..]);
      assert forall k | 1 <= k < n :: s[k] == s[1..][k - 1];
      n
    else 0
  }

  /** The number of whitespace characters `s` ends with. */
  function TrailingSpace(s: string): (n: nat)
    ensures n <= |s|
    ensures forall k | |s| - n <= k < |s| :: IsSpace(s[k])
    ensures n == |s| || !IsSpace(s[|s| - n - 1])
  {
    if |s| > 0 && IsSpace(s[|s| - 1]) then
      var n := 1 + TrailingSpace(s[..|s| - 1]);
      assert forall k | |s| - n <= k < |s| - 1 :: s[k] == s[..|s| - 1][k];
      n
    else 0
  }

  /** `s` with its leading whitespace removed. */
  function StripLeft(s: string): (r: string)
    ensures |r| <= |s| && r == s[|s| - |r|..]
    ensures AllSpace(s[..|s| - |r|])
    ensures |r| == 0 || !IsSpace(r[0])
  {
    s[LeadingSpace(s)..]
  }

  /** `s` with its trailing whitespace removed. */
  function StripRight(s: string): (r: string)
    ensures |r| <= |s| && r == s[..|r|]
    ensures AllSpace(s[|r|..])
    ensures |r| == 0 || !IsSpace(r[|r| - 1])
  {
    s[..|s| - TrailingSpace(s)]
  }

  /** Python's `s.strip()`: only surrounding whitespace is removed (the
      result is the infix of `s` after its leading whitespace), and none is
      left at either end. */
  function Strip(s: string): (r: string)
    ensures |r| == 0 || (!IsSpace(r[0]) && !IsSpace(r[|r| - 1]))
    ensures var a := |s| - |StripLeft(s)|;
              && a + |r| <= |s| && s[a..a + |r|] == r
              && AllSpace(s[..a]) && AllSpace(s[a + |r|..])
  {
    var left := StripLeft(s);
    var r := StripRight(left);
    var a := |s| - |left|;
    SlicesOfSuffix(s, a, |r|);
    r
  }

  lemma SlicesOfSuffix(s: string, a: nat, n: nat)
    requires a + n <= |s|
    ensures s[a..][..n] == s[a..a + n] && s[a..][n..] == s[a + n..]
  {
  }

  lemma StripKeepsNonSpace(s: string)
    ensures NonSpace(Strip(s)) == NonSpace(s)
  {
    var r := Strip(s);
    var a := |s| - |StripLeft(s)|;
    ThreeParts(s, a, a + |r|);
    NonSpaceBetweenSpaces(s[..a], r, s[a + |r|..]);
  }

  /** Whitespace around a text adds no non-space character. */
  lemma NonSpaceBetweenSpaces(pre: string, r: string, post: string)
    requires AllSpace(pre) && AllSpace(post)
    ensures NonSpace(pre + r + post) == NonSpace(r)
  {
    NonSpaceAppend(pre + r, post);
    NonSpaceAppend(pre, r);
    NonSpaceOfAllSpace(pre);
    NonSpaceOfAllSpace(post);
  }

  lemma ThreeParts(s: string, a: nat, b: nat)
    requires a <= b <= |s|
    ensures s == s[..a] + s[a..b] + s[b..]
  {
    assert s[..b] == s[..a] + s[a..b];
  }

  /** Every non-breaking space replaced by a plain space. */
  function ReplaceNbsp(s: string): (r: string)
    ensures |r| == |s|
    ensures forall k | 0 <= k < |r| :: r[k] != Nbsp && (IsSpace(r[k]) <==> IsSpace(s[k]))
    ensures forall k | 0 <= k < |r| :: !IsSpace(s[k]) ==> r[k] == s[k]
  {
    seq(|s|, k requires 0 <= k < |s| => if s[k] == Nbsp then ' ' else s[k])
  }

  /** Every whitespace character is a plain space and no two are adjacent. */
  predicate SingleSpaced(t: string) {
    && (forall k | 0 <= k < |t| :: IsSpace(t[k]) ==> t[k] == ' ')
    && (forall k | 0 <= k < |t| - 1 :: !(IsSpace(t[k]) && IsSpace(t[k + 1])))
  }

  /** The shape of every text `_normalise_text` returns. */
  predicate IsNormal(t: string) {
    SingleSpaced(t) && (|t| == 0 || (!IsSpace(t[0]) && !IsSpace(t[|t| - 1])))
  }

  /** `re.sub(r"\s+", " ", s)`; `inRun` says a space has just been emitted
      for the run that `s` continues. */
  function Collapse(s: string, inRun: bool): (r: string)
    ensures SingleSpaced(r)
    ensures inRun ==> |r| == 0 || !IsSpace(r[0])
    ensures NonSpace(r) == NonSpace(s)
  {
    if |s| == 0 then ""
    else if IsSpace(s[0]) then
      if inRun then Collapse(s[1..], true) else " " + Collapse(s[1..], true)
    else [s[0]] + Collapse(s[1..], false)
  }

  lemma {:induction false} SingleSpacedInfix(s: string, a: nat, b: nat)
    requires SingleSpaced(s) && a <= b <= |s|
    ensures SingleSpaced(s[a..b])
  {
    var t := s[a..b];
    forall k | 0 <= k < |t| - 1
      ensures !(IsSpace(t[k]) && IsSpace(t[k + 1]))
    {
      assert t[k] == s[a + k] && t[k + 1] == s[a + k + 1];
    }
  }

  /** `_normalise_text` on text: NBSP to space, whitespace runs collapsed
      to one space, then stripped. The result has the normal shape, its
      non-whitespace characters are exactly those of `s`, and it has the
      same words as `s`: runs are compressed, never deleted. */
  function Normalise(s: string): (r: string)
    ensures IsNormal(r)
    ensures forall k | 0 <= k < |r| :: r[k] != Nbsp
    ensures NonSpace(r) == NonSpace(s)
    ensures Words(r) == Words(s)
  {
    var collapsed := Collapse(ReplaceNbsp(s), false);
    StripSingleSpaced(collapsed);
    StripKeepsNonSpace(collapsed);
    NonSpaceReplaceNbsp(s);
    NormaliseKeepsWords(s);
    Strip(collapsed)
  }

  /* ---------- words ---------- */

  /** A word: a non-empty run without whitespace. */
  predicate IsWord(w: string) {
    |w| > 0 && forall k | 0 <= k < |w| :: !IsSpace(w[k])
  }

  /** The maximal whitespace-free runs of `s`, in order (Python's
      `s.split()`). */
  function Words(s: string): (r: seq<string>)
    ensures forall i | 0 <= i < |r| :: IsWord(r[i])
    ensures |s| > 0 && !IsSpace(s[0]) ==> |r| > 0
  {
    if |s| == 0 then []
    else if IsSpace(s[0]) then Words(s[1..])
    else
      var rest := Words(s[1..]);
      if |s| > 1 && !IsSpace(s[1]) then
        var w := [s[0]] + rest[0];
        assert forall k | 1 <= k < |w| :: w[k] == rest[0][k - 1];
        [w] + rest[1..]
      else [[s[0]]] + rest
  }

  /** Texts with whitespace in the same places and the same other
      characters have the same words. */
  lemma {:induction false} WordsOfSameShape(a: string, b: string)
    requires |a| == |b|
    requires forall k | 0 <= k < |a| :: IsSpace(a[k]) <==> IsSpace(b[k])
    requires forall k | 0 <= k < |a| :: !IsSpace(a[k]) ==> a[k] == b[k]
    ensures Words(a) == Words(b)
  {
    if |a| > 0 {
      assert forall k | 0 <= k < |a| - 1 :: a[1..][k] == a[k + 1] && b[1..][k] == b[k + 1];
      WordsOfSameShape(a[1..], b[1..]);
    }
  }

  /** A collapsed text starts with a non-space exactly when its input does. */
  lemma CollapseHead(s: string)
    ensures (|Collapse(s, false)| > 0 && !IsSpace(Collapse(s, false)[0])) <==> (|s| > 0 && !IsSpace(s[0]))
  {
  }

  lemma {:induction false} WordsAfterSpace(x: string)
    ensures Words(" " + x) == Words(x)
  {
    assert (" " + x)[1..] == x;
  }

  lemma {:induction false} WordsCollapse(s: string, inRun: bool)
    ensures Words(Collapse(s, inRun)) == Words(s)
  {
    if |s| > 0 {
      WordsCollapse(s[1..], IsSpace(s[0]));
      if IsSpace(s[0]) {
        if !inRun {
          WordsAfterSpace(Collapse(s[1..], true));
        }
      } else {
        var c := Collapse(s[1..], false);
        CollapseHead(s[1..]);
        assert ([s[0]] + c)[1..] == c && ([s[0]] + c)[0] == s[0];
        assert |s| > 1 ==> s[1..][0] == s[1];
        assert |[s[0]] + c| > 1 ==> ([s[0]] + c)[1] == c[0];
      }
    }
  }

  lemma {:induction false} WordsAllSpace(s: string)
    requires AllSpace(s)
    ensures Words(s) == []
  {
    if |s| > 0 {
      WordsAllSpace(s[1..]);
    }
  }

  /** Leading whitespace adds no word. */
  lemma {:induction false} WordsDropSpace(s: string, n: nat)
    requires n <= |s| && AllSpace(s[..n])
    ensures Words(s[n..]) == Words(s)
  {
    if n > 0 {
      assert s[0] == s[..n][0];
      assert s[1..][..n - 1] == s[1..n];
      assert s[1..][n - 1..] == s[n..];
      WordsDropSpace(s[1..], n - 1);
    }
  }

  /** Trailing whitespace adds no word. */
  lemma {:induction false} WordsAppendSpace(a: string, b: string)
    requires AllSpace(b)
    ensures Words(a + b) == Words(a)
  {
    if |a| == 0 {
      assert a + b == b;
      WordsAllSpace(b);
    } else {
      assert (a + b)[1..] == a[1..] + b && (a + b)[0] == a[0];
      WordsAppendSpace(a[1..], b);
      if |a| > 1 {
        assert (a + b)[1] == a[1];
      } else if |b| > 0 {
        assert (a + b)[1] == b[0];
      }
    }
  }

  lemma WordsStrip(t: string)
    ensures Words(Strip(t)) == Words(t)
  {
    var left := StripLeft(t);
    WordsDropSpace(t, |t| - |left|);
    var r := StripRight(left);
    assert left == left[..|r|] + left[|r|..];
    WordsAppendSpace(r, left[|r|..]);
  }

  lemma NormaliseKeepsWords(s: string)
    ensures Words(Strip(Collapse(ReplaceNbsp(s), false))) == Words(s)
  {
    WordsOfSameShape(ReplaceNbsp(s), s);
    WordsCollapse(ReplaceNbsp(s), false);
    WordsStrip(Collapse(ReplaceNbsp(s), false));
  }

  /** Stripping a single-spaced text gives a normal one, which holds no
      non-breaking space. */
  lemma StripSingleSpaced(t: string)
    requires SingleSpaced(t)
    ensures IsNormal(Strip(t))
    ensures forall k | 0 <= k < |Strip(t)| :: Strip(t)[k] != Nbsp
  {
    var r := Strip(t);
    var a := |t| - |StripLeft(t)|;
    SingleSpacedInfix(t, a, a + |r|);
  }

  lemma {:induction false} NonSpaceReplaceNbsp(s: string)
    ensures NonSpace(ReplaceNbsp(s)) == NonSpace(s)
  {
    if |s| > 0 {
      assert ReplaceNbsp(s)[1..] == ReplaceNbsp(s[1..]);
      NonSpaceReplaceNbsp(s[1..]);
    }
  }

  /** A single-spaced text that does not start with a space when a run is
      open is left alone by collapsing. */
  lemma {:induction false} CollapseKeepsSingleSpaced(t: string, inRun: bool)
    requires SingleSpaced(t)
    requires inRun ==> |t| == 0 || !IsSpace(t[0])
    ensures Collapse(t, inRun) == t
  {
    if |t| > 0 {
      SingleSpacedInfix(t, 1, |t|);
      assert |t| > 1 && IsSpace(t[0]) ==> !IsSpace(t[1]);
      CollapseKeepsSingleSpaced(t[1..], IsSpace(t[0]));
    }
  }

  /** Normal texts are fixed points of `_normalise_text`. */
  lemma NormalIsFixpoint(t: string)
    requires IsNormal(t)
    ensures Normalise(t) == t
  {
    assert ReplaceNbsp(t) == t;
    CollapseKeepsSingleSpaced(t, false);
    assert Collapse(t, false) == t;
    StripUnpadded(t);
  }

  /** A text with no whitespace at either end is its own `strip()`. */
  lemma StripUnpadded(t: string)
    requires |t| == 0 || (!IsSpace(t[0]) && !IsSpace(t[|t| - 1]))
    ensures Strip(t) == t
  {
    assert LeadingSpace(t) == 0;
    assert StripLeft(t) == t;
    assert TrailingSpace(t) == 0;
    assert StripRight(t) == t;
  }

  /** `_normalise_text` is idempotent. */
  lemma NormaliseIdempotent(s: string)
    ensures Normalise(Normalise(s)) == Normalise(s)
  {
    NormalIsFixpoint(Normalise(s));
  }
}
