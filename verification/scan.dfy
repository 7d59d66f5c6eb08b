/** The three number regexes of the cleaners, as explicit scanners.

      price         `[-+]?\d[\d,]*(?:\.\d+)?`
      rating        `\d+(?:\.\d+)?`
      review count  `\d+`

    `Search` finds the first match the way `re.search` does, and
    `SearchIsRegexSearch` proves that it is the leftmost match and, at that
    position, the longest one: for these patterns, whose quantifiers are all
    greedy and whose optional parts can only lengthen a match, that is the
    match Python's backtracking engine returns. */
module Scan {
  import opened Base
  import opened Strings
  import opened Decimals

  /** A number pattern: an optional leading sign, commas allowed after the
      first digit, an optional `.digits` fraction. */
  datatype Pattern = Pattern(signed: bool, grouped: bool, fraction: bool)

  const PricePattern := Pattern(true, true, true)
  const RatingPattern := Pattern(false, false, true)
  const CountPattern := Pattern(false, false, false)

  predicate IsSign(c: char) {
    c == '-' || c == '+'
  }

  predicate IntChar(p: Pattern, c: char) {
    IsDigit(c) || (p.grouped && c == ',')
  }

  // ---- the language of a pattern, as a regex reads it ----

  predicate IntPart(p: Pattern, w: string) {
    |w| > 0 && IsDigit(w[0]) && forall k | 0 <= k < |w| :: IntChar(p, w[k])
  }

  predicate DigitRun(w: string) {
    |w| > 0 && AllDigits(w)
  }

  predicate Unsigned(p: Pattern, w: string) {
    || IntPart(p, w)
    || (p.fraction && exists q | 0 < q < |w| :: w[q] == '.' && IntPart(p, w[..q]) && DigitRun(w[q + 1..]))
  }

  /** `w` matches the pattern as a whole. */
  predicate Token(p: Pattern, w: string) {
    Unsigned(p, w) || (p.signed && |w| > 0 && IsSign(w[0]) && Unsigned(p, w[1..]))
  }

  // ---- the scanner ----

  /** A match inside a text: `[start, end)`, where the digits begin at
      `digits` (one past `start` when a sign was taken), the integer part
      ends at `intEnd`, and any fraction runs from `intEnd` to `end`. */
  datatype Lexeme = Lexeme(start: nat, digits: nat, intEnd: nat, end: nat)

  /** The first digit at or after `i`, or `|t|` when there is none. */
  function FirstDigit(t: string, i: nat): (d: nat)
    requires i <= |t|
    ensures i <= d <= |t|
    ensures forall k | i <= k < d :: !IsDigit(t[k])
    ensures d < |t| ==> IsDigit(t[d])
    decreases |t| - i
  {
    if i == |t| || IsDigit(t[i]) then i else FirstDigit(t, i + 1)
  }

  /** The end of the longest run of integer-part characters from `i`. */
  function IntRunEnd(p: Pattern, t: string, i: nat): (j: nat)
    requires i <= |t|
    ensures i <= j <= |t|
    ensures forall k | i <= k < j :: IntChar(p, t[k])
    ensures j == |t| || !IntChar(p, t[j])
    decreases |t| - i
  {
    if i < |t| && IntChar(p, t[i]) then IntRunEnd(p, t, i + 1) else i
  }

  /** The scanner's positions obey the pattern: digits begin at the first
      digit of the text, a sign right before them is taken when the pattern
      allows one, the integer part runs as far as it can, and a fraction is
      taken exactly when a `.` and a digit follow it, again as far as it can. */
  predicate Scanned(p: Pattern, t: string, l: Lexeme) {
    && l.start <= l.digits < l.intEnd <= l.end <= |t|
    && (forall k | 0 <= k < l.digits :: !IsDigit(t[k]))
    && IsDigit(t[l.digits])
    && (if p.signed && l.digits > 0 && IsSign(t[l.digits - 1]) then l.start == l.digits - 1 else l.start == l.digits)
    && (forall k | l.digits <= k < l.intEnd :: IntChar(p, t[k]))
    && (l.intEnd == |t| || !IntChar(p, t[l.intEnd]))
    && (if FractionFollows(p, t, l.intEnd)
        then l.intEnd + 1 < l.end
             && (forall k | l.intEnd < k < l.end :: IsDigit(t[k]))
             && (l.end == |t| || !IsDigit(t[l.end]))
        else l.end == l.intEnd)
  }

  predicate FractionFollows(p: Pattern, t: string, i: nat) {
    p.fraction && i + 1 < |t| && t[i] == '.' && IsDigit(t[i + 1])
  }

  /** `re.search` with the pattern: `None` exactly when the text holds no
      digit, otherwise the positions of the first match. */
  function Search(p: Pattern, t: string): (r: Option<Lexeme>)
    ensures r.None? <==> forall k | 0 <= k < |t| :: !IsDigit(t[k])
    ensures r.Some? ==> Scanned(p, t, r.value)
  {
    var d := FirstDigit(t, 0);
    if d == |t| then None
    else
      var start := if p.signed && d > 0 && IsSign(t[d - 1]) then d - 1 else d;
      var intEnd := IntRunEnd(p, t, d);
      var end := if FractionFollows(p, t, intEnd) then IntRunEnd(CountPattern, t, intEnd + 1) else intEnd;
      Some(Lexeme(start, d, intEnd, end))
  }

  // ---- the scanner agrees with the regex ----

  /** Every match begins with a digit, or with a sign and then a digit. */
  lemma TokenStart(p: Pattern, w: string)
    ensures Token(p, w) ==> |w| > 0 && (IsDigit(w[0]) || (p.signed && IsSign(w[0]) && |w| > 1 && IsDigit(w[1])))
  {
    UnsignedStart(p, w);
    if |w| > 0 {
      UnsignedStart(p, w[1..]);
    }
    if |w| > 1 {
      assert w[1..][0] == w[1];
    }
  }

  lemma UnsignedStart(p: Pattern, w: string)
    ensures Unsigned(p, w) ==> |w| > 0 && IsDigit(w[0])
  {
    if Unsigned(p, w) && !IntPart(p, w) {
      var q :| 0 < q < |w| && w[q] == '.' && IntPart(p, w[..q]) && DigitRun(w[q + 1..]);
      assert w[..q][0] == w[0];
    }
  }

  /** The matched text is a match of the pattern. */
  lemma ScannedIsToken(p: Pattern, t: string, l: Lexeme)
    requires Scanned(p, t, l)
    ensures Token(p, t[l.start..l.end])
  {
    var u := t[l.digits..l.end];
    var q := l.intEnd - l.digits;
    assert u[..q] == t[l.digits..l.intEnd];
    assert IntPart(p, u[..q]);
    if l.end > l.intEnd {
      assert u[q] == '.';
      assert u[q + 1..] == t[l.intEnd + 1..l.end];
      assert DigitRun(u[q + 1..]);
    } else {
      assert u == u[..q];
    }
    assert Unsigned(p, u);
    if l.start < l.digits {
      assert t[l.start..l.end][1..] == u;
    } else {
      assert t[l.start..l.end] == u;
    }
  }

  /** No match starts before the scanner's start. */
  lemma NothingEarlier(p: Pattern, t: string, l: Lexeme, i: nat, j: nat)
    requires Scanned(p, t, l)
    requires i < l.start && i <= j <= |t|
    ensures !Token(p, t[i..j])
  {
    var w := t[i..j];
    TokenStart(p, w);
    if |w| > 0 {
      assert w[0] == t[i] && !IsDigit(t[i]);
    }
    if |w| > 1 {
      assert w[1] == t[i + 1];
      if i + 1 < l.digits {
        assert !IsDigit(t[i + 1]);
      } else {
        assert !(p.signed && IsSign(t[i]));
      }
    }
  }

  /** At the scanner's start no longer match exists. */
  lemma NothingLonger(p: Pattern, t: string, l: Lexeme, j: nat)
    requires Scanned(p, t, l)
    requires l.end < j <= |t|
    ensures !Token(p, t[l.start..j])
  {
    var w := t[l.start..j];
    var u := t[l.digits..j];
    UnsignedTooLong(p, t, l, j);
    UnsignedStart(p, w);
    assert w[0] == t[l.start];
    if l.start < l.digits {
      assert w[1..] == u;
      assert !IsDigit(w[0]);
    } else {
      assert w == u;
      assert !IsSign(w[0]);
    }
  }

  /** A `.` that ends an integer part sits exactly where the scanner's
      integer run stops. */
  lemma DotEndsRun(p: Pattern, t: string, d: nat, e: nat, q: nat)
    requires d < e < |t| && d < q < |t|
    requires forall k | d <= k < e :: IntChar(p, t[k])
    requires !IntChar(p, t[e])
    requires t[q] == '.'
    requires forall k | d <= k < q :: IntChar(p, t[k])
    ensures q == e
  {
  }

  /** A fraction-less match starting at the digits cannot outrun the scanner. */
  lemma IntPartTooLong(p: Pattern, t: string, l: Lexeme, j: nat)
    requires Scanned(p, t, l)
    requires l.end < j <= |t|
    ensures !IntPart(p, t[l.digits..j])
  {
    var w := t[l.digits..j];
    assert w[l.intEnd - l.digits] == t[l.intEnd];
    assert !IntChar(p, w[l.intEnd - l.digits]);
  }

  /** Splits a match with a fraction at its `.`. */
  lemma SplitAtDot(p: Pattern, w: string) returns (q: nat)
    requires Unsigned(p, w) && !IntPart(p, w)
    ensures p.fraction && 0 < q < |w| && w[q] == '.' && IntPart(p, w[..q]) && DigitRun(w[q + 1..])
  {
    q :| 0 < q < |w| && w[q] == '.' && IntPart(p, w[..q]) && DigitRun(w[q + 1..]);
  }

  lemma UnsignedTooLong(p: Pattern, t: string, l: Lexeme, j: nat)
    requires Scanned(p, t, l)
    requires l.end < j <= |t|
    ensures !Unsigned(p, t[l.digits..j])
  {
    var u := t[l.digits..j];
    IntPartTooLong(p, t, l, j);
    forall q | 0 < q < |u| && u[q] == '.' && IntPart(p, u[..q])
      ensures !(p.fraction && DigitRun(u[q + 1..]))
    {
      forall k | l.digits <= k < l.digits + q
        ensures IntChar(p, t[k])
      {
        assert u[..q][k - l.digits] == t[k];
      }
      assert u[q] == t[l.digits + q];
      DotEndsRun(p, t, l.digits, l.intEnd, l.digits + q);
      FractionTooLong(p, t, l, j, u[q + 1..]);
    }
  }

  lemma FractionTooLong(p: Pattern, t: string, l: Lexeme, j: nat, f: string)
    requires Scanned(p, t, l)
    requires l.end < j <= |t| && l.intEnd < |t| && t[l.intEnd] == '.'
    requires f == t[l.intEnd + 1..j]
    ensures !(p.fraction && DigitRun(f))
  {
    if p.fraction && |f| > 0 && IsDigit(f[0]) {
      assert f[0] == t[l.intEnd + 1];
      assert FractionFollows(p, t, l.intEnd);
      assert f[l.end - l.intEnd - 1] == t[l.end];
      assert !IsDigit(f[l.end - l.intEnd - 1]);
    }
  }

  /** `Search` is the regex search: with no result no substring matches;
      otherwise its result matches, nothing matches further left, and
      nothing longer matches at the same place. */
  lemma SearchIsRegexSearch(p: Pattern, t: string)
    ensures Search(p, t).None? ==> forall i, j | 0 <= i <= j <= |t| :: !Token(p, t[i..j])
    ensures Search(p, t).Some? ==>
              var l := Search(p, t).value;
              && Token(p, t[l.start..l.end])
              && (forall i, j | 0 <= i < l.start && i <= j <= |t| :: !Token(p, t[i..j]))
              && (forall j | l.end < j <= |t| :: !Token(p, t[l.start..j]))
  {
    match Search(p, t)
    case None =>
      forall i, j | 0 <= i <= j <= |t|
        ensures !Token(p, t[i..j])
      {
        var w := t[i..j];
        TokenStart(p, w);
        if |w| > 0 {
          assert w[0] == t[i];
        }
        if |w| > 1 {
          assert w[1] == t[i + 1];
        }
      }
    case Some(l) =>
      ScannedIsToken(p, t, l);
      forall i, j | 0 <= i < l.start && i <= j <= |t|
        ensures !Token(p, t[i..j])
      {
        NothingEarlier(p, t, l, i, j);
      }
      forall j | l.end < j <= |t|
        ensures !Token(p, t[l.start..j])
      {
        NothingLonger(p, t, l, j);
      }
  }

  /** `t[i..j]` is the match `re.search` reports: it matches, no match
      starts further left, and no longer match starts at `i`. */
  predicate FirstMatch(p: Pattern, t: string, i: nat, j: nat) {
    && i <= j <= |t|
    && Token(p, t[i..j])
    && (forall i', j' | 0 <= i' < i && i' <= j' <= |t| :: !Token(p, t[i'..j']))
    && (forall j' | j < j' <= |t| :: !Token(p, t[i..j']))
  }

  lemma SearchFindsFirstMatch(p: Pattern, t: string)
    requires Search(p, t).Some?
    ensures FirstMatch(p, t, Search(p, t).value.start, Search(p, t).value.end)
  {
    SearchIsRegexSearch(p, t);
  }

  /** A match of the count pattern is a digit run. */
  lemma CountMatchDigits(t: string, l: Lexeme)
    requires Scanned(CountPattern, t, l)
    ensures AllDigits(t[l.start..l.end])
  {
    assert l.start == l.digits && l.end == l.intEnd;
    assert forall k | l.start <= k < l.end :: IntChar(CountPattern, t[k]);
  }

  /** A match holds no comma unless the pattern allows grouping. */
  lemma UngroupedMatchHasNoComma(p: Pattern, t: string, l: Lexeme)
    requires Scanned(p, t, l) && !p.grouped
    ensures Remove(t[l.start..l.end], ',') == t[l.start..l.end]
  {
    RemoveAbsent(t[l.start..l.end], ',');
  }

  // ---- the number a match denotes ----

  lemma {:induction false} RemoveKeepsDigits(s: string)
    requires forall k | 0 <= k < |s| :: IsDigit(s[k]) || s[k] == ','
    ensures AllDigits(Remove(s, ','))
  {
    if |s| > 0 {
      RemoveKeepsDigits(s[1..]);
      var r := Remove(s, ',');
      var rest := Remove(s[1..], ',');
      assert r == (if s[0] == ',' then "" else [s[0]]) + rest;
    }
  }

  /** The digits of the integer part with its commas deleted. */
  function WholeDigits(p: Pattern, t: string, l: Lexeme): (w: string)
    requires Scanned(p, t, l)
    ensures AllDigits(w)
  {
    RemoveKeepsDigits(t[l.digits..l.intEnd]);
    Remove(t[l.digits..l.intEnd], ',')
  }

  function FractionDigits(p: Pattern, t: string, l: Lexeme): (f: string)
    requires Scanned(p, t, l)
    ensures AllDigits(f)
  {
    if l.end > l.intEnd then t[l.intEnd + 1..l.end] else ""
  }

  /** Python's `float(...)` of the matched text with its commas deleted:
      the integer digits and the fraction digits read as one number scaled
      by the fraction's length, negated by a leading minus. */
  function LexemeValue(p: Pattern, t: string, l: Lexeme): Decimal
    requires Scanned(p, t, l)
  {
    var whole := WholeDigits(p, t, l);
    var frac := FractionDigits(p, t, l);
    DigitsValueAppend(whole, frac);
    var magnitude: int := DigitsValue(whole + frac);
    Decimal(if l.start < l.digits && t[l.start] == '-' then -magnitude else magnitude, |frac|)
  }

  // ---- the literal Python's `float` reads ----

  /** The text `float(...)` is given once the commas are deleted: an
      optional sign, digits, and optionally `.` and more digits. */
  const LiteralPattern := Pattern(true, false, true)

  /** The position of the first `.` in `u`, or `|u|`. */
  function DotIndex(u: string): (q: nat)
    ensures q <= |u|
    ensures forall k | 0 <= k < q :: u[k] != '.'
    ensures q < |u| ==> u[q] == '.'
  {
    if |u| == 0 || u[0] == '.' then 0
    else
      var q := DotIndex(u[1..]);
      assert forall k | 1 <= k < q + 1 :: u[k] == u[1..][k - 1];
      q + 1
  }

  /** The digits of an unsigned literal on either side of its `.`. */
  lemma LiteralDigits(u: string)
    requires Unsigned(LiteralPattern, u)
    ensures 0 < DotIndex(u) && AllDigits(u[..DotIndex(u)])
    ensures DotIndex(u) < |u| ==> DigitRun(u[DotIndex(u) + 1..])
  {
    var q := DotIndex(u);
    if IntPart(LiteralPattern, u) {
      NoDotInDigits(u, |u|);
      assert q == |u|;
      assert u[..q] == u;
    } else {
      var d := SplitAtDot(LiteralPattern, u);
      NoDotInDigits(u, d);
      assert q == d;
    }
  }

  lemma NoDotInDigits(u: string, d: nat)
    requires d <= |u| && IntPart(LiteralPattern, u[..d])
    ensures forall k | 0 <= k < d :: IsDigit(u[k]) && u[k] != '.'
    ensures d <= DotIndex(u)
  {
    forall k | 0 <= k < d
      ensures IsDigit(u[k]) && u[k] != '.'
    {
      assert u[..d][k] == u[k];
      assert IntChar(LiteralPattern, u[..d][k]);
    }
  }

  /** Python's `float(w)` for such a literal, kept exact: the digits on both
      sides of the `.` read as one number, scaled by the fraction's length,
      negated by a leading minus. */
  function LiteralValue(w: string): (d: Decimal)
    requires Token(LiteralPattern, w)
  {
    TokenStart(LiteralPattern, w);
    var magnitude := UnsignedValue(if IsSign(w[0]) then w[1..] else w);
    if w[0] == '-' then Decimal(-magnitude.mantissa, magnitude.scale) else magnitude
  }

  function UnsignedValue(u: string): (d: Decimal)
    requires Unsigned(LiteralPattern, u)
  {
    LiteralDigits(u);
    var q := DotIndex(u);
    var whole := u[..q];
    var frac := if q < |u| then u[q + 1..] else "";
    DigitsValueAppend(whole, frac);
    Decimal(DigitsValue(whole + frac), |frac|)
  }

  lemma {:induction false} RemoveAppend(a: string, b: string, c: char)
    ensures Remove(a + b, c) == Remove(a, c) + Remove(b, c)
  {
    if |a| == 0 {
      assert a + b == b;
    } else {
      assert (a + b)[1..] == a[1..] + b;
      RemoveAppend(a[1..], b, c);
    }
  }

  lemma {:induction false} RemoveAbsent(s: string, c: char)
    requires forall k | 0 <= k < |s| :: s[k] != c
    ensures Remove(s, c) == s
  {
    if |s| > 0 {
      RemoveAbsent(s[1..], c);
      assert s == [s[0]] + s[1..];
    }
  }

  /** The match with its commas deleted: its sign, the integer digits,
      then the `.` and fraction digits, if any. */
  lemma RemovedMatch(p: Pattern, t: string, l: Lexeme)
    requires Scanned(p, t, l)
    ensures Remove(t[l.start..l.end], ',') == t[l.start..l.digits] + WholeDigits(p, t, l) + t[l.intEnd..l.end]
    ensures |WholeDigits(p, t, l)| > 0
    ensures l.end == l.intEnd || t[l.intEnd..l.end] == "." + FractionDigits(p, t, l)
  {
    ThreeSlices(t, l.start, l.digits, l.intEnd, l.end);
    SignHasNoComma(p, t, l);
    TailHasNoComma(p, t, l);
    RemoveInside(t[l.start..l.digits], t[l.digits..l.intEnd], t[l.intEnd..l.end], ',');
    WholeDigitsNonEmpty(p, t, l);
  }

  /** Deleting a character that only the middle part holds. */
  lemma RemoveInside(a: string, b: string, c: string, ch: char)
    requires forall k | 0 <= k < |a| :: a[k] != ch
    requires forall k | 0 <= k < |c| :: c[k] != ch
    ensures Remove((a + b) + c, ch) == a + Remove(b, ch) + c
  {
    RemoveAppend(a + b, c, ch);
    RemoveAppend(a, b, ch);
    RemoveAbsent(a, ch);
    RemoveAbsent(c, ch);
  }

  lemma WholeDigitsNonEmpty(p: Pattern, t: string, l: Lexeme)
    requires Scanned(p, t, l)
    ensures |WholeDigits(p, t, l)| > 0
  {
    var body := t[l.digits..l.intEnd];
    assert body == [t[l.digits]] + body[1..];
    RemoveAppend([t[l.digits]], body[1..], ',');
  }

  lemma ThreeSlices(t: string, a: nat, b: nat, c: nat, d: nat)
    requires a <= b <= c <= d <= |t|
    ensures t[a..d] == (t[a..b] + t[b..c]) + t[c..d]
  {
    assert t[a..d] == t[a..c] + t[c..d];
    assert t[a..c] == t[a..b] + t[b..c];
  }

  lemma SignHasNoComma(p: Pattern, t: string, l: Lexeme)
    requires Scanned(p, t, l)
    ensures forall k | 0 <= k < |t[l.start..l.digits]| :: t[l.start..l.digits][k] != ','
  {
    assert l.start == l.digits || IsSign(t[l.start]);
  }

  /** What follows the integer part is nothing, or `.` and the fraction
      digits; it holds no comma. */
  lemma TailHasNoComma(p: Pattern, t: string, l: Lexeme)
    requires Scanned(p, t, l)
    ensures forall k | 0 <= k < |t[l.intEnd..l.end]| :: t[l.intEnd..l.end][k] != ','
    ensures l.end == l.intEnd || t[l.intEnd..l.end] == "." + FractionDigits(p, t, l)
  {
    var tail := t[l.intEnd..l.end];
    if l.end > l.intEnd {
      assert FractionFollows(p, t, l.intEnd);
      assert tail == [t[l.intEnd]] + t[l.intEnd + 1..l.end];
      forall k | 0 <= k < |tail|
        ensures tail[k] != ','
      {
        assert tail[k] == t[l.intEnd + k];
      }
    }
  }

  /** A run of digits, then nothing or `.` and more digits, is an unsigned
      literal whose `.` comes right after the run. */
  lemma WholeThenFraction(whole: string, tail: string, frac: string)
    requires DigitRun(whole)
    requires tail == "" || (tail == "." + frac && DigitRun(frac))
    ensures Unsigned(LiteralPattern, whole + tail)
    ensures DotIndex(whole + tail) == |whole|
    ensures (whole + tail)[..|whole|] == whole
    ensures tail != "" ==> (whole + tail)[|whole| + 1..] == frac
  {
    var u := whole + tail;
    assert u[..|whole|] == whole;
    if tail == "" {
      assert u == whole;
      assert IntPart(LiteralPattern, u);
    } else {
      assert u[|whole|] == '.' && u[|whole| + 1..] == frac;
    }
    assert forall k | 0 <= k < |whole| :: u[k] == whole[k] && u[k] != '.';
  }

  /** A literal put together from an optional sign, a digit run and an
      optional fraction denotes the number those digits say. */
  lemma LiteralOfParts(sign: string, whole: string, tail: string, frac: string)
    requires sign == "" || (|sign| == 1 && IsSign(sign[0]))
    requires DigitRun(whole)
    requires tail == "" || (tail == "." + frac && DigitRun(frac))
    ensures Token(LiteralPattern, sign + whole + tail)
    ensures var f := if tail == "" then "" else frac;
            AllDigits(whole + f)
            && LiteralValue(sign + whole + tail)
               == Decimal(if sign == "-" then -(DigitsValue(whole + f) as int) else DigitsValue(whole + f), |f|)
  {
    var u := whole + tail;
    assert sign + whole + tail == sign + u;
    UnsignedOfParts(whole, tail, frac);
    SignedLiteral(sign, u);
  }

  lemma UnsignedOfParts(whole: string, tail: string, frac: string)
    requires DigitRun(whole)
    requires tail == "" || (tail == "." + frac && DigitRun(frac))
    ensures Unsigned(LiteralPattern, whole + tail)
    ensures var f := if tail == "" then "" else frac;
            AllDigits(whole + f)
            && UnsignedValue(whole + tail) == Decimal(DigitsValue(whole + f), |f|)
  {
    var u := whole + tail;
    WholeThenFraction(whole, tail, frac);
    var f := if tail == "" then "" else frac;
    assert (if DotIndex(u) < |u| then u[DotIndex(u) + 1..] else "") == f;
    DigitsValueAppend(whole, f);
  }

  /** Prefixing an optional sign to an unsigned literal. */
  lemma SignedLiteral(sign: string, u: string)
    requires sign == "" || (|sign| == 1 && IsSign(sign[0]))
    requires Unsigned(LiteralPattern, u)
    ensures Token(LiteralPattern, sign + u)
    ensures (if IsSign((sign + u)[0]) then (sign + u)[1..] else sign + u) == u
    ensures (sign + u)[0] == '-' <==> sign == "-"
    ensures LiteralValue(sign + u)
            == if sign == "-" then Decimal(-UnsignedValue(u).mantissa, UnsignedValue(u).scale) else UnsignedValue(u)
  {
    UnsignedStart(LiteralPattern, u);
    var w := sign + u;
    if |sign| > 0 {
      assert w[0] == sign[0] && w[1..] == u;
    } else {
      assert w == u;
    }
  }

  /** Deleting the commas of a match leaves a literal `float` accepts (so
      the `ValueError` branch after the search is never taken), and the
      number it denotes is `LexemeValue`. */
  lemma MatchIsLiteral(p: Pattern, t: string, l: Lexeme)
    requires Scanned(p, t, l)
    ensures Token(LiteralPattern, Remove(t[l.start..l.end], ','))
    ensures LiteralValue(Remove(t[l.start..l.end], ',')) == LexemeValue(p, t, l)
  {
    RemovedMatch(p, t, l);
    var sign, tail := t[l.start..l.digits], t[l.intEnd..l.end];
    var whole, frac := WholeDigits(p, t, l), FractionDigits(p, t, l);
    assert sign == "" || (|sign| == 1 && sign[0] == t[l.start] && IsSign(sign[0]));
    assert tail == "" <==> l.end == l.intEnd;
    LiteralOfParts(sign, whole, tail, frac);
    assert sign == "-" <==> l.start < l.digits && t[l.start] == '-';
  }
}
