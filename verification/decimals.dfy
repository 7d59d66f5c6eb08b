/** Exact decimal numbers: the numbers the cleaners read out of text and
    the numeric values of configuration documents. */
module Decimals {
  import opened Strings

  function Pow10(n: nat): (r: nat)
    ensures r >= 1
  {
    if n == 0 then 1 else 10 * Pow10(n - 1)
  }

  /** The number `mantissa / 10^scale`. A Python `int` has scale 0; a
      Python `float` is kept with the fraction digits it was written with. */
  datatype Decimal = Decimal(mantissa: int, scale: nat) {

    function Value(): real {
      mantissa as real / Pow10(scale) as real
    }
  }

  function FromInt(n: int): Decimal {
    Decimal(n, 0)
  }

  function DigitValue(c: char): nat
    requires IsDigit(c)
  {
    c as int - '0' as int
  }

  function DigitChar(n: nat): (c: char)
    requires n < 10
    ensures IsDigit(c) && DigitValue(c) == n
  {
    ('0' as int + n) as char
  }

  predicate AllDigits(s: string) {
    forall k | 0 <= k < |s| :: IsDigit(s[k])
  }

  /** Python's `int(s)` for a string of ASCII digits. */
  function DigitsValue(s: string): nat
    requires AllDigits(s)
  {
    if |s| == 0 then 0 else 10 * DigitsValue(s[..|s| - 1]) + DigitValue(s[|s| - 1])
  }

  lemma {:induction false} DigitsValueAppend(a: string, b: string)
    requires AllDigits(a) && AllDigits(b)
    ensures AllDigits(a + b)
    ensures DigitsValue(a + b) == DigitsValue(a) * Pow10(|b|) + DigitsValue(b)
  {
    if |b| > 0 {
      var b' := b[..|b| - 1];
      var ab := a + b;
      assert ab[..|ab| - 1] == a + b' && ab[|ab| - 1] == b[|b| - 1];
      DigitsValueAppend(a, b');
      var d := DigitValue(b[|b| - 1]);
      assert DigitsValue(ab) == 10 * DigitsValue(a + b') + d;
      assert DigitsValue(b) == 10 * DigitsValue(b') + d;
      ShiftDigit(DigitsValue(a), Pow10(|b'|), DigitsValue(b'), d);
    } else {
      assert a + b == a;
    }
  }

  /** Appending a digit `d` to `x` followed by `y` (a `p`-digit block). */
  lemma ShiftDigit(x: int, p: int, y: int, d: int)
    ensures 10 * (x * p + y) + d == x * (10 * p) + (10 * y + d)
  {
  }

  /** `n / 10^k`, one decimal digit at a time. */
  function Whole(n: nat, k: nat): nat {
    if k == 0 then n else Whole(n / 10, k - 1)
  }

  /** The last `width` decimal digits of `n`, zero-padded. */
  function PaddedDigits(n: nat, width: nat): (r: string)
    ensures |r| == width && AllDigits(r)
  {
    if width == 0 then "" else PaddedDigits(n / 10, width - 1) + [DigitChar(n % 10)]
  }

  lemma {:induction false} DigitsValueBound(s: string)
    requires AllDigits(s)
    ensures DigitsValue(s) < Pow10(|s|)
  {
    if |s| > 0 {
      DigitsValueBound(s[..|s| - 1]);
    }
  }

  /** Splitting `n` into its whole part and `k` fraction digits loses nothing. */
  lemma {:induction false} WholeAndDigits(n: nat, k: nat)
    ensures Whole(n, k) * Pow10(k) + DigitsValue(PaddedDigits(n, k)) == n
  {
    if k > 0 {
      var r := PaddedDigits(n, k);
      var rest := PaddedDigits(n / 10, k - 1);
      assert r[..|r| - 1] == rest && r[|r| - 1] == DigitChar(n % 10);
      assert DigitsValue(r) == 10 * DigitsValue(rest) + n % 10;
      WholeAndDigits(n / 10, k - 1);
      var w := Whole(n / 10, k - 1);
      assert Whole(n, k) == w && Pow10(k) == 10 * Pow10(k - 1);
      ShiftDigit(w, Pow10(k - 1), DigitsValue(rest), n % 10);
    }
  }

  /** `Whole(n, k)` is the Euclidean quotient of `n` by `10^k`. */
  lemma WholeBounds(n: nat, k: nat)
    ensures Whole(n, k) * Pow10(k) <= n < (Whole(n, k) + 1) * Pow10(k)
  {
    WholeAndDigits(n, k);
    DigitsValueBound(PaddedDigits(n, k));
    OneMore(Whole(n, k), Pow10(k));
  }

  lemma OneMore(w: int, p: int)
    ensures (w + 1) * p == w * p + p
  {
  }

  /** Python's `str(n)` for a natural number. */
  function NatText(n: nat): (r: string)
    ensures |r| > 0 && AllDigits(r)
    ensures DigitsValue(r) == n
  {
    if n < 10 then [DigitChar(n)]
    else
      var r := NatText(n / 10) + [DigitChar(n % 10)];
      assert r[..|r| - 1] == NatText(n / 10);
      r
  }

  /** Python's `str(x)` for the number: sign, whole part and, for a
      non-zero scale, exactly `scale` fraction digits. */
  function Show(d: Decimal): string {
    var magnitude: nat := if d.mantissa < 0 then -d.mantissa else d.mantissa;
    (if d.mantissa < 0 then "-" else "")
      + NatText(Whole(magnitude, d.scale))
      + (if d.scale == 0 then "" else "." + PaddedDigits(magnitude, d.scale))
  }

  /** Python's `int(x)`: the value truncated toward zero (Dafny's `/` is
      Euclidean, so the magnitude is divided and the sign put back). */
  function Truncate(d: Decimal): (r: int)
    ensures d.mantissa >= 0 ==> 0 <= r && r * Pow10(d.scale) <= d.mantissa < (r + 1) * Pow10(d.scale)
    ensures d.mantissa < 0 ==> r <= 0 && -r * Pow10(d.scale) <= -d.mantissa < (-r + 1) * Pow10(d.scale)
  {
    var magnitude: nat := if d.mantissa < 0 then -d.mantissa else d.mantissa;
    WholeBounds(magnitude, d.scale);
    var w: int := Whole(magnitude, d.scale);
    if d.mantissa >= 0 then w else -w
  }
}
