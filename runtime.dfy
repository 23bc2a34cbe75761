/** The few JavaScript built-ins the core relies on, stated on unbounded
    integers: `Math.max(0, x)`, `Math.round` of a percentage, and the
    decimal text a template literal gives a non-negative integer. */
module Runtime {

  /** `Math.max(0, x)`: the floor-clamp of every balance decrement. */
  function Max0(x: int): (r: int)
    ensures r >= 0 && r >= x
    ensures r == x || r == 0
  {
    if x < 0 then 0 else x
  }

  /** `Math.round((part / whole) * 100)` for a positive `whole`, taken as
      round-half-up of the exact quotient `100 * part / whole`: the result
      is the integer `r` with `r <= 100 * part / whole + 1/2 < r + 1`. */
  function RoundedPercent(part: nat, whole: nat): (r: nat)
    requires 0 < whole
    ensures 2 * whole * r <= 200 * part + whole < 2 * whole * (r + 1)
    ensures part <= whole ==> r <= 100
    ensures part == whole ==> r == 100
    ensures part == 0 ==> r == 0
  {
    RoundingBounds(part, whole);
    (200 * part + whole) / (2 * whole)
  }

  lemma RoundingBounds(part: nat, whole: nat)
    requires 0 < whole
    ensures var r := (200 * part + whole) / (2 * whole);
      && 2 * whole * r <= 200 * part + whole < 2 * whole * (r + 1)
      && (part <= whole ==> r <= 100)
      && (part == whole ==> r == 100)
      && (part == 0 ==> r == 0)
  {
    var n, d := 200 * part + whole, 2 * whole;
    DivBounds(n, d);
    if part <= whole {
      DivAtMost(n, d, 100);
    }
    if part == whole {
      DivAtLeast(n, d, 100);
    }
    if part == 0 {
      DivAtMost(n, d, 0);
    }
  }

  lemma DivBounds(n: nat, d: nat)
    requires 0 < d
    ensures d * (n / d) <= n < d * (n / d + 1)
  {
  }

  /** If `n < d * (c + 1)` then `n / d <= c`. */
  lemma DivAtMost(n: nat, d: nat, c: nat)
    requires 0 < d && n < d * (c + 1)
    ensures n / d <= c
  {
    DivBounds(n, d);
    if n / d > c {
      MulMonotone(d, c + 1, n / d);
    }
  }

  /** If `d * c <= n` then `c <= n / d`. */
  lemma DivAtLeast(n: nat, d: nat, c: nat)
    requires 0 < d && d * c <= n
    ensures c <= n / d
  {
    DivBounds(n, d);
    if n / d < c {
      MulMonotone(d, n / d + 1, c);
    }
  }

  lemma MulMonotone(d: nat, a: nat, b: nat)
    requires a <= b
    ensures d * a <= d * b
  {
  }

  /** A subset is no larger than the set that holds it. */
  lemma SubsetCardinality<T>(a: set<T>, b: set<T>)
    requires a <= b
    ensures |a| <= |b|
  {
    assert b == a + (b - a);
  }

  /** The character of one decimal digit. */
  function DigitChar(v: nat): char
    requires v < 10
  {
    "0123456789"[v]
  }

  function DigitValue(c: char): nat
    requires '0' <= c <= '9'
  {
    (c as int - '0' as int) as nat
  }

  predicate IsDigits(s: string)
  {
    forall i :: 0 <= i < |s| ==> '0' <= s[i] <= '9'
  }

  /** `${n}` for a non-negative integer: its decimal digits, most
      significant first, without leading zeros. */
  function DecimalText(n: nat): (s: string)
    ensures |s| > 0 && IsDigits(s)
    ensures s[0] == '0' ==> n == 0
  {
    if n < 10 then [DigitChar(n)] else DecimalText(n / 10) + [DigitChar(n % 10)]
  }

  /** Reading a string of decimal digits back as a number. */
  function DecimalValue(s: string): nat
    requires IsDigits(s)
  {
    if s == [] then 0 else 10 * DecimalValue(s[..|s| - 1]) + DigitValue(s[|s| - 1])
  }

  /** The text of a number reads back as that number. */
  lemma {:induction false} DecimalRoundTrip(n: nat)
    ensures DecimalValue(DecimalText(n)) == n
  {
    var s := DecimalText(n);
    if n < 10 {
      assert s[..0] == [];
    } else {
      DecimalRoundTrip(n / 10);
      assert s[..|s| - 1] == DecimalText(n / 10);
    }
  }

  /** `${n}%`: how a rate is rendered. */
  function PercentText(n: nat): (s: string)
    ensures |s| >= 2 && s[|s| - 1] == '%'
    ensures IsDigits(s[..|s| - 1]) && DecimalValue(s[..|s| - 1]) == n
  {
    DecimalRoundTrip(n);
    var digits := DecimalText(n);
    assert (digits + "%")[..|digits|] == digits;
    digits + "%"
  }
}
