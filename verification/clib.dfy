/**
 * The parts of the C language and library that the two processes lean on:
 * integer division (which truncates toward zero), `%u` of an `int` on a
 * 16-bit target, decimal rendering, `snprintf`'s bounded copy into a buffer
 * and `strlen`.
 */
module CLib {

  /** C99 `/` on `int`: the quotient is truncated toward zero, so the
      remainder takes the sign of the dividend (Dafny's `/` is Euclidean). */
  function TruncDiv(a: int, b: int): (q: int)
    requires b > 0
    ensures 0 <= a ==> 0 <= a - q * b < b
    ensures a < 0 ==> -b < a - q * b <= 0
  {
    if a >= 0 then a / b else -((-a) / b)
  }

  /** Truncating division by a positive divisor never reverses an order. */
  lemma TruncDivMonotone(a: int, c: int, b: int)
    requires b > 0 && a <= c
    ensures TruncDiv(a, b) <= TruncDiv(c, b)
  {
    var qa, qc := TruncDiv(a, b), TruncDiv(c, b);
    if qa > qc {
      MulGap(qa, qc, b);
      if 0 <= a {
        assert false;
      } else if c < 0 {
        assert false;
      } else {
        QuotientSigns(a, c, b);
        assert false;
      }
    }
  }

  /** Helper: a quotient gap of at least one is a product gap of at least the divisor. */
  lemma MulGap(x: int, y: int, b: int)
    requires b > 0 && x > y
    ensures x * b >= y * b + b
  {
    var d := x - y;
    assert d >= 1;
    assert d * b >= b;
    assert x * b == y * b + d * b;
  }

  /** Helper: a negative dividend gives a quotient of at most zero, a
      non-negative one a quotient of at least zero. */
  lemma QuotientSigns(a: int, c: int, b: int)
    requires b > 0 && a < 0 <= c
    ensures TruncDiv(a, b) <= 0 <= TruncDiv(c, b)
  {
    assert (-a) / b >= 0;
    assert c / b >= 0;
  }

  /** `UINT_MAX + 1` for the 16-bit `unsigned int` of the MSP430 target. */
  const UintModulus: nat := 0x1_0000

  /** The value `printf("%u", v)` shows for an `int` v on that target: the
      two's-complement reinterpretation of v as an `unsigned int`. */
  function AsUnsigned(v: int): (u: nat)
    ensures u < UintModulus
    ensures 0 <= v < UintModulus ==> u == v
    ensures -(UintModulus as int) <= v < 0 ==> u == v + UintModulus
  {
    v % UintModulus
  }

  const Nul: char := '\0'

  predicate IsDigit(c: char) {
    '0' <= c <= '9'
  }

  predicate AllDigits(s: string) {
    forall i :: 0 <= i < |s| ==> IsDigit(s[i])
  }

  function Digit(d: nat): (c: char)
    requires d < 10
    ensures IsDigit(c) && c as int - '0' as int == d
  {
    ('0' as int + d) as char
  }

  /** The text `printf("%u", n)` produces: the shortest decimal numeral. */
  function DecimalText(n: nat): (s: string)
    ensures 1 <= |s| && AllDigits(s)
    ensures |s| > 1 ==> s[0] != '0'
    decreases n
  {
    if n < 10 then [Digit(n)] else DecimalText(n / 10) + [Digit(n % 10)]
  }

  /** The value of a decimal numeral, as a reader of the reply would take it. */
  function ParseDecimal(s: string): nat
    requires AllDigits(s)
  {
    if s == [] then 0
    else 10 * ParseDecimal(s[..|s| - 1]) + (s[|s| - 1] as int - '0' as int)
  }

  /** Reading back the numeral gives the number that was rendered. */
  lemma {:induction false} DecimalRoundTrip(n: nat)
    ensures ParseDecimal(DecimalText(n)) == n
  {
    var s := DecimalText(n);
    if n >= 10 {
      DecimalRoundTrip(n / 10);
      assert s[..|s| - 1] == DecimalText(n / 10);
    }
  }

  function Pow10(k: nat): (p: nat)
    ensures p >= 1
  {
    if k == 0 then 1 else 10 * Pow10(k - 1)
  }

  /** A number below 10^k has at most k decimal digits. */
  lemma {:induction false} DecimalLength(n: nat, k: nat)
    requires 1 <= k && n < Pow10(k)
    ensures |DecimalText(n)| <= k
  {
    if n >= 10 {
      assert Pow10(1) == 10;
      DecimalLength(n / 10, k - 1);
    }
  }

  /** What `snprintf(buf, size, ...)` leaves before the terminating NUL when
      the formatted text is `text`: at most `size - 1` characters of it. */
  function Snprintf(text: string, size: nat): (out: string)
    requires size >= 1
    ensures |out| < size
    ensures out <= text
    ensures |text| < size ==> out == text
    ensures |text| >= size ==> out == text[..size - 1]
  {
    if |text| < size then text else text[..size - 1]
  }

  /** `snprintf` into a fixed buffer: the bounded text, then a NUL; the bytes
      after the NUL are left as they were. */
  method FormatInto(buf: array<char>, text: string)
    requires buf.Length >= 1
    modifies buf
    ensures var out := Snprintf(text, buf.Length);
      buf[..|out|] == out && buf[|out|] == Nul && buf[|out| + 1..] == old(buf[|out| + 1..])
  {
    var n := if |text| < buf.Length then |text| else buf.Length - 1;
    var i := 0;
    while i < n
      invariant 0 <= i <= n
      invariant buf[..i] == text[..i]
      invariant buf[n..] == old(buf[n..])
    {
      buf[i] := text[i];
      i := i + 1;
    }
    buf[n] := Nul;
  }

  /** `strlen`: the index of the first NUL in the buffer. */
  method StrLen(buf: array<char>) returns (n: nat)
    requires exists k :: 0 <= k < buf.Length && buf[k] == Nul
    ensures n < buf.Length && buf[n] == Nul
    ensures forall k :: 0 <= k < n ==> buf[k] != Nul
  {
    n := 0;
    while buf[n] != Nul
      invariant n < buf.Length
      invariant forall k :: 0 <= k < n ==> buf[k] != Nul
      decreases buf.Length - n
    {
      n := n + 1;
    }
  }
}
