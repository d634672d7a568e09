/** JavaScript's 32-bit bitwise operators and the decimal rendering of
    integral numbers, over unbounded integers. */
module JsNumbers {

  const TwoTo31: int := 0x8000_0000
  const TwoTo32: int := 0x1_0000_0000

  function Pow2(n: nat): (r: int)
    ensures r > 0
  {
    if n == 0 then 1 else 2 * Pow2(n - 1)
  }

  /** The ToInt32 conversion every bitwise operator applies first: the value
      modulo 2^32, read as two's complement. */
  function ToInt32(x: int): (r: int)
    ensures -TwoTo31 <= r < TwoTo31
    ensures (x - r) % TwoTo32 == 0
    ensures -TwoTo31 <= x < TwoTo31 ==> r == x
  {
    var m := x % TwoTo32;
    if m >= TwoTo31 then m - TwoTo32 else m
  }

  /** `x >> n` for a shift count below 32: the sign-propagating shift, which
      is floor division of the 32-bit value by 2^n. */
  function ShiftRight(x: int, n: nat): (r: int)
    requires n < 32
    ensures r * Pow2(n) <= ToInt32(x) < (r + 1) * Pow2(n)
  {
    ToInt32(x) / Pow2(n)
  }

  /** `x & (2^k - 1)` for k <= 31: the low k bits of the 32-bit two's
      complement value; the mask's sign bit is clear, so the result is never
      negative. The bits above them are what `x >> k` keeps. */
  function AndLowMask(x: int, k: nat): (r: int)
    requires k <= 31
    ensures 0 <= r < Pow2(k)
    ensures (ToInt32(x) - r) % Pow2(k) == 0
    ensures ToInt32(x) == ShiftRight(x, k) * Pow2(k) + r
  {
    LowPart(ToInt32(x), Pow2(k));
    ToInt32(x) % Pow2(k)
  }

  /** Euclidean division splits `t` into a multiple of `m` and a remainder
      below `m`. */
  lemma LowPart(t: int, m: int)
    requires m > 0
    ensures t == (t / m) * m + t % m
    ensures (t - t % m) % m == 0
  {
    var q := t / m;
    assert t - t % m == q * m;
    var d := q - (q * m) / m;
    assert m * d == (q * m) % m;
  }

  function DigitChar(d: int): char
    requires 0 <= d < 10
  {
    "0123456789"[d]
  }

  predicate IsDigit(c: char)
  {
    '0' <= c <= '9'
  }

  function DigitValue(c: char): (d: int)
    requires IsDigit(c)
    ensures 0 <= d < 10
  {
    c as int - '0' as int
  }

  /** The decimal digits of `n`, most significant first, without leading
      zeros. */
  function Digits(n: nat): (s: string)
    ensures |s| > 0
    ensures forall i :: 0 <= i < |s| ==> IsDigit(s[i])
  {
    if n < 10 then [DigitChar(n)] else Digits(n / 10) + [DigitChar(n % 10)]
  }

  /** `Number.prototype.toString()` of an integral number. */
  function Show(n: int): (s: string)
    ensures |s| > 0
    ensures forall i :: 0 <= i < |s| ==> IsDigit(s[i]) || (i == 0 && s[i] == '-')
  {
    if n < 0 then "-" + Digits(-n) else Digits(n)
  }

  /** The value of a string of decimal digits. */
  function ParseDigits(s: string): (n: nat)
    requires forall i :: 0 <= i < |s| ==> IsDigit(s[i])
  {
    if s == [] then 0 else 10 * ParseDigits(s[..|s| - 1]) + DigitValue(s[|s| - 1])
  }

  /** The value of an optionally signed decimal string. */
  function ParseInt(s: string): int
    requires forall i :: 0 <= i < |s| ==> IsDigit(s[i]) || (i == 0 && s[i] == '-')
  {
    if s != [] && s[0] == '-' then 0 - ParseDigits(s[1..]) else ParseDigits(s)
  }

  lemma {:induction false} ParseDigitsOfDigits(n: nat)
    ensures ParseDigits(Digits(n)) == n
    decreases n
  {
    if n >= 10 {
      ParseDigitsOfDigits(n / 10);
      var s := Digits(n);
      assert s[..|s| - 1] == Digits(n / 10);
    }
  }

  /** Reading back what `Show` renders yields the number. */
  lemma ParseIntOfShow(n: int)
    ensures ParseInt(Show(n)) == n
  {
    if n < 0 {
      ParseDigitsOfDigits(-n);
      assert Show(n)[1..] == Digits(-n);
    } else {
      ParseDigitsOfDigits(n);
    }
  }
}
