/** Go's 64-bit signed integers as text: `strconv.ParseInt(s, 10, 64)`,
    its inverse `strconv.FormatInt(n, 10)`, and the two's-complement
    wrap-around of int64 arithmetic. */
module Int64Text {
  import opened Outcomes

  const Int64Min: int := -0x8000_0000_0000_0000
  const Int64Max: int := 0x7fff_ffff_ffff_ffff

  predicate InInt64(n: int) { Int64Min <= n <= Int64Max }

  /** The int64 that a Go int64 operation with mathematical result `x`
      produces: the low 64 bits, read as a signed number. */
  function Wrap64(x: int): (r: int)
    ensures InInt64(r)
    ensures (x - r) % 0x1_0000_0000_0000_0000 == 0
    ensures InInt64(x) ==> r == x
  {
    (x - Int64Min) % 0x1_0000_0000_0000_0000 + Int64Min
  }

  predicate IsDigit(c: char) { '0' <= c <= '9' }

  predicate IsDigits(s: string) { forall i :: 0 <= i < |s| ==> IsDigit(s[i]) }

  /** The number a string of decimal digits denotes (most significant first). */
  function DigitsValue(s: string): nat
    requires IsDigits(s)
  {
    if |s| == 0 then 0 else 10 * DigitsValue(s[..|s| - 1]) + (s[|s| - 1] as int - '0' as int)
  }

  /** What follows an optional leading '+' or '-'. */
  function Unsigned(s: string): string
  {
    if |s| > 0 && (s[0] == '+' || s[0] == '-') then s[1..] else s
  }

  /** The base-10 syntax ParseInt accepts: an optional sign and at least
      one digit (no spaces, no underscores, no base prefix). */
  predicate IsDecimal(s: string)
  {
    |Unsigned(s)| > 0 && IsDigits(Unsigned(s))
  }

  function DecimalValue(s: string): int
    requires IsDecimal(s)
  {
    var magnitude: int := DigitsValue(Unsigned(s));
    if s[0] == '-' then -magnitude else magnitude
  }

  /** `strconv.ParseInt(s, 10, 64)`: `None` stands for a syntax or range error. */
  function ParseInt64(s: string): (r: Option<int>)
    ensures r.Some? ==> InInt64(r.value)
  {
    if IsDecimal(s) && InInt64(DecimalValue(s)) then Some(DecimalValue(s)) else None
  }

  function DigitChar(d: nat): (c: char)
    requires d < 10
    ensures IsDigit(c) && c as int - '0' as int == d
  {
    ('0' as int + d) as char
  }

  /** Shortest decimal digits of `n`. */
  function FormatNat(n: nat): string
  {
    if n < 10 then [DigitChar(n)] else FormatNat(n / 10) + [DigitChar(n % 10)]
  }

  /** `strconv.FormatInt(n, 10)`. */
  function FormatInt(n: int): string
  {
    if n < 0 then "-" + FormatNat(-n) else FormatNat(n)
  }

  lemma {:induction false} FormatNatDigits(n: nat)
    ensures |FormatNat(n)| > 0 && FormatNat(n)[0] != '+' && FormatNat(n)[0] != '-'
    ensures IsDigits(FormatNat(n)) && DigitsValue(FormatNat(n)) == n
  {
    if n >= 10 {
      FormatNatDigits(n / 10);
      var s := FormatNat(n);
      assert s[..|s| - 1] == FormatNat(n / 10);
    }
  }

  /** Reading back what FormatInt wrote gives the number again, for
      every int64. */
  lemma ParseFormatRoundTrip(n: int)
    requires InInt64(n)
    ensures ParseInt64(FormatInt(n)) == Some(n)
  {
    if n < 0 {
      FormatNatDigits(-n);
      assert Unsigned(FormatInt(n)) == FormatNat(-n);
    } else {
      FormatNatDigits(n);
    }
  }

  /** Text that is empty, or a bare sign, is not an integer. */
  lemma NoDigitsRejected()
    ensures ParseInt64("") == None && ParseInt64("+") == None && ParseInt64("-") == None
  {
  }
}
