/** The parts of C#'s integer semantics that the game's code relies on:
    32-bit `int` range, division and remainder that truncate toward zero,
    `int.ToString()` and `int.TryParse` (default `NumberStyles.Integer`). */
module CSharp {

  import opened Wrappers

  const Int32Min: int := -0x8000_0000
  const Int32Max: int := 0x7FFF_FFFF
  const Modulus32: int := 0x1_0000_0000

  predicate IsInt32(x: int) {
    Int32Min <= x <= Int32Max
  }

  /** Unchecked 32-bit `int` arithmetic: the mathematical result wrapped into range. */
  function Wrap32(x: int): (r: int)
    ensures IsInt32(r)
    ensures IsInt32(x) ==> r == x
    ensures (x - r) % Modulus32 == 0
  {
    (x - Int32Min) % Modulus32 + Int32Min
  }

  /** C#'s `a / b` for a positive divisor: the quotient truncated toward zero. */
  function Quot(a: int, b: int): (q: int)
    requires b > 0
    ensures a >= 0 ==> q == a / b && q >= 0
    ensures a < 0 ==> q <= 0
  {
    if a >= 0 then DivNonNegative(a, b); a / b
    else DivNonNegative(-a, b); -((-a) / b)
  }

  lemma DivNonNegative(a: int, b: int)
    requires a >= 0 && b > 0
    ensures a / b >= 0
  {
  }

  /** C#'s `a % b` for a positive divisor: the remainder takes the sign of `a`. */
  function Rem(a: int, b: int): (r: int)
    requires b > 0
    ensures Quot(a, b) * b + r == a
    ensures a >= 0 ==> 0 <= r < b && r == a % b
    ensures a < 0 ==> -b < r <= 0
  {
    if a >= 0 then a % b else -((-a) % b)
  }

  lemma MulMonotone(a: int, b: int, k: int)
    requires a <= b && k >= 0
    ensures a * k <= b * k
  {
    assert b * k - a * k == (b - a) * k;
  }

  /** Quotient and remainder are determined by the decomposition m == q * size + t. */
  lemma DivModUnique(m: int, size: int, q: int, t: int)
    requires size > 0 && 0 <= t < size && m == q * size + t
    ensures m / size == q && m % size == t
  {
    var q', t' := m / size, m % size;
    assert m == q' * size + t';
    assert (q - q') * size == t' - t;
    if q > q' {
      MulMonotone(1, q - q', size);
    } else if q < q' {
      MulMonotone(1, q' - q, size);
    }
  }

  predicate IsDigit(c: char) {
    '0' <= c <= '9'
  }

  predicate AllDigits(s: string) {
    forall i :: 0 <= i < |s| ==> IsDigit(s[i])
  }

  /** The white space `NumberStyles.AllowLeadingWhite`/`AllowTrailingWhite` accept:
      U+0009 to U+000D and U+0020. */
  predicate IsNumberWhite(c: char) {
    c == ' ' || '\t' <= c <= '\r'
  }

  predicate AllWhite(s: string) {
    forall i :: 0 <= i < |s| ==> IsNumberWhite(s[i])
  }

  function DigitChar(d: int): (c: char)
    requires 0 <= d < 10
    ensures IsDigit(c) && c as int - '0' as int == d
  {
    ('0' as int + d) as char
  }

  /** Decimal rendering of a non-negative `int`, as `ToString()` produces it. */
  function NatToString(n: nat): (s: string)
    ensures |s| >= 1 && AllDigits(s)
    decreases n
  {
    if n < 10 then [DigitChar(n)] else NatToString(n / 10) + [DigitChar(n % 10)]
  }

  /** `ToString()` of any `int`; a negative value gets a leading minus sign. */
  function IntToString(i: int): (s: string)
    ensures |s| >= 1
    ensures i >= 0 ==> s == NatToString(i)
  {
    if i < 0 then "-" + NatToString(-i) else NatToString(i)
  }

  /** The value of a run of decimal digits. */
  function DigitsValue(s: string): (v: nat)
    requires AllDigits(s)
    decreases |s|
  {
    if s == [] then 0
    else DigitsValue(s[..|s| - 1]) * 10 + (s[|s| - 1] as int - '0' as int)
  }

  lemma {:induction false} DigitsValueOfNatToString(n: nat)
    ensures DigitsValue(NatToString(n)) == n
    decreases n
  {
    var s := NatToString(n);
    if n >= 10 {
      DigitsValueOfNatToString(n / 10);
      assert s[..|s| - 1] == NatToString(n / 10);
    }
  }

  /** Number of leading white-space characters. */
  function LeadingWhite(s: string): (k: nat)
    ensures k <= |s| && AllWhite(s[..k])
    ensures k < |s| ==> !IsNumberWhite(s[k])
    decreases |s|
  {
    if s != [] && IsNumberWhite(s[0]) then
      var k := 1 + LeadingWhite(s[1..]);
      assert s[..k] == [s[0]] + s[1..][..k - 1];
      k
    else 0
  }

  /** Length of the longest prefix made of decimal digits. */
  function DigitPrefix(s: string): (k: nat)
    ensures k <= |s| && AllDigits(s[..k])
    ensures k < |s| ==> !IsDigit(s[k])
    decreases |s|
  {
    if s != [] && IsDigit(s[0]) then
      var k := 1 + DigitPrefix(s[1..]);
      assert s[..k] == [s[0]] + s[1..][..k - 1];
      k
    else 0
  }

  /** `int.TryParse(s, out v)` with the default `NumberStyles.Integer`: optional
      leading white space, an optional `+` or `-`, at least one decimal digit,
      optional trailing white space, and a value inside the 32-bit range. */
  function TryParseInt32(s: string): (r: Option<int>)
    ensures r.Some? ==> IsInt32(r.value)
    ensures r.Some? ==> exists i :: 0 <= i < |s| && IsDigit(s[i])
  {
    var t := s[LeadingWhite(s)..];
    var signed := |t| > 0 && (t[0] == '-' || t[0] == '+');
    var negative := signed && t[0] == '-';
    var u := if signed then t[1..] else t;
    var k := DigitPrefix(u);
    if k == 0 || !AllWhite(u[k..]) then None
    else
      var magnitude: int := DigitsValue(u[..k]);
      var v: int := if negative then -magnitude else magnitude;
      assert IsDigit(u[0]);
      if IsInt32(v) then Some(v) else None
  }

  /** Parsing the rendering of a non-negative 32-bit value gives the value back. */
  lemma NatToStringRoundTrip(n: nat)
    requires n <= Int32Max
    ensures TryParseInt32(NatToString(n)) == Some(n)
  {
    var s := NatToString(n);
    assert !IsNumberWhite(s[0]) && !(s[0] == '-' || s[0] == '+');
    assert LeadingWhite(s) == 0;
    assert s[0..] == s;
    assert DigitPrefix(s) == |s|;
    assert s[..|s|] == s;
    DigitsValueOfNatToString(n);
  }
}
