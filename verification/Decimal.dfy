/** The parts of Go's strconv the codecs use: decimal printing and bounded parsing. */
module Decimal {
  import opened Wrappers

  const TWO_TO_THE_16 := 0x1_0000
  const TWO_TO_THE_32 := 0x1_0000_0000
  const TWO_TO_THE_63 := 0x8000_0000_0000_0000
  const TWO_TO_THE_64 := 0x1_0000_0000_0000_0000

  type u16 = x: int | 0 <= x < TWO_TO_THE_16
  type u32 = x: int | 0 <= x < TWO_TO_THE_32
  type u64 = x: int | 0 <= x < TWO_TO_THE_64
  type i64 = x: int | -TWO_TO_THE_63 <= x < TWO_TO_THE_63

  predicate IsDigit(c: char) {
    '0' <= c <= '9'
  }

  predicate AllDigits(s: string) {
    forall i :: 0 <= i < |s| ==> IsDigit(s[i])
  }

  function DigitOf(d: nat): char
    requires d < 10
  {
    ('0' as int + d) as char
  }

  /** strconv.FormatUint(n, 10) */
  function FormatUint(n: nat): (s: string)
    ensures s != "" && AllDigits(s)
    ensures n > 0 ==> s[0] != '0'
  {
    if n < 10 then [DigitOf(n)] else FormatUint(n / 10) + [DigitOf(n % 10)]
  }

  /** strconv.FormatInt(n, 10) */
  function FormatInt(n: int): string {
    if n < 0 then "-" + FormatUint(-n) else FormatUint(n)
  }

  function NumberOf(s: string): nat
    requires AllDigits(s)
  {
    if s == "" then 0 else 10 * NumberOf(s[..|s| - 1]) + (s[|s| - 1] as int - '0' as int)
  }

  /** strconv.ParseUint(s, 10, bits), where limit is 2^bits: no sign, and nothing that does not fit. */
  function ParseUint(s: string, limit: nat): Option<nat> {
    if s == "" || !AllDigits(s) then None
    else if NumberOf(s) >= limit then None
    else Some(NumberOf(s))
  }

  /** strconv.ParseInt(s, 10, bits), where limit is 2^(bits-1): one sign, then digits. */
  function ParseInt(s: string, limit: int): Option<int> {
    var signed := s != "" && (s[0] == '-' || s[0] == '+');
    var digits := if signed then s[1..] else s;
    if digits == "" || !AllDigits(digits) then None
    else
      var n: int := NumberOf(digits);
      var v := if signed && s[0] == '-' then -n else n;
      if -limit <= v < limit then Some(v) else None
  }

  lemma {:induction false} NumberOfFormat(n: nat)
    ensures NumberOf(FormatUint(n)) == n
  {
    if n >= 10 {
      NumberOfFormat(n / 10);
      var s := FormatUint(n);
      assert s[..|s| - 1] == FormatUint(n / 10);
    } else {
      assert FormatUint(n)[..0] == "";
    }
  }

  /** Parsing undoes printing exactly for the numbers below the bound. */
  lemma ParseUintFormat(n: nat, limit: nat)
    ensures ParseUint(FormatUint(n), limit) == if n < limit then Some(n) else None
  {
    NumberOfFormat(n);
  }

  lemma ParseIntFormat(n: int, limit: int)
    ensures ParseInt(FormatInt(n), limit) == if -limit <= n < limit then Some(n) else None
  {
    NumberOfFormat(if n < 0 then -n else n);
    if n < 0 {
      assert FormatInt(n)[1..] == FormatUint(-n);
    } else {
      assert IsDigit(FormatInt(n)[0]);
    }
  }

  function Pow10(k: nat): nat {
    if k == 0 then 1 else 10 * Pow10(k - 1)
  }

  lemma {:induction false} FormatLength(n: nat, k: nat)
    requires k >= 1 && n < Pow10(k)
    ensures |FormatUint(n)| <= k
  {
    if n >= 10 {
      FormatLength(n / 10, k - 1);
    }
  }
}
