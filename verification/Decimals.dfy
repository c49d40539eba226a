/** Decimal numerals. */
module Decimals {

  predicate IsDigits(s: string) {
    s != "" && forall i :: 0 <= i < |s| ==> '0' <= s[i] <= '9'
  }

  /** The number a run of digits stands for. */
  function Decimal(s: string): nat
    requires IsDigits(s)
  {
    var last := s[|s| - 1] as int - '0' as int;
    if |s| == 1 then last else 10 * Decimal(s[..|s| - 1]) + last
  }

  /** A number as template literals print it. */
  function Show(n: nat): (s: string)
    ensures IsDigits(s) && Decimal(s) == n
  {
    var digit := ('0' as int + n % 10) as char;
    if n < 10 then [digit]
    else
      var s := Show(n / 10) + [digit];
      assert s[..|s| - 1] == Show(n / 10);
      s
  }
}
