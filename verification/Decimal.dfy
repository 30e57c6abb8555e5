/** Decimal digit strings. */
module Decimal {

  predicate IsDigit(c: char) { '0' <= c <= '9' }

  predicate AllDigits(s: string) { forall i | 0 <= i < |s| :: IsDigit(s[i]) }

  function DigitValue(c: char): (n: nat)
    ensures n <= 9
  {
    if IsDigit(c) then c as int - '0' as int else 0
  }

  function DigitChar(n: nat): (c: char)
    requires n <= 9
    ensures IsDigit(c) && DigitValue(c) == n
  {
    (n + '0' as int) as char
  }

  /** The number a digit string denotes. */
  function Value(s: string): nat {
    if s == [] then 0 else 10 * Value(s[..|s| - 1]) + DigitValue(s[|s| - 1])
  }

  /** The decimal notation of a number, without leading zeros. */
  function Printed(n: nat): string {
    if n < 10 then [DigitChar(n)] else Printed(n / 10) + [DigitChar(n % 10)]
  }

  lemma {:induction false} PrintedReads(n: nat)
    ensures Printed(n) != [] && AllDigits(Printed(n)) && Value(Printed(n)) == n
  {
    if n < 10 {
      assert Printed(n)[..0] == [];
      assert Value(Printed(n)[..0]) == 0;
    } else {
      PrintedReads(n / 10);
      assert Printed(n)[..|Printed(n)| - 1] == Printed(n / 10);
    }
  }

  lemma {:induction false} PrintedLeads(n: nat)
    ensures Printed(n)[0] == '0' <==> n == 0
    ensures n == 0 ==> |Printed(n)| == 1
  {
    if n >= 10 {
      PrintedLeads(n / 10);
      PrintedReads(n / 10);
    }
  }

  /** The length of the leading run of digits. */
  function DigitRun(s: string): (k: nat)
    ensures k <= |s|
    ensures k < |s| ==> !IsDigit(s[k])
  {
    if s == [] || !IsDigit(s[0]) then 0 else 1 + DigitRun(s[1..])
  }

  lemma {:induction false} DigitRunIs(s: string, k: nat)
    requires k <= |s| && (forall i | 0 <= i < k :: IsDigit(s[i])) && (k == |s| || !IsDigit(s[k]))
    ensures DigitRun(s) == k
  {
    if k > 0 { DigitRunIs(s[1..], k - 1); }
  }

  lemma {:induction false} DigitRunDigits(s: string)
    ensures AllDigits(s[..DigitRun(s)])
  {
    if s != [] && IsDigit(s[0]) {
      DigitRunDigits(s[1..]);
      var k := DigitRun(s);
      forall i | 0 <= i < k ensures IsDigit(s[..k][i]) {
        if i > 0 { assert s[..k][i] == s[1..][..k - 1][i - 1]; }
      }
    }
  }
}
