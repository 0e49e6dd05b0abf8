/** Printing a number in decimal and reading it back: what "%d" and "%zu" produce and what atoi accepts. */
module Decimal {

  predicate IsDigit(ch: char)
  {
    '0' <= ch <= '9'
  }

  predicate AllDigits(s: string)
  {
    forall k :: 0 <= k < |s| ==> IsDigit(s[k])
  }

  function DigitChar(d: nat): (ch: char)
    requires d < 10
    ensures IsDigit(ch) && DigitValue(ch) == d
  {
    '0' + d as char
  }

  function DigitValue(ch: char): (d: nat)
    requires IsDigit(ch)
    ensures d < 10
  {
    ch as int - '0' as int
  }

  /** The decimal notation of n, without leading zeros. */
  function Print(n: nat): (s: string)
    ensures 0 < |s| && AllDigits(s)
  {
    if n < 10 then [DigitChar(n)] else Print(n / 10) + [DigitChar(n % 10)]
  }

  /** The value of a string of digits: what atoi makes of it when it is within range. */
  function ValueOf(s: string): nat
    requires AllDigits(s)
  {
    if s == [] then 0 else 10 * ValueOf(s[..|s| - 1]) + DigitValue(s[|s| - 1])
  }

  /** The ten digits, as they are printed and read. */
  lemma {:induction false} Digits(d: nat)
    requires d < 10
    ensures Print(d) == ["0123456789"[d]]
    ensures DigitValue("0123456789"[d]) == d
  {
    assert d in {0, 1, 2, 3, 4, 5, 6, 7, 8, 9};
  }

  lemma {:induction false} DigitIff(ch: char)
    ensures IsDigit(ch) <==> ch in "0123456789"
  {
    if IsDigit(ch) {
      var d := ch as int - '0' as int;
      assert d in {0, 1, 2, 3, 4, 5, 6, 7, 8, 9};
      assert ch == "0123456789"[d];
    }
  }

  /** A longer number is printed with the digit of its remainder last. */
  lemma {:induction false} LastDigit(n: nat)
    requires n >= 10
    ensures Print(n) == Print(n / 10) + ["0123456789"[n % 10]]
  {
    Digits(n % 10);
  }

  /** One more digit read makes ten times the number and the digit. */
  lemma {:induction false} NextDigit(s: string, d: nat)
    requires AllDigits(s) && d < 10
    ensures AllDigits(s + ["0123456789"[d]])
    ensures ValueOf(s + ["0123456789"[d]]) == 10 * ValueOf(s) + d
  {
    Digits(d);
    assert (s + ["0123456789"[d]])[..|s|] == s;
  }

  /** Reading back what was printed. */
  lemma {:induction false} PrintThenRead(n: nat)
    ensures ValueOf(Print(n)) == n
  {
    var s := Print(n);
    if n >= 10 {
      assert s[..|s| - 1] == Print(n / 10);
      PrintThenRead(n / 10);
    }
  }

  lemma {:induction false} PrintInjective(m: nat, n: nat)
    ensures Print(m) == Print(n) <==> m == n
  {
    PrintThenRead(m);
    PrintThenRead(n);
  }

  function Pow10(k: nat): (p: nat)
    ensures p > 0
  {
    if k == 0 then 1 else 10 * Pow10(k - 1)
  }

  /** k digits are enough for the numbers below ten to the k. */
  lemma {:induction false} PrintLength(n: nat, k: nat)
    requires 1 <= k && n < Pow10(k)
    ensures |Print(n)| <= k
  {
    if n >= 10 {
      PrintLength(n / 10, k - 1);
    }
  }

  /** And for no others. */
  lemma {:induction false} PrintLengthIff(n: nat, k: nat)
    requires 1 <= k
    ensures |Print(n)| <= k <==> n < Pow10(k)
  {
    if n < Pow10(k) {
      PrintLength(n, k);
    } else if n >= 10 && k > 1 {
      PrintLengthIff(n / 10, k - 1);
    }
  }
}
