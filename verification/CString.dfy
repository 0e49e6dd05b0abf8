/** Strings as the C library sees them: strcmp, strsep on blanks, fgets. */
module CString {

  /** strcmp: negative, zero or positive. The terminator is smaller than every character. */
  function StrCmp(a: string, b: string): int
  {
    if a == [] then (if b == [] then 0 else -1)
    else if b == [] then 1
    else if a[0] < b[0] then -1
    else if b[0] < a[0] then 1
    else StrCmp(a[1..], b[1..])
  }

  lemma {:induction false} StrCmpZero(a: string, b: string)
    ensures StrCmp(a, b) == 0 <==> a == b
  {
    if a != [] && b != [] {
      StrCmpZero(a[1..], b[1..]);
      assert a == [a[0]] + a[1..] && b == [b[0]] + b[1..];
    }
  }

  /** Smaller is a proper beginning, or what has the smaller character at the first difference. */
  predicate Precedes(a: string, b: string)
  {
    a < b || exists k :: 0 <= k < |a| && k < |b| && a[..k] == b[..k] && a[k] < b[k]
  }

  lemma {:induction false} StrCmpNegativeIff(a: string, b: string)
    ensures StrCmp(a, b) < 0 <==> Precedes(a, b)
  {
    hide Precedes;
    if a == [] || b == [] {
      NothingPrecedes(a, b);
    } else if a[0] == b[0] {
      StrCmpNegativeIff(a[1..], b[1..]);
      SameHead(a, b);
    } else {
      OtherHead(a, b);
    }
  }

  lemma {:induction false} NothingPrecedes(a: string, b: string)
    requires a == [] || b == []
    ensures Precedes(a, b) <==> a == [] && b != []
  {
  }

  lemma {:induction false} OtherHead(a: string, b: string)
    requires a != [] && b != [] && a[0] != b[0]
    ensures Precedes(a, b) <==> a[0] < b[0]
  {
    assert a[..0] == b[..0];
    assert forall k :: 0 < k <= |a| ==> a[..k][0] == a[0];
  }

  lemma {:induction false} SameHead(a: string, b: string)
    requires a != [] && b != [] && a[0] == b[0]
    ensures Precedes(a, b) <==> Precedes(a[1..], b[1..])
  {
    var s, t := a[1..], b[1..];
    assert a == [a[0]] + s && b == [b[0]] + t;
    if k :| 0 <= k < |s| && k < |t| && s[..k] == t[..k] && s[k] < t[k] {
      assert a[..k + 1] == [a[0]] + s[..k] && b[..k + 1] == [b[0]] + t[..k];
    }
    if k :| 0 <= k < |a| && k < |b| && a[..k] == b[..k] && a[k] < b[k] {
      assert s[..k - 1] == a[..k][1..] && t[..k - 1] == b[..k][1..];
      assert s[k - 1] < t[k - 1];
    }
  }

  lemma {:induction false} StrCmpOpposite(a: string, b: string)
    ensures StrCmp(a, b) == -StrCmp(b, a)
  {
    if a != [] && b != [] {
      StrCmpOpposite(a[1..], b[1..]);
    }
  }

  lemma {:induction false} StrCmpTransitive(a: string, b: string, c: string)
    requires StrCmp(a, b) <= 0 && StrCmp(b, c) <= 0
    ensures StrCmp(a, c) <= 0
    ensures StrCmp(a, b) < 0 || StrCmp(b, c) < 0 ==> StrCmp(a, c) < 0
  {
    if a != [] && b != [] && c != [] && a[0] == b[0] == c[0] {
      StrCmpTransitive(a[1..], b[1..], c[1..]);
    }
  }

  predicate IsBlank(ch: char)
  {
    ch == ' ' || ch == '\t'
  }

  /** How far strsep reads with blanks as delimiters. */
  function Word(s: string): (n: nat)
    ensures n <= |s|
    ensures forall k :: 0 <= k < n ==> !IsBlank(s[k])
    ensures n < |s| ==> IsBlank(s[n])
  {
    if s == [] || IsBlank(s[0]) then 0 else 1 + Word(s[1..])
  }

  /** How many characters fgets takes with a buffer of the given size: through the first newline, at most size - 1. */
  function LineLength(text: string, size: nat): (n: nat)
    requires 1 < size
    ensures n < size && n <= |text| && (text != [] ==> 0 < n)
    ensures forall k :: 0 <= k < n - 1 ==> text[k] != '\n'
    ensures text != [] && n < |text| && n < size - 1 ==> text[n - 1] == '\n'
  {
    if text == [] then 0
    else if text[0] == '\n' || size == 2 then 1
    else 1 + LineLength(text[1..], size - 1)
  }
}
