/** Rotations of a sequence and the search that rotates it: what find_segment does to the cache's queue of
    segments (project3/simplecached.c), stated on sequences. The linked queue refines these functions. */
module Rotation {

  /** The front element moved to the back. */
  function RotateLeft<T>(s: seq<T>): (r: seq<T>)
    ensures |r| == |s|
  {
    if s == [] then [] else s[1..] + [s[0]]
  }

  /** RotateLeft applied k times. */
  function RotateTimes<T>(s: seq<T>, k: nat): (r: seq<T>)
    decreases k
  {
    if k == 0 then s else RotateTimes(RotateLeft(s), k - 1)
  }

  /** Up to a full turn, k rotations are a cut at position k. */
  lemma {:induction false} RotateTimesIsCut<T>(s: seq<T>, k: nat)
    requires k <= |s|
    ensures RotateTimes(s, k) == s[k..] + s[..k]
  {
    if k == 0 {
      assert s[0..] + s[..0] == s;
    } else {
      RotateTimesLast(s, k - 1);
      RotateTimesIsCut(s, k - 1);
      var a := s[k - 1..] + s[..k - 1];
      assert a[1..] + [a[0]] == s[k..] + s[..k];
    }
  }

  lemma {:induction false} RotateTimesLast<T>(s: seq<T>, k: nat)
    ensures RotateTimes(s, k + 1) == RotateLeft(RotateTimes(s, k))
    decreases k
  {
    if k > 0 {
      RotateTimesLast(RotateLeft(s), k - 1);
    }
  }

  /** As many rotations as there are elements change nothing. */
  lemma {:induction false} FullTurnIsIdentity<T>(s: seq<T>)
    ensures RotateTimes(s, |s|) == s
  {
    RotateTimesIsCut(s, |s|);
    assert s[|s|..] + s[..|s|] == s;
  }

  /** No number of rotations adds or loses an element. */
  lemma {:induction false} RotateTimesKeepsElements<T>(s: seq<T>, k: nat)
    ensures multiset(RotateTimes(s, k)) == multiset(s)
    decreases k
  {
    if k > 0 {
      if s != [] { assert s == [s[0]] + s[1..]; }
      assert multiset(RotateLeft(s)) == multiset(s);
      RotateTimesKeepsElements(RotateLeft(s), k - 1);
    }
  }

  /** The first position of x. */
  function IndexOf<T(==)>(s: seq<T>, x: T): (k: nat)
    requires x in s
    ensures k < |s| && s[k] == x
    ensures x !in s[..k]
  {
    if s[0] == x then 0 else 1 + IndexOf(s[1..], x)
  }

  /** The queue as the rotating search leaves it: x, which was found at the front, is now at the back. */
  function AfterSearch<T(==)>(s: seq<T>, x: T): (r: seq<T>)
    requires x in s
    ensures |r| == |s| && r[|s| - 1] == x
  {
    var k := IndexOf(s, x);
    s[k + 1..] + s[..k + 1]
  }

  /** The search loses and adds nothing, and it is a rotation by position + 1. */
  lemma {:induction false} AfterSearchIsRotation<T>(s: seq<T>, x: T)
    requires x in s
    ensures AfterSearch(s, x) == RotateTimes(s, IndexOf(s, x) + 1)
    ensures multiset(AfterSearch(s, x)) == multiset(s)
  {
    RotateTimesIsCut(s, IndexOf(s, x) + 1);
    RotateTimesKeepsElements(s, IndexOf(s, x) + 1);
  }

  ghost predicate Distinct<T>(s: seq<T>)
  {
    forall i, j :: 0 <= i < j < |s| ==> s[i] != s[j]
  }

  ghost predicate ReachesFront<T>(s: seq<T>, x: T)
  {
    exists k: nat :: AtFrontAfter(s, x, k)
  }

  ghost predicate AtFrontAfter<T>(s: seq<T>, x: T, k: nat)
  {
    var r := RotateTimes(s, k);
    |r| > 0 && r[0] == x
  }

  /** The loop of find_segment has no counter of its own: it stops exactly when the index is in the queue. */
  lemma {:induction false} SearchStopsIffPresent<T>(s: seq<T>, x: T)
    ensures ReachesFront(s, x) <==> x in s
  {
    if x in s {
      var k := IndexOf(s, x);
      RotateTimesIsCut(s, k);
      assert AtFrontAfter(s, x, k);
    }
    if ReachesFront(s, x) {
      var k: nat :| AtFrontAfter(s, x, k);
      RotateTimesKeepsElements(s, k);
      assert RotateTimes(s, k)[0] in multiset(s);
    }
  }
}
