/** Python's `deque(maxlen=n)`: appending to a full deque drops its oldest element. */
module BoundedDeque {

  /** The last `n` elements, or all of them. */
  function Last<T>(s: seq<T>, n: nat): seq<T> { if |s| <= n then s else s[|s| - n..] }

  function Append<T>(d: seq<T>, x: T, maxlen: nat): seq<T> { Last(d + [x], maxlen) }

  /** Cutting early and cutting late leave the same window. */
  lemma LastOfLast<T>(a: seq<T>, b: seq<T>, n: nat)
    ensures Last(Last(a, n) + b, n) == Last(a + b, n)
  {
  }

  lemma LastDrop<T>(a: seq<T>, b: seq<T>, n: nat)
    requires |a| <= n
    ensures Last(a + b, n)[if |a| <= |Last(a + b, n)| then |a| else |Last(a + b, n)|..] == Last(b, n - |a|)
  {
  }

  /** The window is the end of the list, in order, and as long as fits. */
  lemma LastIsSuffix<T>(s: seq<T>, n: nat)
    ensures |Last(s, n)| == (if |s| <= n then |s| else n)
    ensures forall i :: 0 <= i < |Last(s, n)| ==> Last(s, n)[i] == s[|s| - |Last(s, n)| + i]
  {
  }
}
