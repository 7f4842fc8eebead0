/**
 * `getFibonacciSequence`: the Fibonacci numbers 0, 1, 1, 2, 3, 5, ... The generator yields its
 * two starting values and then, forever, the sum of the last two. It is modelled as the method
 * that yields the first `n` items.
 */
module Fibonacci {

  /** The `k`-th Fibonacci number. */
  function Fib(k: nat): nat
    decreases k
  {
    if k < 2 then k else Fib(k - 2) + Fib(k - 1)
  }

  /** A sequence that starts 0, 1 and whose every later item is the sum of the two before it. */
  predicate Recurrent(s: seq<nat>) {
    (|s| >= 1 ==> s[0] == 0) &&
    (|s| >= 2 ==> s[1] == 1) &&
    forall k :: 2 <= k < |s| ==> s[k] == s[k - 2] + s[k - 1]
  }

  /** The first `n` items `getFibonacciSequence()` yields: `prevNumber` and `currNumber`, then the
      loop's `nextNumber`s. */
  method GetFibonacciSequence(n: nat) returns (s: seq<nat>)
    ensures |s| == n
    ensures Recurrent(s)
    ensures forall k :: 0 <= k < n ==> s[k] == Fib(k)
  {
    var prev: nat, curr: nat, next: nat := 0, 1, 1;
    s := [];
    if n >= 1 {
      s := s + [prev];
    }
    if n >= 2 {
      s := s + [curr];
    }
    ghost var i := |s|;
    while |s| < n
      invariant i == |s| <= n
      invariant i == n || i >= 2
      invariant forall k :: 0 <= k < i ==> s[k] == Fib(k)
      invariant i >= 2 ==> prev == Fib(i - 2) && curr == Fib(i - 1)
      decreases n - i
    {
      next := prev + curr;
      assert next == Fib(i);
      s := s + [next];
      prev := curr;
      curr := next;
      i := i + 1;
    }
    FibRecurrent(s);
  }

  /** A sequence follows the recurrence exactly when it is the Fibonacci numbers from the start. */
  lemma {:induction false} FibRecurrent(s: seq<nat>)
    ensures Recurrent(s) <==> forall k :: 0 <= k < |s| ==> s[k] == Fib(k)
  {
    if Recurrent(s) {
      forall k | 0 <= k < |s| ensures s[k] == Fib(k) {
        RecurrentIsFib(s, k);
      }
    }
  }

  lemma {:induction false} RecurrentIsFib(s: seq<nat>, k: nat)
    requires Recurrent(s) && k < |s|
    ensures s[k] == Fib(k)
    decreases k
  {
    if k >= 2 {
      RecurrentIsFib(s, k - 2);
      RecurrentIsFib(s, k - 1);
    }
  }

  /** The yielded items never decrease from the second on. */
  lemma {:induction false} FibGrows(k: nat)
    requires k >= 1
    ensures Fib(k) <= Fib(k + 1)
  {
    if k >= 2 {
      assert Fib(k + 1) == Fib(k - 1) + Fib(k);
    }
  }

  /** The documented opening 0, 1, 1, 2, 3, 5, 8, 13, 21, 34, 55, 89, 144, 233. */
  lemma Opening()
    ensures Fib(0) == 0 && Fib(1) == 1 && Fib(2) == 1 && Fib(3) == 2 && Fib(4) == 3
    ensures Fib(5) == 5 && Fib(6) == 8 && Fib(7) == 13 && Fib(8) == 21 && Fib(9) == 34
    ensures Fib(10) == 55 && Fib(11) == 89 && Fib(12) == 144 && Fib(13) == 233
  {
  }
}
