/** Python's slicing and searching on sequences, which clamp out-of-range bounds instead of failing. */
module Slices {

  /** `s[:n]` for any int n: a negative n drops that many elements from the end. */
  function Prefix<T>(s: seq<T>, n: int): (r: seq<T>)
    ensures n >= 0 ==> r == s[..if n <= |s| then n else |s|]
    ensures n < 0 ==> r == s[..if -n <= |s| then |s| + n else 0]
  {
    if n >= 0 then (if n <= |s| then s[..n] else s)
    else if -n <= |s| then s[..|s| + n] else []
  }

  /** `s[n:]` for n >= 0. */
  function Suffix<T>(s: seq<T>, n: nat): (r: seq<T>)
    ensures |r| == if n <= |s| then |s| - n else 0
    ensures n <= |s| ==> r == s[n..]
  {
    if n <= |s| then s[n..] else []
  }

  /** `s[lo:hi]` for 0 <= lo, 0 <= hi. */
  function Sub<T>(s: seq<T>, lo: nat, hi: nat): (r: seq<T>)
    ensures lo <= hi <= |s| ==> r == s[lo..hi]
    ensures |r| <= |s|
  {
    Suffix(Prefix(s, hi), lo)
  }

  /** `s[:-n]` for n > 0: everything but the last n elements, empty when s is shorter. */
  function DropLast<T>(s: seq<T>, n: nat): (r: seq<T>)
    requires n > 0
    ensures |s| >= n ==> r == s[..|s| - n]
    ensures |s| < n ==> r == []
  {
    Prefix(s, -(n as int))
  }

  predicate StartsWith<T(==)>(s: seq<T>, prefix: seq<T>) {
    |prefix| <= |s| && s[..|prefix|] == prefix
  }

  predicate EndsWith<T(==)>(s: seq<T>, suffix: seq<T>) {
    |suffix| <= |s| && s[|s| - |suffix|..] == suffix
  }

  /** `s.find(x, start)`: the first index at or after start holding x, or -1. */
  function FindFrom<T(==)>(s: seq<T>, x: T, start: nat): (r: int)
    ensures r == -1 || start <= r < |s|
    ensures r != -1 ==> s[r] == x
    decreases |s| - start
  {
    if start >= |s| then -1
    else if s[start] == x then start
    else FindFrom(s, x, start + 1)
  }

  /** `find` answers -1 exactly when x does not occur from start on, and otherwise the
      first such index. */
  lemma {:induction false} FindFromFirst<T>(s: seq<T>, x: T, start: nat)
    ensures FindFrom(s, x, start) == -1 <==> forall i :: start <= i < |s| ==> s[i] != x
    ensures FindFrom(s, x, start) != -1 ==> forall i :: start <= i < FindFrom(s, x, start) ==> s[i] != x
    decreases |s| - start
  {
    if start < |s| && s[start] != x {
      FindFromFirst(s, x, start + 1);
    }
  }

  /** `s.rfind(x)`: the last index holding x, or -1. */
  function RFind<T(==)>(s: seq<T>, x: T): (r: int)
    ensures r == -1 || 0 <= r < |s|
    ensures r == -1 <==> x !in s
    ensures r != -1 ==> s[r] == x && forall i :: r < i < |s| ==> s[i] != x
    decreases |s|
  {
    if s == [] then -1
    else if s[|s| - 1] == x then |s| - 1
    else RFind(s[..|s| - 1], x)
  }
}
