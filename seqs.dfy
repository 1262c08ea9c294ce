/** Python list operations used by the queue and the capture buffers. */
module Seqs {
  import opened Wrappers

  /** Python's list.index(x): the first position of x, or None where Python raises ValueError. */
  function IndexOf<T(==)>(s: seq<T>, x: T): (r: Option<nat>)
    ensures r.None? <==> x !in s
    ensures r.Some? ==> r.value < |s| && s[r.value] == x && x !in s[..r.value]
  {
    if s == [] then None
    else if s[0] == x then Some(0)
    else
      var r := IndexOf(s[1..], x);
      if r.None? then None
      else
        assert s[..r.value + 1] == [s[0]] + s[1..][..r.value];
        Some(r.value + 1)
  }

  /** Appending an element leaves the position of every element already present unchanged. */
  lemma {:induction false} IndexOfAppend<T>(s: seq<T>, y: T, x: T)
    ensures x in s ==> IndexOf(s + [y], x) == IndexOf(s, x)
    ensures x !in s && x == y ==> IndexOf(s + [y], x) == Some(|s|)
    ensures x !in s && x != y ==> IndexOf(s + [y], x).None?
  {
    var i := IndexOf(s + [y], x);
    if x in s {
      var j := IndexOf(s, x).value;
      assert (s + [y])[j] == x;
      assert (s + [y])[..j] == s[..j];
      forall m | 0 <= m < j
        ensures (s + [y])[m] != x
      {
        assert (s + [y])[m] == s[..j][m];
      }
    } else if x == y {
      assert (s + [y])[|s|] == x;
      assert (s + [y])[..|s|] == s;
    }
  }

  /** Python's list.remove(x) guarded by `if x in list`: drops the first occurrence of x, if any. */
  function RemoveFirst<T(==)>(s: seq<T>, x: T): (r: seq<T>)
    ensures x !in s ==> r == s
    ensures x in s ==> r == s[..IndexOf(s, x).value] + s[IndexOf(s, x).value + 1..]
  {
    if s == [] then []
    else if s[0] == x then s[1..]
    else
      var r := [s[0]] + RemoveFirst(s[1..], x);
      assert x in s[1..] ==> s[..IndexOf(s, x).value] == [s[0]] + s[1..][..IndexOf(s[1..], x).value];
      r
  }

  /** Removing x keeps every other element, in the same relative order, and adds nothing. */
  lemma {:induction false} RemoveFirstKeepsOthers<T>(s: seq<T>, x: T)
    ensures |RemoveFirst(s, x)| == if x in s then |s| - 1 else |s|
    ensures forall y :: y != x ==> (y in RemoveFirst(s, x) <==> y in s)
    ensures forall y :: y in RemoveFirst(s, x) ==> y in s
    ensures (forall i, j :: 0 <= i < j < |s| ==> s[i] != s[j]) ==> x !in RemoveFirst(s, x)
  {
    if x in s {
      var k := IndexOf(s, x).value;
      var r := RemoveFirst(s, x);
      assert r == s[..k] + s[k + 1..];
      assert s == s[..k] + [x] + s[k + 1..];
      if forall i, j :: 0 <= i < j < |s| ==> s[i] != s[j] {
        forall m | 0 <= m < |r|
          ensures r[m] != x
        {
          if m < k {
            assert r[m] == s[..k][m];
          } else {
            assert r[m] == s[m + 1];
          }
        }
      }
    }
  }

  /** Python's s[:n] for n >= 0. */
  function Take<T>(s: seq<T>, n: nat): (r: seq<T>)
    ensures |r| == if n < |s| then n else |s|
    ensures r == s[..|r|]
  {
    if n < |s| then s[..n] else s
  }

  /** Python's s[-n:] for any integer n, including its quirks: s[-0:] is the whole list and a
      negative n drops the first -n elements. */
  function PyTail<T>(s: seq<T>, n: int): (r: seq<T>)
    ensures n > 0 ==> |r| == (if n < |s| then n else |s|)
    ensures n == 0 ==> r == s
    ensures |r| <= |s| && r == s[|s| - |r|..]
  {
    var start := -n;
    var start' := if start < 0 then start + |s| else start;
    var clamped := if start' < 0 then 0 else if start' > |s| then |s| else start';
    s[clamped..]
  }

  /** The last n elements of s, or all of them when there are fewer. */
  function LastN<T>(s: seq<T>, n: nat): (r: seq<T>)
    ensures |r| == if n < |s| then n else |s|
    ensures r == s[|s| - |r|..]
  {
    if n < |s| then s[|s| - n..] else s
  }

  /** Append x, then pop the oldest element once when the list is longer than cap
      (the `append` then `if len > cap: pop(0)` idiom). */
  function AppendEvict<T>(s: seq<T>, x: T, cap: nat): (r: seq<T>)
    ensures |s| <= cap ==> r == LastN(s + [x], cap)
  {
    var t := s + [x];
    if |t| > cap then t[1..] else t
  }

  /** A list kept with AppendEvict never exceeds its cap, keeps the newest element last,
      and evicts the oldest first. */
  lemma AppendEvictBounded<T>(s: seq<T>, x: T, cap: nat)
    requires |s| <= cap
    ensures |AppendEvict(s, x, cap)| <= cap
    ensures cap > 0 ==> AppendEvict(s, x, cap)[|AppendEvict(s, x, cap)| - 1] == x
    ensures |s| == cap && cap > 0 ==> AppendEvict(s, x, cap) == s[1..] + [x]
    ensures |s| < cap ==> AppendEvict(s, x, cap) == s + [x]
  {
  }
}
