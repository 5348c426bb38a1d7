/** The `List<T>` operations the source relies on: `Remove` (first occurrence)
    and `RemoveAt`, plus the no-repeats predicate used to state their effect. */
module Seqs {

  predicate Distinct<T(==)>(s: seq<T>) {
    forall i, j :: 0 <= i < j < |s| ==> s[i] != s[j]
  }

  /** Appending a new element keeps a sequence free of repeats. */
  lemma DistinctAppend<T>(s: seq<T>, x: T)
    requires Distinct(s) && x !in s
    ensures Distinct(s + [x])
  {
  }

  /** Concatenation is associative; stated once so that proofs about
      recursive functions need not re-derive it element by element. */
  lemma AppendAssoc<T>(a: seq<T>, b: seq<T>, c: seq<T>)
    ensures a + (b + c) == (a + b) + c
  {
  }

  /** Splitting a sequence at `k`: the prefix grows by `s[k]` and the suffix
      starts with it. */
  lemma SplitAt<T>(s: seq<T>, k: nat)
    requires k < |s|
    ensures s[..k + 1] == s[..k] + [s[k]]
    ensures s[k..] == [s[k]] + s[k + 1..]
    ensures s[..k + 1][..k] == s[..k] && s[..k + 1][k] == s[k]
  {
  }

  /** `RemoveAt(i)`: later elements shift down by one. */
  function RemoveAt<T>(s: seq<T>, i: nat): (r: seq<T>)
    requires i < |s|
    ensures |r| == |s| - 1
    ensures forall k :: 0 <= k < i ==> r[k] == s[k]
    ensures forall k :: i <= k < |r| ==> r[k] == s[k + 1]
  {
    s[..i] + s[i + 1..]
  }

  /** Removing one element keeps the others distinct and drops that element. */
  lemma RemoveAtDistinct<T>(s: seq<T>, i: nat)
    requires i < |s| && Distinct(s)
    ensures Distinct(RemoveAt(s, i))
    ensures s[i] !in RemoveAt(s, i)
    ensures forall x :: x in RemoveAt(s, i) ==> x in s
  {
    RemoveAtMembers(s, i);
    var r := RemoveAt(s, i);
    forall x | x in r
      ensures x != s[i]
    {
      var k :| 0 <= k < |r| && r[k] == x;
      if k >= i {
        assert r[k] == s[k + 1];
      }
    }
  }

  /** `RemoveAt` keeps exactly the elements other than the removed one: every
      element left was in the original, and every other value of the
      original is still there. */
  lemma RemoveAtMembers<T>(s: seq<T>, i: nat)
    requires i < |s|
    ensures forall x :: x in RemoveAt(s, i) ==> x in s
    ensures forall x :: x in s && x != s[i] ==> x in RemoveAt(s, i)
  {
    var r := RemoveAt(s, i);
    forall x | x in r
      ensures x in s
    {
      var k :| 0 <= k < |r| && r[k] == x;
      if k >= i {
        assert r[k] == s[k + 1];
      }
    }
    forall x | x in s && x != s[i]
      ensures x in r
    {
      var k :| 0 <= k < |s| && s[k] == x;
      if k < i {
        assert r[k] == x;
      } else {
        assert r[k - 1] == x;
      }
    }
  }

  /** Position of the first occurrence. */
  function IndexOf<T(==)>(s: seq<T>, x: T): (i: nat)
    requires x in s
    ensures i < |s| && s[i] == x && x !in s[..i]
  {
    if s[0] == x then 0 else
      var i := 1 + IndexOf(s[1..], x);
      assert s[..i] == [s[0]] + s[1..][..i - 1];
      i
  }

  /** `Remove(x)`: drops the first occurrence of `x`, if any. */
  function RemoveFirst<T(==)>(s: seq<T>, x: T): (r: seq<T>)
    ensures x !in s ==> r == s
    ensures |r| == if x in s then |s| - 1 else |s|
  {
    if |s| == 0 then []
    else
      assert s == [s[0]] + s[1..];
      if s[0] == x then s[1..] else [s[0]] + RemoveFirst(s[1..], x)
  }

  /** Removing the first occurrence is removing at its index: everything
      before it and everything after it keeps its order. */
  lemma {:induction false} RemoveFirstAtIndex<T>(s: seq<T>, x: T)
    requires x in s
    ensures RemoveFirst(s, x) == RemoveAt(s, IndexOf(s, x))
  {
    if s[0] != x {
      RemoveFirstAtIndex(s[1..], x);
      var t := s[1..];
      var i := IndexOf(t, x);
      assert IndexOf(s, x) == i + 1;
      assert RemoveFirst(s, x) == [s[0]] + RemoveFirst(t, x);
      assert RemoveFirst(t, x) == t[..i] + t[i + 1..];
      assert s[..i + 1] == [s[0]] + t[..i];
      assert s[i + 2..] == t[i + 1..];
    }
  }

  /** `Remove(x)` takes away exactly one copy of `x` when there is one. */
  lemma {:induction false} RemoveFirstMultiset<T>(s: seq<T>, x: T)
    ensures multiset(RemoveFirst(s, x)) == multiset(s) - multiset{x}
  {
    if |s| > 0 {
      assert s == [s[0]] + s[1..];
      if s[0] != x {
        RemoveFirstMultiset(s[1..], x);
      }
    }
  }

  /** When the prefix `a` holds no `x`, `Remove(x)` takes out the `x` that
      follows it and leaves both sides as they are. */
  lemma RemoveFirstAfter<T>(a: seq<T>, x: T, b: seq<T>)
    requires x !in a
    ensures RemoveFirst(a + [x] + b, x) == a + b
  {
    var s := a + [x] + b;
    var n := |a|;
    assert s[..n] == a && s[n] == x && s[n + 1..] == b;
    assert IndexOf(s, x) == n;
    RemoveFirstAtIndex(s, x);
  }

  /** `Remove` never adds an element. */
  lemma {:induction false} RemoveFirstMembers<T>(s: seq<T>, x: T)
    ensures forall y :: y in RemoveFirst(s, x) ==> y in s
  {
    if |s| > 0 && s[0] != x {
      RemoveFirstMembers(s[1..], x);
      assert s == [s[0]] + s[1..];
    }
  }
}
