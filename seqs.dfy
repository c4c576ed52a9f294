/** Ordered child lists: the widget tree keeps each container's children in
    insertion order, and removing a child keeps the order of the rest. */
module Seqs {

  /** No element occurs twice: a widget has at most one place among its parent's children. */
  predicate Distinct<T(==)>(s: seq<T>)
  {
    forall i, j :: 0 <= i < j < |s| ==> s[i] != s[j]
  }

  /** The list without `x`, the others in their order. */
  function Remove<T(==)>(s: seq<T>, x: T): (r: seq<T>)
    ensures |r| <= |s|
  {
    if s == [] then []
    else if s[0] == x then Remove(s[1..], x)
    else [s[0]] + Remove(s[1..], x)
  }

  /** Removal drops every occurrence of `x` and nothing else. */
  lemma {:induction false} RemoveMembers<T>(s: seq<T>, x: T)
    ensures forall k :: 0 <= k < |Remove(s, x)| ==> Remove(s, x)[k] in s && Remove(s, x)[k] != x
    ensures forall k :: 0 <= k < |s| && s[k] != x ==> s[k] in Remove(s, x)
  {
    if s != [] {
      RemoveMembers(s[1..], x);
      forall k | 0 <= k < |s| && s[k] != x ensures s[k] in Remove(s, x) {
        if k > 0 {
          assert s[k] == s[1..][k - 1];
        }
      }
    }
  }

  /** Removing a child that is not there changes nothing. */
  lemma {:induction false} RemoveAbsent<T>(s: seq<T>, x: T)
    requires x !in s
    ensures Remove(s, x) == s
  {
    if s != [] {
      RemoveAbsent(s[1..], x);
      assert s == [s[0]] + s[1..];
    }
  }

  /** In a list without repetitions, removing `x` is cutting it out at its one position. */
  lemma {:induction false} RemoveAt<T>(s: seq<T>, i: nat)
    requires Distinct(s) && i < |s|
    ensures Remove(s, s[i]) == s[..i] + s[i + 1..]
  {
    var t := s[1..];
    if i == 0 {
      assert s[0] !in t by {
        forall j | 0 <= j < |t| ensures t[j] != s[0] {
          assert t[j] == s[j + 1];
        }
      }
      RemoveAbsent(t, s[0]);
    } else {
      assert Distinct(t) by {
        forall a, b | 0 <= a < b < |t| ensures t[a] != t[b] {
          assert t[a] == s[a + 1] && t[b] == s[b + 1];
        }
      }
      assert t[i - 1] == s[i] && s[0] != s[i];
      RemoveAt(t, i - 1);
      assert Remove(s, s[i]) == [s[0]] + (t[..i - 1] + t[i..]);
      assert t[..i - 1] == s[1..i];
      assert t[i..] == s[i + 1..];
      assert [s[0]] + s[1..i] == s[..i];
    }
  }

  /** Removing the last element of a list without repetitions drops it. */
  lemma RemoveLast<T>(s: seq<T>)
    requires Distinct(s) && s != []
    ensures Remove(s, s[|s| - 1]) == s[..|s| - 1]
  {
    RemoveAt(s, |s| - 1);
    assert s[|s|..] == [];
  }

  /** Removal keeps a list free of repetitions. */
  lemma {:induction false} RemoveDistinct<T>(s: seq<T>, x: T)
    requires Distinct(s)
    ensures Distinct(Remove(s, x))
  {
    if s != [] {
      RemoveDistinct(s[1..], x);
      RemoveMembers(s[1..], x);
    }
  }

  /** Cutting out position `i` keeps every other element. */
  lemma KeepsOthers<T>(s: seq<T>, i: int, x: T)
    requires 0 <= i < |s| && x in s && x != s[i]
    ensures x in s[..i] + s[i + 1..]
  {
    var j :| 0 <= j < |s| && s[j] == x;
    if j < i {
      assert (s[..i] + s[i + 1..])[j] == x;
    } else {
      assert (s[..i] + s[i + 1..])[j - 1] == x;
    }
  }

  /** Position of the first occurrence of `x`, or -1 when it is absent (the lookup a
      container does before erasing a child). */
  method IndexOf<T(==)>(s: seq<T>, x: T) returns (i: int)
    ensures -1 <= i < |s|
    ensures i == -1 <==> x !in s
    ensures i >= 0 ==> s[i] == x && x !in s[..i]
  {
    i := 0;
    while i < |s|
      invariant 0 <= i <= |s|
      invariant x !in s[..i]
    {
      if s[i] == x {
        return;
      }
      i := i + 1;
    }
    assert s[..i] == s;
    i := -1;
  }
}
