/** The few Python list operations the engines rely on: `index`, `remove`, membership. */
module Seqs {
  import opened Wrappers

  /** No element occurs twice. */
  ghost predicate NoDup<T>(s: seq<T>) {
    forall i, j :: 0 <= i < j < |s| ==> s[i] != s[j]
  }

  /** The set of elements of a list. */
  function Elems<T(==)>(s: seq<T>): set<T> {
    set x | x in s
  }

  /** `s.index(x)`: the position of the first occurrence, or None where Python raises ValueError. */
  function IndexOf<T(==)>(s: seq<T>, x: T): (r: Option<nat>)
    ensures r.None? <==> x !in s
    ensures r.Some? ==> r.value < |s| && s[r.value] == x && x !in s[..r.value]
  {
    if s == [] then None
    else if s[0] == x then Some(0)
    else match IndexOf(s[1..], x)
      case None => None
      case Some(i) =>
        assert s[..i + 1] == [s[0]] + s[1..][..i];
        Some(i + 1)
  }

  /**
   * `s.remove(x)`: drops the first occurrence of `x` and keeps the rest in order. On an absent
   * `x` Python raises ValueError where this returns `s` unchanged; every caller checks
   * membership first.
   */
  function RemoveFirst<T(==)>(s: seq<T>, x: T): (r: seq<T>)
    ensures x !in s ==> r == s
    ensures x in s ==> r == s[..IndexOf(s, x).value] + s[IndexOf(s, x).value + 1..]
  {
    if s == [] then []
    else if s[0] == x then s[1..]
    else
      var t := s[1..];
      var r := [s[0]] + RemoveFirst(t, x);
      match IndexOf(t, x)
      case None =>
        assert s == [s[0]] + t;
        r
      case Some(i) =>
        ConsDelete(s, i);
        r
  }

  /** Deleting position i of the tail and putting the head back deletes position i + 1. */
  lemma ConsDelete<T>(s: seq<T>, i: nat)
    requires i + 1 < |s|
    ensures [s[0]] + (s[1..][..i] + s[1..][i + 1..]) == s[..i + 1] + s[i + 2..]
  {
    assert s[..i + 1] == [s[0]] + s[1..][..i];
    assert s[i + 2..] == s[1..][i + 1..];
  }

  /** The linear search behind `s.index(x)`: scans from the front and stops at the first match. */
  method FindIndex<T(==)>(s: seq<T>, x: T) returns (r: Option<nat>)
    ensures r == IndexOf(s, x)
  {
    r := None;
    var k := 0;
    while k < |s|
      invariant 0 <= k <= |s| && r.None?
      invariant x !in s[..k]
    {
      if s[k] == x {
        r := Some(k);
        IndexOfAt(s, x, k);
        return;
      }
      assert s[..k + 1] == s[..k] + [s[k]];
      k := k + 1;
    }
    assert s[..k] == s;
  }

  /** In a list without repetitions, the number of distinct elements is the length. */
  lemma {:induction false} NoDupSize<T>(s: seq<T>)
    requires NoDup(s)
    ensures |Elems(s)| == |s|
  {
    if s != [] {
      assert NoDup(s[1..]);
      NoDupSize(s[1..]);
      assert Elems(s) == {s[0]} + Elems(s[1..]);
      assert s[0] !in Elems(s[1..]);
    }
  }

  /** In a list without repetitions, an element that occurs, occurs exactly once. */
  lemma {:induction false} NoDupCount<T>(s: seq<T>, x: T)
    requires NoDup(s)
    ensures multiset(s)[x] == if x in s then 1 else 0
  {
    if s != [] {
      assert s == [s[0]] + s[1..];
      assert NoDup(s[1..]);
      NoDupCount(s[1..], x);
      assert s[0] !in s[1..];
    }
  }

  /** Deleting position i shifts the later elements down by one. */
  lemma DeleteAtIndex<T>(s: seq<T>, i: nat)
    requires i < |s|
    ensures |s[..i] + s[i + 1..]| == |s| - 1
    ensures forall k :: 0 <= k < i ==> (s[..i] + s[i + 1..])[k] == s[k]
    ensures forall k :: i < k < |s| ==> (s[..i] + s[i + 1..])[k - 1] == s[k]
  {
  }

  /** Deleting a position of a list without repetitions removes that element and nothing else. */
  lemma DeleteAt<T>(s: seq<T>, i: nat)
    requires NoDup(s) && i < |s|
    ensures NoDup(s[..i] + s[i + 1..])
    ensures forall y :: y in s[..i] + s[i + 1..] <==> y in s && y != s[i]
  {
    var r := s[..i] + s[i + 1..];
    DeleteAtIndex(s, i);
    forall y | y in r ensures y in s && y != s[i] {
      var k :| 0 <= k < |r| && r[k] == y;
      if k < i { assert s[k] == y; } else { assert s[k + 1] == y; }
    }
    forall y | y in s && y != s[i] ensures y in r {
      var k :| 0 <= k < |s| && s[k] == y;
      if k < i { assert r[k] == y; } else { assert r[k - 1] == y; }
    }
    forall a, b | 0 <= a < b < |r| ensures r[a] != r[b] {
      var a' := if a < i then a else a + 1;
      var b' := if b < i then b else b + 1;
      assert r[a] == s[a'] && r[b] == s[b'];
    }
  }

  /** Removing the first occurrence of `x` from a list without repetitions removes `x` and nothing else. */
  lemma RemoveFirstElems<T>(s: seq<T>, x: T)
    requires NoDup(s)
    ensures NoDup(RemoveFirst(s, x))
    ensures forall y :: y in RemoveFirst(s, x) <==> y in s && y != x
  {
    if x in s {
      DeleteAt(s, IndexOf(s, x).value);
    }
  }

  /** The first occurrence is the position where `x` occurs with no occurrence before it. */
  lemma IndexOfAt<T>(s: seq<T>, x: T, k: nat)
    requires k < |s| && s[k] == x && x !in s[..k]
    ensures IndexOf(s, x) == Some(k)
  {
  }

  /** Removing by value the first occurrence of an element found at position i deletes position i. */
  lemma RemoveFirstAt<T>(s: seq<T>, i: nat)
    requires i < |s| && forall k :: 0 <= k < i ==> s[k] != s[i]
    ensures RemoveFirst(s, s[i]) == s[..i] + s[i + 1..]
  {
  }

  /** A list is what comes before position i, the element at i, and what comes after. */
  lemma SplitAt<T>(s: seq<T>, i: nat)
    requires i < |s|
    ensures s == s[..i] + [s[i]] + s[i + 1..]
  {
  }

  /** In a list without repetitions, the element at position i occurs neither before nor after it. */
  lemma NoDupSplit<T>(s: seq<T>, i: nat)
    requires NoDup(s) && i < |s|
    ensures s[i] !in s[..i] && s[i] !in s[i + 1..]
  {
    var post := s[i + 1..];
    forall k | 0 <= k < |post| ensures post[k] != s[i] {
      assert post[k] == s[i + 1 + k];
    }
  }

  /** Appending an element not yet present keeps a list free of repetitions. */
  lemma NoDupSnoc<T>(s: seq<T>, x: T)
    requires NoDup(s) && x !in s
    ensures NoDup(s + [x])
  {
    var t := s + [x];
    forall i, j | 0 <= i < j < |t| ensures t[i] != t[j] {
      assert t[i] == s[i];
      if j == |s| { assert t[i] in s; } else { assert t[j] == s[j]; }
    }
  }

  /** Appending x and then a list is appending the list that starts with x. */
  lemma SnocThenAppend<T>(a: seq<T>, x: T, b: seq<T>)
    ensures (a + [x]) + b == a + ([x] + b)
  {
  }

  /** Multiset union cancels. */
  lemma MultisetCancel<T>(a: multiset<T>, b: multiset<T>, m: multiset<T>)
    requires a + m == b + m
    ensures a == b
  {
    forall x ensures a[x] == b[x] {
      assert (a + m)[x] == (b + m)[x];
    }
  }
}
