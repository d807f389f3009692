/** The JavaScript array operations the store, the reducers and the pages are built from. */
module Seqs {
  import opened Wrappers

  /** Keeps, in order, the elements that satisfy `p` (`Array.prototype.filter`). */
  function Filter<T(!new)>(s: seq<T>, p: T -> bool): (r: seq<T>)
    ensures |r| <= |s|
    ensures forall i :: 0 <= i < |r| ==> p(r[i])
    ensures forall x :: x in r <==> x in s && p(x)
    ensures multiset(r) <= multiset(s)
  {
    if |s| == 0 then []
    else
      assert s == [s[0]] + s[1..];
      if p(s[0]) then [s[0]] + Filter(s[1..], p) else Filter(s[1..], p)
  }

  /** A filter that no element passes keeps nothing. */
  lemma {:induction false} FilterNone<T(!new)>(s: seq<T>, p: T -> bool)
    requires forall i :: 0 <= i < |s| ==> !p(s[i])
    ensures Filter(s, p) == []
  {
    if |s| > 0 {
      FilterNone(s[1..], p);
    }
  }

  /** One step of the filter: the head is kept exactly when it passes. */
  lemma FilterCons<T(!new)>(s: seq<T>, p: T -> bool)
    requires |s| > 0
    ensures Filter(s, p) == if p(s[0]) then [s[0]] + Filter(s[1..], p) else Filter(s[1..], p)
  {
  }

  /** Removing position `i > 0` keeps the head and removes position `i - 1` of the tail. */
  lemma RemoveAtCons<T>(s: seq<T>, i: int)
    requires 0 < i < |s|
    ensures s[..i] + s[i + 1..] == [s[0]] + (s[1..][..i - 1] + s[1..][i..])
  {
    assert s[..i] == [s[0]] + s[1..][..i - 1];
    assert s[i + 1..] == s[1..][i..];
  }

  /** Filtering distributes over concatenation, so it keeps the relative order of what it keeps. */
  lemma {:induction false} FilterAppend<T(!new)>(a: seq<T>, b: seq<T>, p: T -> bool)
    ensures Filter(a + b, p) == Filter(a, p) + Filter(b, p)
  {
    if |a| == 0 {
      assert a + b == b;
    } else {
      assert (a + b)[1..] == a[1..] + b;
      FilterAppend(a[1..], b, p);
    }
  }

  /** Filtering twice by the same predicate is filtering once. */
  lemma {:induction false} FilterIdempotent<T(!new)>(s: seq<T>, p: T -> bool)
    ensures Filter(Filter(s, p), p) == Filter(s, p)
  {
    if |s| > 0 {
      FilterIdempotent(s[1..], p);
    }
  }

  /** A filter that every element passes changes nothing. */
  lemma {:induction false} FilterKeepsAll<T(!new)>(s: seq<T>, p: T -> bool)
    requires forall i :: 0 <= i < |s| ==> p(s[i])
    ensures Filter(s, p) == s
  {
    if |s| > 0 {
      FilterKeepsAll(s[1..], p);
    }
  }

  /** Index of the first element whose key is `k`, or -1 (`Array.prototype.findIndex`). */
  function FindIndex<T>(s: seq<T>, key: T -> int, k: int): (i: int)
    ensures -1 <= i < |s|
    ensures 0 <= i ==> key(s[i]) == k && forall j :: 0 <= j < i ==> key(s[j]) != k
    ensures i == -1 <==> forall j :: 0 <= j < |s| ==> key(s[j]) != k
  {
    if |s| == 0 then -1
    else if key(s[0]) == k then 0
    else
      var i := FindIndex(s[1..], key, k);
      if i == -1 then -1 else i + 1
  }

  /** Position of the first element satisfying `p`, if any (`Array.prototype.find`
      answers the element at that position). */
  function FindFirst<T>(s: seq<T>, p: T -> bool): (r: Option<nat>)
    ensures r.Some? ==> r.value < |s| && p(s[r.value])
    ensures r.Some? ==> forall j :: 0 <= j < r.value ==> !p(s[j])
    ensures r.None? <==> forall j :: 0 <= j < |s| ==> !p(s[j])
  {
    if |s| == 0 then None
    else if p(s[0]) then Some(0)
    else match FindFirst(s[1..], p)
      case None => None
      case Some(i) => Some(i + 1)
  }

  /** The reducers' `findIndex` followed by `items[idx] = x`: the first element with the
      key of `x` becomes `x`; a list with no such element is returned unchanged. */
  function ReplaceFirst<T>(s: seq<T>, key: T -> int, x: T): (r: seq<T>)
    ensures |r| == |s|
    ensures (forall j :: 0 <= j < |s| ==> key(s[j]) != key(x)) ==> r == s
    ensures (exists j :: 0 <= j < |s| && key(s[j]) == key(x)) ==> x in r
    ensures forall j :: 0 <= j < |s| && r[j] != s[j] ==>
              r[j] == x && key(s[j]) == key(x) && forall m :: 0 <= m < j ==> key(s[m]) != key(x)
  {
    var i := FindIndex(s, key, key(x));
    if i == -1 then s
    else
      var r := s[i := x];
      assert r[i] == x;
      r
  }

  /** Replacing the first match is idempotent. */
  lemma ReplaceFirstIdempotent<T>(s: seq<T>, key: T -> int, x: T)
    ensures ReplaceFirst(ReplaceFirst(s, key, x), key, x) == ReplaceFirst(s, key, x)
  {
    var i := FindIndex(s, key, key(x));
    if i != -1 {
      var t := s[i := x];
      var i' := FindIndex(t, key, key(x));
      assert key(t[i]) == key(x);
      assert i' == i by {
        assert forall j :: 0 <= j < i ==> t[j] == s[j];
      }
    }
  }

  /** When only the last element carries the key, it is the one replaced. */
  lemma ReplaceFirstAtEnd<T>(s: seq<T>, y: T, key: T -> int, x: T)
    requires key(y) == key(x)
    requires forall j :: 0 <= j < |s| ==> key(s[j]) != key(x)
    ensures ReplaceFirst(s + [y], key, x) == s + [x]
  {
    var t := s + [y];
    var r := ReplaceFirst(t, key, x);
    assert key(t[|s|]) == key(x);
    assert forall j :: 0 <= j < |s| ==> r[j] == t[j];
    assert r[|s|] == x;
  }

  /** A common prefix cancels. */
  lemma AppendCancel<T>(x: seq<T>, a: seq<T>, b: seq<T>)
    requires x + a == x + b
    ensures a == b
  {
    assert a == (x + a)[|x|..];
    assert b == (x + b)[|x|..];
  }

  /** The sequence read from its end. */
  function Reverse<T>(s: seq<T>): (r: seq<T>)
    ensures |r| == |s|
    ensures forall i :: 0 <= i < |s| ==> r[i] == s[|s| - 1 - i]
  {
    if s == [] then [] else Reverse(s[1..]) + [s[0]]
  }
}
