/** `Array.prototype.sort` with a comparator of the form `(a, b) => key(a) - key(b)`:
    a stable sort by an integer key, written as an insertion sort. */
module StableSort {
  import Seqs

  predicate SortedBy<T>(s: seq<T>, key: T -> int) {
    forall i, j :: 0 <= i < j < |s| ==> key(s[i]) <= key(s[j])
  }

  /** Puts `x` in front of the first element whose key is not smaller than its own. */
  function Insert<T>(x: T, t: seq<T>, key: T -> int): (r: seq<T>)
    ensures multiset(r) == multiset(t) + multiset{x}
    ensures forall i :: 0 <= i < |r| ==> r[i] == x || r[i] in t
    decreases |t|
  {
    if |t| == 0 || key(x) <= key(t[0]) then [x] + t
    else
      assert t == [t[0]] + t[1..];
      [t[0]] + Insert(x, t[1..], key)
  }

  /** Inserting into a sorted sequence keeps it sorted. */
  lemma {:induction false} InsertKeepsSorted<T>(x: T, t: seq<T>, key: T -> int)
    requires SortedBy(t, key)
    ensures SortedBy(Insert(x, t, key), key)
    decreases |t|
  {
    if |t| > 0 && key(x) > key(t[0]) {
      var rest := Insert(x, t[1..], key);
      InsertKeepsSorted(x, t[1..], key);
      forall i | 0 <= i < |rest|
        ensures key(t[0]) <= key(rest[i])
      {
        if rest[i] != x {
          var j :| 0 <= j < |t[1..]| && t[1..][j] == rest[i];
          assert t[j + 1] == rest[i];
        }
      }
      assert Insert(x, t, key) == [t[0]] + rest;
    }
  }

  /** The comparator sort. */
  function Sort<T>(s: seq<T>, key: T -> int): (r: seq<T>)
    ensures multiset(r) == multiset(s)
    ensures SortedBy(r, key)
    decreases |s|
  {
    if |s| == 0 then []
    else
      assert s == [s[0]] + s[1..];
      InsertKeepsSorted(s[0], Sort(s[1..], key), key);
      Insert(s[0], Sort(s[1..], key), key)
  }

  function KeyIs<T>(key: T -> int, k: int): T -> bool {
    (y: T) => key(y) == k
  }

  lemma {:induction false} InsertTies<T(!new)>(x: T, t: seq<T>, key: T -> int, k: int)
    requires SortedBy(t, key)
    ensures Seqs.Filter(Insert(x, t, key), KeyIs(key, k)) ==
              if key(x) == k then [x] + Seqs.Filter(t, KeyIs(key, k)) else Seqs.Filter(t, KeyIs(key, k))
    decreases |t|
  {
    var p := KeyIs(key, k);
    if |t| == 0 || key(x) <= key(t[0]) {
      assert ([x] + t)[1..] == t;
    } else {
      var rest := Insert(x, t[1..], key);
      InsertTies(x, t[1..], key, k);
      assert ([t[0]] + rest)[1..] == rest;
    }
  }

  /** The sort is stable: the elements sharing any one key keep their relative order. */
  lemma {:induction false} SortIsStable<T(!new)>(s: seq<T>, key: T -> int, k: int)
    ensures Seqs.Filter(Sort(s, key), KeyIs(key, k)) == Seqs.Filter(s, KeyIs(key, k))
    decreases |s|
  {
    if |s| > 0 {
      SortIsStable(s[1..], key, k);
      InsertTies(s[0], Sort(s[1..], key), key, k);
    }
  }

  /** A comparator that always answers 0 keeps the order as it is. */
  lemma SortByConstant<T(!new)>(s: seq<T>, key: T -> int, c: int)
    requires forall y :: key(y) == c
    ensures Sort(s, key) == s
  {
    SortIsStable(s, key, c);
    Seqs.FilterKeepsAll(s, KeyIs(key, c));
    Seqs.FilterKeepsAll(Sort(s, key), KeyIs(key, c));
  }
}
