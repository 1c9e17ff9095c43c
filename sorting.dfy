/** A stable sort by a real-valued key. Python's `sorted(..., key=k)` and
    `sorted(..., key=k, reverse=True)` and JavaScript's Array.prototype.sort
    with a numeric comparator are all stable: elements with equal keys keep
    their input order. A descending sort is an ascending sort on the negated
    key. */
module Sorting {

  predicate SortedBy<T>(s: seq<T>, key: T -> real) {
    forall i, j :: 0 <= i < j < |s| ==> key(s[i]) <= key(s[j])
  }

  /** Where `x` goes in `s`: after the leading elements whose key does not
      exceed key(x). */
  function InsertPos<T>(x: T, s: seq<T>, key: T -> real): (p: nat)
    ensures p <= |s|
    ensures forall i :: 0 <= i < p ==> key(s[i]) <= key(x)
    ensures p < |s| ==> key(x) < key(s[p])
  {
    if s == [] || key(x) < key(s[0]) then 0 else 1 + InsertPos(x, s[1..], key)
  }

  /** Inserts `x` into `s` after the leading elements whose key does not
      exceed key(x). */
  function InsertBy<T>(x: T, s: seq<T>, key: T -> real): (r: seq<T>)
    ensures |r| == |s| + 1
  {
    var p := InsertPos(x, s, key);
    s[..p] + [x] + s[p..]
  }

  /** Inserting into a sorted sequence keeps it sorted. */
  lemma InsertBySorted<T>(x: T, s: seq<T>, key: T -> real)
    requires SortedBy(s, key)
    ensures SortedBy(InsertBy(x, s, key), key)
  {
  }

  /** Inserting adds exactly `x`. */
  lemma InsertByAdds<T>(x: T, s: seq<T>, key: T -> real)
    ensures multiset(InsertBy(x, s, key)) == multiset(s) + multiset{x}
  {
    var p := InsertPos(x, s, key);
    assert s == s[..p] + s[p..];
  }

  /** Stable insertion sort: the last element is inserted into the sorted
      prefix, after the elements with an equal key. */
  function SortBy<T>(s: seq<T>, key: T -> real): (r: seq<T>)
    ensures |r| == |s|
  {
    if s == [] then []
    else InsertBy(s[|s| - 1], SortBy(s[..|s| - 1], key), key)
  }

  /** The result of SortBy is ordered by the key. */
  lemma {:induction false} SortBySorted<T>(s: seq<T>, key: T -> real)
    ensures SortedBy(SortBy(s, key), key)
  {
    if s != [] {
      SortBySorted(s[..|s| - 1], key);
      InsertBySorted(s[|s| - 1], SortBy(s[..|s| - 1], key), key);
    }
  }

  /** The result of SortBy is a permutation of its input. */
  lemma {:induction false} SortByPermutes<T>(s: seq<T>, key: T -> real)
    ensures multiset(SortBy(s, key)) == multiset(s)
  {
    if s != [] {
      var init := s[..|s| - 1];
      SortByPermutes(init, key);
      InsertByAdds(s[|s| - 1], SortBy(init, key), key);
      assert s == init + [s[|s| - 1]];
    }
  }

  /** The elements of `s` whose key is `k`, in order. */
  function WithKey<T>(s: seq<T>, key: T -> real, k: real): seq<T> {
    if s == [] then [] else (if key(s[0]) == k then [s[0]] else []) + WithKey(s[1..], key, k)
  }

  lemma {:induction false} WithKeyAppend<T>(a: seq<T>, b: seq<T>, key: T -> real, k: real)
    ensures WithKey(a + b, key, k) == WithKey(a, key, k) + WithKey(b, key, k)
  {
    if a == [] {
      assert a + b == b;
    } else {
      var h := if key(a[0]) == k then [a[0]] else [];
      var rest, ab := a[1..], a + b;
      assert ab[0] == a[0] && ab[1..] == rest + b;
      WithKeyAppend(rest, b, key, k);
      assert WithKey(ab, key, k) == h + WithKey(rest + b, key, k);
      assert WithKey(a, key, k) == h + WithKey(rest, key, k);
      assert h + (WithKey(rest, key, k) + WithKey(b, key, k))
          == (h + WithKey(rest, key, k)) + WithKey(b, key, k);
    }
  }

  lemma {:induction false} WithKeyAbove<T>(s: seq<T>, key: T -> real, k: real)
    requires SortedBy(s, key)
    requires s != [] ==> k < key(s[0])
    ensures WithKey(s, key, k) == []
  {
    if s != [] {
      WithKeyAbove(s[1..], key, k);
    }
  }

  lemma SortedSuffix<T>(s: seq<T>, p: nat, key: T -> real)
    requires SortedBy(s, key) && p <= |s|
    ensures SortedBy(s[p..], key)
  {
    var t := s[p..];
    forall i, j | 0 <= i < j < |t|
      ensures key(t[i]) <= key(t[j])
    {
      assert t[i] == s[p + i] && t[j] == s[p + j];
    }
  }

  /** The selection of a three-part sequence, part by part. */
  lemma WithKeySplit<T>(lo: seq<T>, x: T, hi: seq<T>, key: T -> real, k: real)
    ensures WithKey(lo + [x] + hi, key, k)
         == WithKey(lo, key, k) + (if key(x) == k then [x] else []) + WithKey(hi, key, k)
  {
    assert WithKey([x], key, k) == (if key(x) == k then [x] else []) by {
      assert [x][1..] == [];
    }
    WithKeyAppend(lo + [x], hi, key, k);
    WithKeyAppend(lo, [x], key, k);
  }

  /** Nothing after the insertion point carries the inserted key. */
  lemma AfterInsertPos<T>(x: T, s: seq<T>, key: T -> real)
    requires SortedBy(s, key)
    ensures WithKey(s[InsertPos(x, s, key)..], key, key(x)) == []
  {
    var p := InsertPos(x, s, key);
    SortedSuffix(s, p, key);
    WithKeyAbove(s[p..], key, key(x));
  }

  /** Inserting `x` at `p` adds `x` to the end of the selection when
      nothing after `p` carries its key. */
  lemma WithKeyInsertAt<T>(x: T, s: seq<T>, p: nat, key: T -> real, k: real)
    requires p <= |s|
    requires key(x) == k ==> WithKey(s[p..], key, k) == []
    ensures WithKey(s[..p] + [x] + s[p..], key, k)
         == WithKey(s, key, k) + (if key(x) == k then [x] else [])
  {
    WithKeySplit(s[..p], x, s[p..], key, k);
    WithKeyAppend(s[..p], s[p..], key, k);
    assert s[..p] + s[p..] == s;
  }

  /** Stability: for every key value, the elements carrying it appear in the
      sorted sequence in the same order as in the input. */
  lemma {:induction false} SortByStable<T>(s: seq<T>, key: T -> real, k: real)
    ensures WithKey(SortBy(s, key), key, k) == WithKey(s, key, k)
  {
    if s != [] {
      var init, x := s[..|s| - 1], s[|s| - 1];
      var sortedInit := SortBy(init, key);
      SortBySorted(init, key);
      assert SortBy(s, key) == InsertBy(x, sortedInit, key);
      var tail := if key(x) == k then [x] else [];
      calc {
        WithKey(SortBy(s, key), key, k);
      == { var p := InsertPos(x, sortedInit, key);
           if key(x) == k {
             AfterInsertPos(x, sortedInit, key);
           }
           WithKeyInsertAt(x, sortedInit, p, key, k); }
        WithKey(sortedInit, key, k) + tail;
      == { SortByStable(init, key, k); }
        WithKey(init, key, k) + tail;
      == { assert WithKey([x], key, k) == tail by { assert [x][1..] == []; } }
        WithKey(init, key, k) + WithKey([x], key, k);
      == { WithKeyAppend(init, [x], key, k); assert init + [x] == s; }
        WithKey(s, key, k);
      }
    }
  }
}
