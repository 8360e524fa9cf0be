/** Python's `sorted(xs, key=...)` on string keys: a stable sort under code-point
    order, modelled as an insertion sort. */
module Sorting {
  import opened Strings

  /** The elements are in ascending order of their keys. */
  ghost predicate SortedBy<T>(s: seq<T>, key: T -> string)
  {
    forall i, j :: 0 <= i < j < |s| ==> LessEq(key(s[i]), key(s[j]))
  }

  /** The elements whose key is `k`, in their order in `s`. */
  function WithKey<T>(s: seq<T>, key: T -> string, k: string): (r: seq<T>)
    ensures |r| <= |s|
  {
    if |s| == 0 then []
    else (if key(s[0]) == k then [s[0]] else []) + WithKey(s[1..], key, k)
  }

  /** `r` is what a stable sort of `s` must return: ordered by key, and for every
      key the elements carrying it appear in their original relative order. */
  ghost predicate IsStableSortOf<T>(r: seq<T>, s: seq<T>, key: T -> string)
  {
    && SortedBy(r, key)
    && forall k :: WithKey(r, key, k) == WithKey(s, key, k)
  }

  /** Places `x` before the first element whose key is not below its own, i.e.
      after every element with a smaller key and before every element with an
      equal one. */
  function Insert<T>(x: T, s: seq<T>, key: T -> string): (r: seq<T>)
    ensures |r| == |s| + 1
    ensures multiset(r) == multiset(s) + multiset{x}
  {
    if |s| == 0 then [x]
    else if LessEq(key(x), key(s[0])) then [x] + s
    else
      assert s == [s[0]] + s[1..];
      [s[0]] + Insert(x, s[1..], key)
  }

  /** The stable sort: every element is inserted ahead of the equal-key elements
      that followed it in the input. */
  function Sort<T>(s: seq<T>, key: T -> string): (r: seq<T>)
    ensures |r| == |s|
    ensures multiset(r) == multiset(s)
  {
    if |s| == 0 then []
    else
      assert s == [s[0]] + s[1..];
      Insert(s[0], Sort(s[1..], key), key)
  }

  /** An element no greater than any element of a sorted sequence may lead it. */
  lemma SortedCons<T>(a: T, r: seq<T>, key: T -> string)
    requires SortedBy(r, key)
    requires forall j :: 0 <= j < |r| ==> LessEq(key(a), key(r[j]))
    ensures SortedBy([a] + r, key)
  {
  }

  lemma {:induction false} InsertSorted<T>(x: T, s: seq<T>, key: T -> string)
    requires SortedBy(s, key)
    ensures SortedBy(Insert(x, s, key), key)
    decreases |s|
  {
    if |s| == 0 {
    } else if LessEq(key(x), key(s[0])) {
      forall j | 0 <= j < |s|
        ensures LessEq(key(x), key(s[j]))
      {
        LessEqTotalOrder(key(x), key(s[0]), key(s[j]));
      }
      SortedCons(x, s, key);
    } else {
      var t := s[1..];
      InsertSorted(x, t, key);
      var r := Insert(x, t, key);
      LessEqTotalOrder(key(x), key(s[0]), key(x));
      forall j | 0 <= j < |r|
        ensures LessEq(key(s[0]), key(r[j]))
      {
        assert r[j] in multiset(r);
        if r[j] != x {
          assert r[j] in multiset(t);
          var m :| 0 <= m < |t| && t[m] == r[j];
          assert s[m + 1] == t[m];
        }
      }
      SortedCons(s[0], r, key);
    }
  }

  /** The elements of `[y] + s` with key `k`: `y` if it has that key, then those of `s`. */
  lemma WithKeyCons<T>(y: T, s: seq<T>, key: T -> string, k: string)
    ensures WithKey([y] + s, key, k) == (if key(y) == k then [y] else []) + WithKey(s, key, k)
  {
    var r := [y] + s;
    assert r[0] == y && r[1..] == s;
  }

  /** Inserting `x` puts it in front of the elements sharing its key and leaves
      every other key's elements as they were. */
  lemma {:induction false} InsertWithKey<T>(x: T, s: seq<T>, key: T -> string, k: string)
    ensures WithKey(Insert(x, s, key), key, k) == (if key(x) == k then [x] else []) + WithKey(s, key, k)
    decreases |s|
  {
    if |s| == 0 {
      WithKeyCons(x, [], key, k);
    } else if LessEq(key(x), key(s[0])) {
      WithKeyCons(x, s, key, k);
    } else {
      var t := s[1..];
      InsertWithKey(x, t, key, k);
      assert Insert(x, s, key) == [s[0]] + Insert(x, t, key);
      assert s == [s[0]] + t;
      InsertBehind(x, s[0], t, Insert(x, t, key), key, k);
    }
  }

  /** The step of `InsertWithKey` where `x` goes behind the head `y`: a head of
      another key than `x` does not disturb `x`'s place among the key-`k` elements. */
  lemma InsertBehind<T>(x: T, y: T, t: seq<T>, u: seq<T>, key: T -> string, k: string)
    requires key(x) != key(y)
    requires WithKey(u, key, k) == (if key(x) == k then [x] else []) + WithKey(t, key, k)
    ensures WithKey([y] + u, key, k) == (if key(x) == k then [x] else []) + WithKey([y] + t, key, k)
  {
    WithKeyCons(y, u, key, k);
    WithKeyCons(y, t, key, k);
  }

  lemma {:induction false} SortSorted<T>(s: seq<T>, key: T -> string)
    ensures SortedBy(Sort(s, key), key)
    decreases |s|
  {
    if |s| > 0 {
      SortSorted(s[1..], key);
      InsertSorted(s[0], Sort(s[1..], key), key);
    }
  }

  lemma {:induction false} SortWithKey<T>(s: seq<T>, key: T -> string, k: string)
    ensures WithKey(Sort(s, key), key, k) == WithKey(s, key, k)
    decreases |s|
  {
    if |s| > 0 {
      SortWithKey(s[1..], key, k);
      InsertWithKey(s[0], Sort(s[1..], key), key, k);
    }
  }

  /** `Sort` is a stable sort. */
  lemma SortIsStableSort<T>(s: seq<T>, key: T -> string)
    ensures IsStableSortOf(Sort(s, key), s, key)
  {
    SortSorted(s, key);
    forall k
      ensures WithKey(Sort(s, key), key, k) == WithKey(s, key, k)
    {
      SortWithKey(s, key, k);
    }
  }

  /** No element carries key `k` exactly when none is kept for it. */
  lemma {:induction false} WithKeyEmpty<T>(s: seq<T>, key: T -> string, k: string)
    ensures |WithKey(s, key, k)| == 0 <==> forall j :: 0 <= j < |s| ==> key(s[j]) != k
    decreases |s|
  {
    if |s| > 0 {
      WithKeyEmpty(s[1..], key, k);
      assert forall j :: 1 <= j < |s| ==> s[j] == s[1..][j - 1];
    }
  }

  /** Two sorted sequences with the same per-key subsequences start with the same
      element: the smallest key's first element. */
  lemma SameHead<T>(a: seq<T>, b: seq<T>, key: T -> string)
    requires |a| > 0
    requires SortedBy(a, key) && SortedBy(b, key)
    requires forall k :: WithKey(a, key, k) == WithKey(b, key, k)
    ensures |b| > 0 && a[0] == b[0]
  {
    var ka := key(a[0]);
    WithKeyEmpty(a, key, ka);
    assert WithKey(b, key, ka) == WithKey(a, key, ka);
    WithKeyEmpty(b, key, ka);
    var jb :| 0 <= jb < |b| && key(b[jb]) == ka;
    var kb := key(b[0]);
    WithKeyEmpty(b, key, kb);
    assert WithKey(a, key, kb) == WithKey(b, key, kb);
    WithKeyEmpty(a, key, kb);
    var ja :| 0 <= ja < |a| && key(a[ja]) == kb;
    LessEqTotalOrder(ka, ka, ka);
    LessEqTotalOrder(kb, kb, kb);
    assert LessEq(ka, kb);
    assert LessEq(kb, ka);
    LessEqTotalOrder(ka, kb, ka);
    assert ka == kb;
    assert WithKey(a, key, ka)[0] == a[0] && WithKey(b, key, ka)[0] == b[0];
  }

  /** A sorted sequence with the same per-key subsequences as another sorted
      sequence is that sequence: there is only one stable sort of an input. */
  lemma {:induction false} StableSortUnique<T>(a: seq<T>, b: seq<T>, key: T -> string)
    requires SortedBy(a, key) && SortedBy(b, key)
    requires forall k :: WithKey(a, key, k) == WithKey(b, key, k)
    ensures a == b
    decreases |a|
  {
    if |a| == 0 {
      if |b| > 0 {
        WithKeyEmpty(b, key, key(b[0]));
      }
    } else {
      SameHead(a, b, key);
      forall k
        ensures WithKey(a[1..], key, k) == WithKey(b[1..], key, k)
      {
        WithKeyCons(a[0], a[1..], key, k);
        WithKeyCons(b[0], b[1..], key, k);
        assert a == [a[0]] + a[1..] && b == [b[0]] + b[1..];
        var head := if key(a[0]) == k then [a[0]] else [];
        assert (head + WithKey(a[1..], key, k))[|head|..] == WithKey(a[1..], key, k);
        assert (head + WithKey(b[1..], key, k))[|head|..] == WithKey(b[1..], key, k);
      }
      StableSortUnique(a[1..], b[1..], key);
      assert a == [a[0]] + a[1..] && b == [b[0]] + b[1..];
    }
  }

  /** Any stable sort of `s` is `Sort(s)`: the model agrees with every correct
      implementation of Python's `sorted`. */
  lemma StableSortIsSort<T>(r: seq<T>, s: seq<T>, key: T -> string)
    requires IsStableSortOf(r, s, key)
    ensures r == Sort(s, key)
  {
    SortIsStableSort(s, key);
    var q := Sort(s, key);
    forall k
      ensures WithKey(r, key, k) == WithKey(q, key, k)
    {
      assert WithKey(r, key, k) == WithKey(s, key, k);
    }
    StableSortUnique(r, q, key);
  }

  /** Python's `sorted` only ever asks whether a later key is `<` an earlier one:
      a sequence is in order exactly when no such inversion exists. */
  lemma SortedIffNoInversion<T>(s: seq<T>, key: T -> string)
    ensures SortedBy(s, key) <==> forall i, j :: 0 <= i < j < |s| ==> !Less(key(s[j]), key(s[i]))
  {
    forall i, j | 0 <= i < j < |s|
      ensures !Less(key(s[j]), key(s[i])) <==> LessEq(key(s[i]), key(s[j]))
    {
      NotLessIsLessEq(key(s[i]), key(s[j]));
    }
  }

  /** `[f(x) for x in s]`. */
  function MapSeq<A, B>(f: A -> B, s: seq<A>): (r: seq<B>)
    ensures |r| == |s|
    ensures forall i :: 0 <= i < |s| ==> r[i] == f(s[i])
  {
    seq(|s|, i requires 0 <= i < |s| => f(s[i]))
  }

  lemma MapSeqAppend<A, B>(f: A -> B, a: seq<A>, b: seq<A>)
    ensures MapSeq(f, a + b) == MapSeq(f, a) + MapSeq(f, b)
  {
  }

  /** Removing matching elements from two permutations of each other leaves
      permutations of each other. */
  lemma RemoveMatching<A>(a: seq<A>, b: seq<A>, m: nat)
    requires multiset(a) == multiset(b) && |a| > 0 && m < |b| && b[m] == a[0]
    ensures multiset(a[1..]) == multiset(b[..m] + b[m + 1..])
  {
    var x := a[0];
    var rest := b[..m] + b[m + 1..];
    assert a == [x] + a[1..];
    assert multiset(a) == multiset{x} + multiset(a[1..]);
    assert b == b[..m] + [x] + b[m + 1..];
    assert multiset(b) == multiset(b[..m]) + multiset{x} + multiset(b[m + 1..]);
    assert multiset(rest) == multiset(b[..m]) + multiset(b[m + 1..]);
    assert multiset{x} + multiset(a[1..]) == multiset{x} + multiset(rest);
    forall y
      ensures multiset(a[1..])[y] == multiset(rest)[y]
    {
      assert (multiset{x} + multiset(a[1..]))[y] == (multiset{x} + multiset(rest))[y];
    }
  }

  /** Mapping over a sequence gives the image of one chosen element plus the
      mapping over the others. */
  lemma MapRemove<A, B>(f: A -> B, b: seq<A>, m: nat)
    requires m < |b|
    ensures multiset(MapSeq(f, b)) == multiset{f(b[m])} + multiset(MapSeq(f, b[..m] + b[m + 1..]))
  {
    var pre, post := b[..m], b[m + 1..];
    var mapped := MapSeq(f, b);
    assert mapped == MapSeq(f, pre) + [f(b[m])] + MapSeq(f, post);
    assert MapSeq(f, pre + post) == MapSeq(f, pre) + MapSeq(f, post);
  }

  /** The mapping over a non-empty sequence is the image of its head plus the
      mapping over its tail. */
  lemma MapHead<A, B>(f: A -> B, a: seq<A>)
    requires |a| > 0
    ensures multiset(MapSeq(f, a)) == multiset{f(a[0])} + multiset(MapSeq(f, a[1..]))
  {
    assert MapSeq(f, a) == [f(a[0])] + MapSeq(f, a[1..]);
  }

  /** Mapping a function over two permutations of each other gives permutations
      of each other. */
  lemma {:induction false} MapPermutation<A, B>(f: A -> B, a: seq<A>, b: seq<A>)
    requires multiset(a) == multiset(b)
    ensures multiset(MapSeq(f, a)) == multiset(MapSeq(f, b))
    decreases |a|
  {
    if |a| == 0 {
      assert |multiset(b)| == 0;
      assert b == [];
    } else {
      var m := MatchingIndex(a, b);
      var rest := b[..m] + b[m + 1..];
      RemoveMatching(a, b, m);
      MapPermutation(f, a[1..], rest);
      MapHead(f, a);
      MapRemove(f, b, m);
    }
  }

  /** Where the head of `a` sits in a permutation `b` of it. */
  lemma MatchingIndex<A>(a: seq<A>, b: seq<A>) returns (m: nat)
    requires multiset(a) == multiset(b) && |a| > 0
    ensures m < |b| && b[m] == a[0]
  {
    assert a[0] in multiset(a);
    m :| m < |b| && b[m] == a[0];
  }
}
