/**
 * `Array.prototype.sort` with a numeric comparator `(a, b) => key(a) - key(b)`.
 * The engine's sort is stable, so its result is determined by three facts:
 * it is a permutation, it is ordered by key, and elements with equal keys keep
 * their relative order. Insertion sort is one such sort; SortedStableUnique
 * shows that every sort with those three facts returns the same sequence.
 */
module StableSort {
  import Seqs

  /** Non-decreasing by key. */
  predicate SortedBy<T>(s: seq<T>, key: T -> int) {
    forall i, j :: 0 <= i < j < |s| ==> key(s[i]) <= key(s[j])
  }

  /** The elements whose key is v, in their order in s. */
  function WithKey<T>(s: seq<T>, key: T -> int, v: int): (r: seq<T>)
    ensures |r| <= |s|
  {
    if s == [] then []
    else (if key(s[0]) == v then [s[0]] else []) + WithKey(s[1..], key, v)
  }

  /** Stability: for every key value, the elements carrying it are in the same order. */
  ghost predicate StableFor<T>(r: seq<T>, s: seq<T>, key: T -> int) {
    forall v :: WithKey(r, key, v) == WithKey(s, key, v)
  }

  /** Unfolding WithKey on a sequence with a known head, for every key value at once. */
  lemma WithKeyCons<T>(x: T, s: seq<T>, key: T -> int)
    ensures forall v :: WithKey([x] + s, key, v) == (if key(x) == v then [x] else []) + WithKey(s, key, v)
  {
    assert ([x] + s)[1..] == s;
  }

  /** Puts x in front of the first element whose key is at least key(x). */
  function Insert<T>(x: T, s: seq<T>, key: T -> int): (r: seq<T>)
    requires SortedBy(s, key)
    ensures SortedBy(r, key)
    ensures multiset(r) == multiset(s) + multiset{x}
    ensures forall v :: WithKey(r, key, v) == (if key(x) == v then [x] else []) + WithKey(s, key, v)
  {
    if s == [] then [x]
    else if key(x) <= key(s[0]) then
      WithKeyCons(x, s, key);
      [x] + s
    else
      var rest := Insert(x, s[1..], key);
      InsertAfterHead(x, s, rest, key);
      [s[0]] + rest
  }

  /** The recursive case of Insert: the head of s stays in front of the insertion into the tail. */
  lemma InsertAfterHead<T>(x: T, s: seq<T>, rest: seq<T>, key: T -> int)
    requires s != [] && SortedBy(s, key) && key(s[0]) < key(x)
    requires SortedBy(rest, key)
    requires multiset(rest) == multiset(s[1..]) + multiset{x}
    requires forall v :: WithKey(rest, key, v) == (if key(x) == v then [x] else []) + WithKey(s[1..], key, v)
    ensures SortedBy([s[0]] + rest, key)
    ensures multiset([s[0]] + rest) == multiset(s) + multiset{x}
    ensures forall v :: WithKey([s[0]] + rest, key, v) == (if key(x) == v then [x] else []) + WithKey(s, key, v)
  {
    assert s == [s[0]] + s[1..];
    HeadBelowRest(x, s, rest, key);
    forall v ensures WithKey([s[0]] + rest, key, v) == (if key(x) == v then [x] else []) + WithKey(s, key, v) {
      WithKeyAfterHead(x, s, rest, key, v);
    }
  }

  /** InsertAfterHead for one key value. */
  lemma WithKeyAfterHead<T>(x: T, s: seq<T>, rest: seq<T>, key: T -> int, v: int)
    requires s != [] && key(s[0]) < key(x)
    requires WithKey(rest, key, v) == (if key(x) == v then [x] else []) + WithKey(s[1..], key, v)
    ensures WithKey([s[0]] + rest, key, v) == (if key(x) == v then [x] else []) + WithKey(s, key, v)
  {
    var hx := if key(x) == v then [x] else [];
    var hs := if key(s[0]) == v then [s[0]] else [];
    assert ([s[0]] + rest)[1..] == rest;
    assert hx == [] || hs == [];
    calc {
      WithKey([s[0]] + rest, key, v);
      hs + WithKey(rest, key, v);
      hs + (hx + WithKey(s[1..], key, v));
      hx + (hs + WithKey(s[1..], key, v));
      hx + WithKey(s, key, v);
    }
  }

  lemma HeadBelowRest<T>(x: T, s: seq<T>, rest: seq<T>, key: T -> int)
    requires s != [] && SortedBy(s, key) && key(s[0]) < key(x)
    requires SortedBy(rest, key)
    requires multiset(rest) == multiset(s[1..]) + multiset{x}
    ensures SortedBy([s[0]] + rest, key)
  {
    forall j | 0 <= j < |rest| ensures key(s[0]) <= key(rest[j]) {
      assert rest[j] in multiset(rest);
      if rest[j] != x {
        assert rest[j] in multiset(s[1..]);
        var k :| 0 <= k < |s[1..]| && s[1..][k] == rest[j];
        assert s[k + 1] == rest[j];
      }
    }
  }

  /** Stable sort, ascending by key. */
  function SortBy<T>(s: seq<T>, key: T -> int): (r: seq<T>)
    ensures SortedBy(r, key)
    ensures multiset(r) == multiset(s)
    ensures StableFor(r, s, key)
  {
    if s == [] then []
    else
      var rest := SortBy(s[1..], key);
      assert s == [s[0]] + s[1..];
      Insert(s[0], rest, key)
  }

  /** The smallest key of a sorted sequence is carried by its head. */
  lemma WithKeyHead<T>(s: seq<T>, key: T -> int)
    requires s != [] && SortedBy(s, key)
    ensures WithKey(s, key, key(s[0])) != [] && WithKey(s, key, key(s[0]))[0] == s[0]
    ensures forall v :: v < key(s[0]) ==> WithKey(s, key, v) == []
  {
  }

  /**
   * Any two sequences ordered by key that agree on the order of every key class
   * are equal: the sorted, stable permutation of a sequence is unique.
   */
  lemma {:induction false} SortedStableUnique<T>(a: seq<T>, b: seq<T>, key: T -> int)
    requires SortedBy(a, key) && SortedBy(b, key)
    requires StableFor(a, b, key)
    ensures a == b
    decreases |a|
  {
    if a == [] {
      if b != [] {
        WithKeyHead(b, key);
        assert false;
      }
    } else if b == [] {
      WithKeyHead(a, key);
      assert false;
    } else {
      WithKeyHead(a, key);
      WithKeyHead(b, key);
      var m, n := key(a[0]), key(b[0]);
      assert WithKey(a, key, m) == WithKey(b, key, m);
      assert WithKey(a, key, n) == WithKey(b, key, n);
      assert m == n;
      assert a[0] == b[0];
      WithKeyCons(a[0], a[1..], key);
      WithKeyCons(b[0], b[1..], key);
      assert a == [a[0]] + a[1..] && b == [b[0]] + b[1..];
      forall v ensures WithKey(a[1..], key, v) == WithKey(b[1..], key, v) {
        assert WithKey(a, key, v) == WithKey(b, key, v);
        var h := if key(a[0]) == v then [a[0]] else [];
        assert WithKey(a[1..], key, v) == (h + WithKey(a[1..], key, v))[|h|..];
        assert WithKey(b[1..], key, v) == (h + WithKey(b[1..], key, v))[|h|..];
      }
      SortedStableUnique(a[1..], b[1..], key);
      assert a == [a[0]] + a[1..] && b == [b[0]] + b[1..];
    }
  }

  /** Hence any stable sort by key returns what SortBy returns. */
  lemma StableSortIsSortBy<T>(s: seq<T>, r: seq<T>, key: T -> int)
    requires SortedBy(r, key) && StableFor(r, s, key)
    ensures r == SortBy(s, key)
  {
    var q := SortBy(s, key);
    assert StableFor(r, q, key);
    SortedStableUnique(r, q, key);
  }

  /** An element is listed among those carrying its key. */
  lemma {:induction false} WithKeyMember<T>(s: seq<T>, key: T -> int, k: nat)
    requires k < |s|
    ensures s[k] in WithKey(s, key, key(s[k]))
  {
    WithKeyCons(s[0], s[1..], key);
    assert s == [s[0]] + s[1..];
    if k > 0 {
      WithKeyMember(s[1..], key, k - 1);
    }
  }

  /** In a duplicate-free sequence, the key class of two elements lists them in their order. */
  lemma {:induction false} WithKeyOrder<T>(s: seq<T>, key: T -> int, p: nat, q: nat)
    requires Seqs.Distinct(s) && p < q < |s| && key(s[p]) == key(s[q])
    ensures Seqs.FirstIndex(WithKey(s, key, key(s[p])), s[p])
          < Seqs.FirstIndex(WithKey(s, key, key(s[p])), s[q])
  {
    var v := key(s[p]);
    WithKeyCons(s[0], s[1..], key);
    assert s == [s[0]] + s[1..];
    var h := if key(s[0]) == v then [s[0]] else [];
    assert WithKey(s, key, v) == h + WithKey(s[1..], key, v);
    WithKeyMember(s[1..], key, q - 1);
    if p == 0 {
      assert s[q] != s[0];
    } else {
      assert s[p] !in h && s[q] !in h;
      WithKeyOrder(s[1..], key, p - 1, q - 1);
      Seqs.FirstIndexAppend(h, WithKey(s[1..], key, v), s[p]);
      Seqs.FirstIndexAppend(h, WithKey(s[1..], key, v), s[q]);
    }
  }

  /**
   * Stability, pairwise: when two elements with equal keys are in that order in
   * the result, they were in that order in the input.
   */
  lemma StableOrder<T>(r: seq<T>, s: seq<T>, key: T -> int, i: nat, j: nat)
    requires Seqs.Distinct(s) && multiset(r) == multiset(s) && StableFor(r, s, key)
    requires i < j < |r| && key(r[i]) == key(r[j])
    ensures r[i] in s && r[j] in s
    ensures Seqs.FirstIndex(s, r[i]) < Seqs.FirstIndex(s, r[j])
  {
    Seqs.DistinctPermutation(r, s);
    assert r[i] in multiset(r) && r[j] in multiset(r);
    var p, q := Seqs.FirstIndex(s, r[i]), Seqs.FirstIndex(s, r[j]);
    assert s[p] == r[i] && s[q] == r[j] && r[i] != r[j];
    var v := key(r[i]);
    var w := WithKey(s, key, v);
    WithKeyOrder(r, key, i, j);
    assert Seqs.FirstIndex(w, r[i]) < Seqs.FirstIndex(w, r[j]) by {
      assert WithKey(r, key, v) == w;
    }
    if q < p {
      WithKeyOrder(s, key, q, p);
      assert false;
    }
    assert p != q;
  }
}
