/**
 * Sorting a list of result records by a numeric key, as Python's
 * `list.sort(key=...)` does. Python's sort is stable: records with equal keys
 * keep their relative order. SortByKey is a stable insertion sort that serves
 * as the reference definition; SortedStableUnique shows that any sorted,
 * stable reordering equals it, so it is the result Python's sort produces.
 */
module Sorting {

  /** `s` is in non-decreasing order of `key`. */
  ghost predicate SortedBy<T>(s: seq<T>, key: T -> real) {
    forall i, j :: 0 <= i < j < |s| ==> key(s[i]) <= key(s[j])
  }

  /** The elements of `s` whose key is `k`, in their order in `s`. */
  function WithKey<T>(s: seq<T>, key: T -> real, k: real): seq<T> {
    if s == [] then []
    else (if key(s[0]) == k then [s[0]] else []) + WithKey(s[1..], key, k)
  }

  /** `r` lists the elements of each key in the same order as `s` does. */
  ghost predicate StableFor<T>(s: seq<T>, r: seq<T>, key: T -> real) {
    forall k :: WithKey(r, key, k) == WithKey(s, key, k)
  }

  /** Puts `x` into the sorted `s`, after every element whose key is not larger. */
  function Insert<T>(x: T, s: seq<T>, key: T -> real): (r: seq<T>)
    ensures multiset(r) == multiset(s) + multiset{x}
  {
    if s == [] then [x]
    else if key(x) < key(s[0]) then [x] + s
    else
      assert s == [s[0]] + s[1..];
      [s[0]] + Insert(x, s[1..], key)
  }

  /** Stable sort by `key`; the result is a permutation of `s`. */
  function SortByKey<T>(s: seq<T>, key: T -> real): (r: seq<T>)
    ensures multiset(r) == multiset(s)
  {
    if s == [] then []
    else
      assert s == s[..|s| - 1] + [s[|s| - 1]];
      Insert(s[|s| - 1], SortByKey(s[..|s| - 1], key), key)
  }

  lemma {:induction false} InsertSorted<T>(x: T, s: seq<T>, key: T -> real)
    requires SortedBy(s, key)
    ensures SortedBy(Insert(x, s, key), key)
  {
    if s != [] && key(s[0]) <= key(x) {
      var t := Insert(x, s[1..], key);
      InsertSorted(x, s[1..], key);
      forall j | 0 <= j < |t|
        ensures key(s[0]) <= key(t[j])
      {
        assert t[j] in multiset(t);
        assert t[j] in multiset(s[1..]) || t[j] == x;
      }
    }
  }

  /** The result of SortByKey is sorted. */
  lemma {:induction false} SortByKeySorted<T>(s: seq<T>, key: T -> real)
    ensures SortedBy(SortByKey(s, key), key)
  {
    if s != [] {
      SortByKeySorted(s[..|s| - 1], key);
      InsertSorted(s[|s| - 1], SortByKey(s[..|s| - 1], key), key);
    }
  }

  /** WithKey unfolded at the front of `[a] + t`. */
  lemma WithKeyCons<T>(a: T, t: seq<T>, key: T -> real, k: real)
    ensures WithKey([a] + t, key, k) == (if key(a) == k then [a] else []) + WithKey(t, key, k)
  {
    var r := [a] + t;
    assert r[0] == a && r[1..] == t;
  }

  lemma WithKeyHead<T>(s: seq<T>, key: T -> real)
    requires s != []
    ensures WithKey(s, key, key(s[0])) != []
  {
  }

  lemma {:induction false} WithKeyAppend<T>(a: seq<T>, b: seq<T>, key: T -> real, k: real)
    ensures WithKey(a + b, key, k) == WithKey(a, key, k) + WithKey(b, key, k)
  {
    if a == [] {
      assert a + b == b;
    } else {
      assert a == [a[0]] + a[1..];
      assert a + b == [a[0]] + (a[1..] + b);
      WithKeyCons(a[0], a[1..] + b, key, k);
      WithKeyCons(a[0], a[1..], key, k);
      WithKeyAppend(a[1..], b, key, k);
    }
  }

  lemma {:induction false} WithKeyAbsent<T>(s: seq<T>, key: T -> real, k: real)
    requires forall i :: 0 <= i < |s| ==> key(s[i]) != k
    ensures WithKey(s, key, k) == []
  {
    if s != [] {
      WithKeyAbsent(s[1..], key, k);
    }
  }

  lemma {:induction false} WithKeyMembers<T>(s: seq<T>, key: T -> real, k: real, y: T)
    requires y in WithKey(s, key, k)
    ensures y in s && key(y) == k
  {
    if s != [] && y in WithKey(s[1..], key, k) {
      WithKeyMembers(s[1..], key, k, y);
    }
  }

  lemma WithKeySingleton<T>(x: T, key: T -> real, k: real)
    ensures WithKey([x], key, k) == if key(x) == k then [x] else []
  {
    assert [x][1..] == [];
  }

  /** Inserting in front of larger keys adds `x` at the end of its key's elements. */
  lemma InsertFrontWithKey<T>(x: T, s: seq<T>, key: T -> real, k: real)
    requires SortedBy(s, key) && s != [] && key(x) < key(s[0])
    ensures WithKey([x] + s, key, k) == WithKey(s, key, k) + (if key(x) == k then [x] else [])
  {
    WithKeyCons(x, s, key, k);
    if key(x) == k {
      WithKeyAbsent(s, key, k);
    }
  }

  lemma SortedTail<T>(s: seq<T>, key: T -> real)
    requires SortedBy(s, key) && s != []
    ensures SortedBy(s[1..], key)
  {
  }

  /** WithKey unfolded at the front of a non-empty `s`. */
  lemma WithKeyFront<T>(s: seq<T>, key: T -> real, k: real)
    requires s != []
    ensures WithKey(s, key, k) == (if key(s[0]) == k then [s[0]] else []) + WithKey(s[1..], key, k)
  {
  }

  /** The recursive step of InsertWithKey, given the result `t` for the tail. */
  lemma InsertStepWithKey<T>(s: seq<T>, t: seq<T>, last: seq<T>, key: T -> real, k: real)
    requires s != []
    requires WithKey(t, key, k) == WithKey(s[1..], key, k) + last
    ensures WithKey([s[0]] + t, key, k) == WithKey(s, key, k) + last
  {
    var head := if key(s[0]) == k then [s[0]] else [];
    WithKeyCons(s[0], t, key, k);
    WithKeyFront(s, key, k);
    assert head + (WithKey(s[1..], key, k) + last) == (head + WithKey(s[1..], key, k)) + last;
  }

  /** Inserting `x` puts it last among the elements with its key. */
  lemma {:induction false} InsertWithKey<T>(x: T, s: seq<T>, key: T -> real, k: real)
    requires SortedBy(s, key)
    ensures WithKey(Insert(x, s, key), key, k) == WithKey(s, key, k) + (if key(x) == k then [x] else [])
  {
    if s == [] {
      WithKeySingleton(x, key, k);
    } else if key(x) < key(s[0]) {
      InsertFrontWithKey(x, s, key, k);
    } else {
      SortedTail(s, key);
      InsertWithKey(x, s[1..], key, k);
      assert Insert(x, s, key) == [s[0]] + Insert(x, s[1..], key);
      InsertStepWithKey(s, Insert(x, s[1..], key), if key(x) == k then [x] else [], key, k);
    }
  }

  lemma {:induction false} SortByKeyWithKey<T>(s: seq<T>, key: T -> real, k: real)
    ensures WithKey(SortByKey(s, key), key, k) == WithKey(s, key, k)
  {
    if s != [] {
      var init, x := s[..|s| - 1], s[|s| - 1];
      var last := if key(x) == k then [x] else [];
      assert s == init + [x];
      SortByKeySorted(init, key);
      calc {
        WithKey(SortByKey(s, key), key, k);
        WithKey(Insert(x, SortByKey(init, key), key), key, k);
        { InsertWithKey(x, SortByKey(init, key), key, k); }
        WithKey(SortByKey(init, key), key, k) + last;
        { SortByKeyWithKey(init, key, k); }
        WithKey(init, key, k) + last;
        { WithKeySingleton(x, key, k); }
        WithKey(init, key, k) + WithKey([x], key, k);
        { WithKeyAppend(init, [x], key, k); }
        WithKey(s, key, k);
      }
    }
  }

  /** SortByKey is stable: equal keys keep the order they had in `s`. */
  lemma SortByKeyStable<T>(s: seq<T>, key: T -> real)
    ensures StableFor(s, SortByKey(s, key), key)
  {
    forall k
      ensures WithKey(SortByKey(s, key), key, k) == WithKey(s, key, k)
    {
      SortByKeyWithKey(s, key, k);
    }
  }

  /**
   * Two sequences that are both sorted by `key` and list the elements of
   * every key in the same order are equal: a stable sort has one result.
   */
  lemma {:induction false} SortedStableUnique<T>(a: seq<T>, b: seq<T>, key: T -> real)
    requires SortedBy(a, key) && SortedBy(b, key)
    requires forall k :: WithKey(a, key, k) == WithKey(b, key, k)
    ensures a == b
  {
    if a == [] && b == [] {
      return;
    }
    if a == [] || b == [] {
      var c := if a == [] then b else a;
      WithKeyHead(c, key);
      assert false;
    }
    var ka, kb := key(a[0]), key(b[0]);
    assert a[0] in WithKey(b, key, ka);
    WithKeyMembers(b, key, ka, a[0]);
    assert kb <= ka;
    assert b[0] in WithKey(a, key, kb);
    WithKeyMembers(a, key, kb, b[0]);
    assert ka <= kb;
    assert WithKey(a, key, ka)[0] == a[0];
    assert WithKey(b, key, ka)[0] == b[0];
    forall k
      ensures WithKey(a[1..], key, k) == WithKey(b[1..], key, k)
    {
      var p := if ka == k then [a[0]] else [];
      assert WithKey(a, key, k) == p + WithKey(a[1..], key, k);
      assert WithKey(b, key, k) == p + WithKey(b[1..], key, k);
      assert WithKey(a[1..], key, k) == WithKey(a, key, k)[|p|..];
      assert WithKey(b[1..], key, k) == WithKey(b, key, k)[|p|..];
    }
    SortedStableUnique(a[1..], b[1..], key);
    assert a == [a[0]] + a[1..];
    assert b == [b[0]] + b[1..];
  }
}
