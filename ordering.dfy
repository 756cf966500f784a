/**
 * The canonical table order used by `process_data`, the submit handler and the
 * database save: `sort_values(by=['Date', 'Client Type'], ascending=[False, True])`.
 * pandas sorts on several keys with a stable lexicographic sort, so rows with equal
 * keys keep their input order; the insertion sort below is stable in the same way.
 */
module Ordering {
  import opened Text
  import opened Dates

  datatype Key = Key(date: Date, clientType: string)

  /** `a` may come before `b`: a later date, or the same date and a client type that is not greater. */
  predicate KeyLe(a: Key, b: Key) {
    Before(b.date, a.date) || (a.date == b.date && StrLe(a.clientType, b.clientType))
  }

  lemma KeyLeTotal(a: Key, b: Key)
    ensures KeyLe(a, b) || KeyLe(b, a)
  {
    BeforeIsStrictTotal(a.date, b.date, a.date);
    StrLeTotal(a.clientType, b.clientType);
  }

  lemma KeyLeTransitive(a: Key, b: Key, c: Key)
    requires KeyLe(a, b) && KeyLe(b, c)
    ensures KeyLe(a, c)
  {
    if a.date == b.date && b.date == c.date {
      StrLeTransitive(a.clientType, b.clientType, c.clientType);
    }
  }

  predicate Sorted<T>(s: seq<T>, key: T -> Key) {
    forall i, j :: 0 <= i < j < |s| ==> KeyLe(key(s[i]), key(s[j]))
  }

  /** Places `x` before the first element it may precede, so it goes ahead of equal keys. */
  function Insert<T(==)>(x: T, s: seq<T>, key: T -> Key): (r: seq<T>)
    requires Sorted(s, key)
    ensures Sorted(r, key)
    ensures multiset(r) == multiset(s) + multiset{x}
    ensures forall k :: 0 <= k < |r| ==> r[k] == x || r[k] in s
  {
    if s == [] then [x]
    else if KeyLe(key(x), key(s[0])) then
      assert forall k :: 0 <= k < |s| ==> KeyLe(key(x), key(s[k])) by {
        forall k | 0 <= k < |s| ensures KeyLe(key(x), key(s[k])) {
          if k > 0 { KeyLeTransitive(key(x), key(s[0]), key(s[k])); }
        }
      }
      [x] + s
    else
      KeyLeTotal(key(x), key(s[0]));
      var rest := Insert(x, s[1..], key);
      assert s == [s[0]] + s[1..];
      assert forall k :: 0 <= k < |rest| ==> KeyLe(key(s[0]), key(rest[k])) by {
        forall k | 0 <= k < |rest| ensures KeyLe(key(s[0]), key(rest[k])) {
          if rest[k] != x {
            var m :| 1 <= m < |s| && s[m] == rest[k];
          }
        }
      }
      [s[0]] + rest
  }

  /** The rows in canonical order: sorted, and a permutation of the input. */
  function SortBy<T(==)>(s: seq<T>, key: T -> Key): (r: seq<T>)
    ensures Sorted(r, key)
    ensures multiset(r) == multiset(s)
    ensures |r| == |s|
  {
    if s == [] then []
    else
      assert s == [s[0]] + s[1..];
      Insert(s[0], SortBy(s[1..], key), key)
  }

  /** Sorting a table that is already in canonical order leaves it exactly as it is. */
  lemma {:induction false} SortSortedIsIdentity<T>(s: seq<T>, key: T -> Key)
    requires Sorted(s, key)
    ensures SortBy(s, key) == s
  {
    if s != [] {
      assert Sorted(s[1..], key);
      SortSortedIsIdentity(s[1..], key);
      if |s| > 1 {
        assert KeyLe(key(s[0]), key(s[1..][0]));
      }
      assert s == [s[0]] + s[1..];
    }
  }

  /** The elements of `s` whose key is `k`, in order. */
  function WithKey<T>(s: seq<T>, key: T -> Key, k: Key): (r: seq<T>)
    ensures |r| <= |s|
  {
    if s == [] then [] else (if key(s[0]) == k then [s[0]] else []) + WithKey(s[1..], key, k)
  }

  /** `x` goes ahead of the elements with its key and leaves every other key's elements in order. */
  lemma {:induction false} InsertWithKey<T>(x: T, s: seq<T>, key: T -> Key, k: Key)
    requires Sorted(s, key)
    ensures WithKey(Insert(x, s, key), key, k) == (if key(x) == k then [x] else []) + WithKey(s, key, k)
    decreases |s|
  {
    if s == [] {
      WithKeyCons(x, [], key, k);
    } else if KeyLe(key(x), key(s[0])) {
      WithKeyCons(x, s, key, k);
    } else {
      KeyLeTotal(key(x), key(x));
      assert key(x) != key(s[0]);
      assert Sorted(s[1..], key);
      var rest := Insert(x, s[1..], key);
      InsertWithKey(x, s[1..], key, k);
      WithKeyCons(s[0], rest, key, k);
      assert s == [s[0]] + s[1..];
      WithKeyCons(s[0], s[1..], key, k);
    }
  }

  /** Taking the elements with key `k` goes element by element. */
  lemma WithKeyCons<T>(y: T, t: seq<T>, key: T -> Key, k: Key)
    ensures WithKey([y] + t, key, k) == (if key(y) == k then [y] else []) + WithKey(t, key, k)
  {
    assert ([y] + t)[1..] == t;
  }

  /**
   * The sort is stable: the rows that share a key come out in the order they went in,
   * as pandas' multi-key `sort_values` keeps them.
   */
  lemma {:induction false} SortByIsStable<T>(s: seq<T>, key: T -> Key, k: Key)
    ensures WithKey(SortBy(s, key), key, k) == WithKey(s, key, k)
  {
    if s != [] {
      SortByIsStable(s[1..], key, k);
      InsertWithKey(s[0], SortBy(s[1..], key), key, k);
    }
  }
}
