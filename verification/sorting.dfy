/** Python's `list.sort(key=...)` / `sorted(..., key=...)`: a stable sort by
    a key. Modelled as insertion sort, which is stable: elements with equal
    keys keep their order, exactly as Python guarantees. */
module Sorting {
  import opened GroupOrder

  /** Every element's key is `<=` the key of every later element. */
  ghost predicate SortedBy<T>(s: seq<T>, key: T -> SortKey) {
    forall i, j | 0 <= i < j < |s| :: KeyLe(key(s[i]), key(s[j]))
  }

  /** The elements of `s` whose key is `k`, in their order in `s`. */
  function WithKey<T>(s: seq<T>, key: T -> SortKey, k: SortKey): seq<T>
    decreases |s|
  {
    if s == [] then []
    else (if key(s[0]) == k then [s[0]] else []) + WithKey(s[1..], key, k)
  }

  /** Every element of `s` has a key `>= lo`. */
  ghost predicate AllAtLeast<T>(s: seq<T>, key: T -> SortKey, lo: SortKey) {
    forall i | 0 <= i < |s| :: KeyLe(lo, key(s[i]))
  }

  /** Puts `x` in front of the first element whose key is not smaller. */
  function Insert<T>(x: T, s: seq<T>, key: T -> SortKey): seq<T>
    decreases |s|
  {
    if s == [] || KeyLe(key(x), key(s[0])) then [x] + s
    else [s[0]] + Insert(x, s[1..], key)
  }

  lemma {:induction false} InsertMultiset<T>(x: T, s: seq<T>, key: T -> SortKey)
    ensures multiset(Insert(x, s, key)) == multiset(s) + multiset{x}
    decreases |s|
  {
    if s != [] && !KeyLe(key(x), key(s[0])) {
      InsertMultiset(x, s[1..], key);
      assert s == [s[0]] + s[1..];
    }
  }

  lemma {:induction false} InsertAtLeast<T>(x: T, s: seq<T>, key: T -> SortKey, lo: SortKey)
    requires AllAtLeast(s, key, lo) && KeyLe(lo, key(x))
    ensures AllAtLeast(Insert(x, s, key), key, lo)
    decreases |s|
  {
    if s != [] && !KeyLe(key(x), key(s[0])) {
      InsertAtLeast(x, s[1..], key, lo);
      var r := Insert(x, s, key);
      assert r == [s[0]] + Insert(x, s[1..], key);
      forall i | 0 <= i < |r| ensures KeyLe(lo, key(r[i])) {
        if i > 0 {
          assert r[i] == Insert(x, s[1..], key)[i - 1];
        }
      }
    }
  }

  lemma {:induction false} InsertSorted<T>(x: T, s: seq<T>, key: T -> SortKey)
    requires SortedBy(s, key)
    ensures SortedBy(Insert(x, s, key), key)
    decreases |s|
  {
    var r := Insert(x, s, key);
    if s != [] && KeyLe(key(x), key(s[0])) {
      forall i, j | 0 <= i < j < |r| ensures KeyLe(key(r[i]), key(r[j])) {
        if i == 0 {
          KeyLeTotalOrder(key(x), key(s[0]), key(s[j - 1]));
        } else {
          assert r[i] == s[i - 1] && r[j] == s[j - 1];
        }
      }
    } else if s != [] {
      var t := s[1..];
      KeyLeTotalOrder(key(x), key(s[0]), key(s[0]));
      assert AllAtLeast(t, key, key(s[0])) by {
        forall i | 0 <= i < |t| ensures KeyLe(key(s[0]), key(t[i])) {
          assert t[i] == s[i + 1];
        }
      }
      InsertAtLeast(x, t, key, key(s[0]));
      InsertSorted(x, t, key);
      var u := Insert(x, t, key);
      assert r == [s[0]] + u;
      forall i, j | 0 <= i < j < |r| ensures KeyLe(key(r[i]), key(r[j])) {
        assert r[j] == u[j - 1];
        if i > 0 {
          assert r[i] == u[i - 1];
        }
      }
    }
  }

  /** Inserting `x` adds it in front of the elements with its own key. */
  lemma {:induction false} InsertWithKey<T>(x: T, s: seq<T>, key: T -> SortKey, k: SortKey)
    ensures WithKey(Insert(x, s, key), key, k) == (if key(x) == k then [x] else []) + WithKey(s, key, k)
    decreases |s|
  {
    if s == [] || KeyLe(key(x), key(s[0])) {
      assert ([x] + s)[1..] == s;
    } else {
      KeyLeTotalOrder(key(x), key(s[0]), key(s[0]));
      InsertWithKey(x, s[1..], key, k);
      assert ([s[0]] + Insert(x, s[1..], key))[1..] == Insert(x, s[1..], key);
    }
  }

  /** `sorted(s, key=key)`: a permutation of `s`, sorted by key, in which
      elements with equal keys keep their order in `s`. */
  function SortBy<T>(s: seq<T>, key: T -> SortKey): (r: seq<T>)
    ensures multiset(r) == multiset(s)
    ensures SortedBy(r, key)
    ensures forall k :: WithKey(r, key, k) == WithKey(s, key, k)
    decreases |s|
  {
    if s == [] then []
    else
      var rest := SortBy(s[1..], key);
      InsertMultiset(s[0], rest, key);
      InsertSorted(s[0], rest, key);
      assert s == [s[0]] + s[1..];
      forall k ensures WithKey(Insert(s[0], rest, key), key, k) == WithKey(s, key, k) {
        InsertWithKey(s[0], rest, key, k);
      }
      Insert(s[0], rest, key)
  }

  /** Sorting neither adds nor drops an element. */
  lemma SortByMembers<T>(s: seq<T>, key: T -> SortKey, x: T)
    ensures x in SortBy(s, key) <==> x in s
  {
    assert x in multiset(SortBy(s, key)) <==> x in multiset(s);
  }
}
