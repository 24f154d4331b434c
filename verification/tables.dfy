/** Python's insertion-ordered `dict`, and the way the three header detectors
    fill one: `found.setdefault(key, {})[field] = column` for every column
    that classifies as (key, field), left to right. */
module Tables {
  import opened Options

  /** A `dict`: its keys in insertion order, and the key-to-value mapping. */
  datatype Table<K(==,!new), V> = Table(keys: seq<K>, vals: map<K, V>) {

    /** No key twice, and the listed keys are exactly the mapped ones. */
    ghost predicate Valid() {
      && (forall i, j | 0 <= i < j < |keys| :: keys[i] != keys[j])
      && (forall k :: k in vals <==> k in keys)
    }
  }

  /** The place of `k` in insertion order: its first index in `keys`, or
      `|keys|` when it is not there. */
  function Position<K(==)>(keys: seq<K>, k: K): (p: nat)
    ensures p <= |keys|
    ensures p < |keys| <==> k in keys
    ensures p < |keys| ==> keys[p] == k && k !in keys[..p]
    decreases |keys|
  {
    if keys == [] then 0
    else if keys[0] == k then 0
    else
      var p := 1 + Position(keys[1..], k);
      assert keys[..p] == [keys[0]] + keys[1..][..p - 1];
      p
  }

  function Empty<K(==,!new), V>(): (t: Table<K, V>)
    ensures t.Valid() && t.keys == [] && t.vals == map[]
  {
    Table([], map[])
  }

  /** `d[k] = v`: a new key is appended, an existing key keeps its place and
      gets the new value. */
  function Put<K(==,!new), V>(t: Table<K, V>, k: K, v: V): (r: Table<K, V>)
    requires t.Valid()
    ensures r.Valid()
    ensures r.vals == t.vals[k := v]
    ensures r.keys == if k in t.vals then t.keys else t.keys + [k]
  {
    if k in t.vals then Table(t.keys, t.vals[k := v]) else Table(t.keys + [k], t.vals[k := v])
  }

  /** The elements of `keys` that satisfy `keep`, in order. */
  function FilterKeys<K(==,!new)>(keys: seq<K>, keep: K -> bool): (r: seq<K>)
    ensures forall k :: k in r <==> k in keys && keep(k)
    ensures (forall i, j | 0 <= i < j < |keys| :: keys[i] != keys[j]) ==> (forall i, j | 0 <= i < j < |r| :: r[i] != r[j])
    decreases |keys|
  {
    if keys == [] then []
    else
      var rest := FilterKeys(keys[1..], keep);
      assert forall k :: k in keys <==> k == keys[0] || k in keys[1..];
      if keep(keys[0]) then
        assert (forall i, j | 0 <= i < j < |keys| :: keys[i] != keys[j]) ==> keys[0] !in keys[1..];
        [keys[0]] + rest
      else rest
  }

  /** `{k: v for k, v in t.items() if good(v)}`: the entries whose value
      passes, in their order in `t`. */
  function KeepWhere<K(==,!new), V>(t: Table<K, V>, good: V -> bool): (r: Table<K, V>)
    requires t.Valid()
    ensures r.Valid()
    ensures forall k :: k in r.vals <==> k in t.vals && good(t.vals[k])
    ensures forall k | k in r.vals :: r.vals[k] == t.vals[k]
  {
    var keep := k => k in t.vals && good(t.vals[k]);
    var ks := FilterKeys(t.keys, keep);
    Table(ks, map k | k in t.vals && good(t.vals[k]) :: t.vals[k])
  }

  /** `for r in rows: if (v := make(r)) is not None: d[key(v)] = v`,
      starting from an empty dict. */
  function Gather<R, K(==,!new), V>(rows: seq<R>, make: R -> Option<V>, key: V -> K): (t: Table<K, V>)
    ensures t.Valid()
    decreases |rows|
  {
    if rows == [] then Empty()
    else
      var n := |rows| - 1;
      var pre := Gather(rows[..n], make, key);
      match make(rows[n])
      case None => pre
      case Some(v) => Put(pre, key(v), v)
  }

  /** Row i yields a value with key k. */
  ghost predicate Yields<R, K(!new), V>(rows: seq<R>, make: R -> Option<V>, key: V -> K, i: int, k: K) {
    0 <= i < |rows| && make(rows[i]).Some? && key(make(rows[i]).value) == k
  }

  /** A key is gathered exactly when some row yields it. */
  lemma {:induction false} GatherKeys<R, K(!new), V>(rows: seq<R>, make: R -> Option<V>, key: V -> K, k: K)
    ensures k in Gather(rows, make, key).vals <==> exists i :: Yields(rows, make, key, i, k)
    decreases |rows|
  {
    if rows != [] {
      var n := |rows| - 1;
      var pre := Gather(rows[..n], make, key);
      var r := Gather(rows, make, key);
      assert make(rows[n]).None? ==> r == pre;
      assert make(rows[n]).Some? ==> r.vals == pre.vals[key(make(rows[n]).value) := make(rows[n]).value];
      GatherKeys(rows[..n], make, key, k);
      if make(rows[n]).Some? && key(make(rows[n]).value) == k {
        assert Yields(rows, make, key, n, k);
      }
      if exists i :: Yields(rows[..n], make, key, i, k) {
        var i :| Yields(rows[..n], make, key, i, k);
        assert rows[..n][i] == rows[i];
        assert Yields(rows, make, key, i, k);
      }
      if exists i :: Yields(rows, make, key, i, k) {
        var i :| Yields(rows, make, key, i, k);
        if i < n {
          assert rows[..n][i] == rows[i];
          assert Yields(rows[..n], make, key, i, k);
        }
      }
    }
  }

  /** The value under a key is the one the last row yielding it made: a
      later row replaces the value of an earlier one. */
  lemma {:induction false} GatherLast<R, K(!new), V>(rows: seq<R>, make: R -> Option<V>, key: V -> K, k: K) returns (i: int)
    requires k in Gather(rows, make, key).vals
    ensures Yields(rows, make, key, i, k) && forall j | i < j < |rows| :: !Yields(rows, make, key, j, k)
    ensures Gather(rows, make, key).vals[k] == make(rows[i]).value
    decreases |rows|
  {
    var n := |rows| - 1;
    if Yields(rows, make, key, n, k) {
      i := n;
    } else {
      GatherOther(rows, make, key, k);
      i := GatherLast(rows[..n], make, key, k);
      YieldsPrefix(rows, make, key, n, i, k);
      forall j | i < j < |rows| ensures !Yields(rows, make, key, j, k) {
        if j < n {
          YieldsPrefix(rows, make, key, n, j, k);
        }
      }
    }
  }

  /** A key the last row does not yield keeps the value the earlier rows gave it. */
  lemma GatherOther<R, K(!new), V>(rows: seq<R>, make: R -> Option<V>, key: V -> K, k: K)
    requires rows != [] && !Yields(rows, make, key, |rows| - 1, k)
    ensures var n := |rows| - 1;
      (k in Gather(rows, make, key).vals <==> k in Gather(rows[..n], make, key).vals) &&
      (k in Gather(rows, make, key).vals ==> Gather(rows, make, key).vals[k] == Gather(rows[..n], make, key).vals[k])
  {
  }

  /** Row j of a prefix yields exactly what it yields in the whole sequence. */
  lemma YieldsPrefix<R, K(!new), V>(rows: seq<R>, make: R -> Option<V>, key: V -> K, n: int, j: int, k: K)
    requires 0 <= j < n <= |rows|
    ensures Yields(rows[..n], make, key, j, k) <==> Yields(rows, make, key, j, k)
  {
    assert rows[..n][j] == rows[j];
  }

  /** The field map stored so far under `k` (`setdefault`'s `{}` when new). */
  function Slot<K(==,!new), F(==,!new)>(t: Table<K, map<F, string>>, k: K): map<F, string> {
    if k in t.vals then t.vals[k] else map[]
  }

  /** One loop step: a column that classifies as (k, f) is written to slot f
      of key k (overwriting an earlier column); any other column is skipped. */
  function Record<K(==,!new), F(==,!new)>(t: Table<K, map<F, string>>, hit: Option<(K, F)>, c: string): Table<K, map<F, string>>
    requires t.Valid()
  {
    match hit
    case None => t
    case Some((k, f)) => Put(t, k, Slot(t, k)[f := c])
  }

  /** The whole loop over the columns, left to right. */
  function Collect<K(==,!new), F(==,!new)>(cols: seq<string>, classify: string -> Option<(K, F)>): (r: Table<K, map<F, string>>)
    ensures r.Valid()
    decreases |cols|
  {
    if cols == [] then Empty()
    else
      var n := |cols| - 1;
      Record(Collect(cols[..n], classify), classify(cols[n]), cols[n])
  }

  /** Column `i` classifies as (k, f). */
  ghost predicate HitAt<K(!new), F(!new)>(cols: seq<string>, classify: string -> Option<(K, F)>, i: int, k: K, f: F) {
    0 <= i < |cols| && classify(cols[i]) == Some((k, f))
  }

  /** Column `i` classifies under key `k`, whatever its field. */
  ghost predicate KeyAt<K(!new), F(!new)>(cols: seq<string>, classify: string -> Option<(K, F)>, i: int, k: K) {
    0 <= i < |cols| && classify(cols[i]).Some? && classify(cols[i]).value.0 == k
  }

  /** Column `i` is the last column that classifies as (k, f). */
  ghost predicate LastHit<K(!new), F(!new)>(cols: seq<string>, classify: string -> Option<(K, F)>, i: int, k: K, f: F) {
    HitAt(cols, classify, i, k, f) && forall j | i < j < |cols| :: !HitAt(cols, classify, j, k, f)
  }

  lemma PrefixHits<K(!new), F(!new)>(cols: seq<string>, classify: string -> Option<(K, F)>, n: nat)
    requires n <= |cols|
    ensures forall i, k, f | 0 <= i < n :: HitAt(cols[..n], classify, i, k, f) == HitAt(cols, classify, i, k, f)
    ensures forall i, k | 0 <= i < n :: KeyAt(cols[..n], classify, i, k) == KeyAt(cols, classify, i, k)
  {
    forall i | 0 <= i < n ensures cols[..n][i] == cols[i] {
    }
  }

  /** A key is in the table exactly when some column classifies under it. */
  lemma {:induction false} CollectKeys<K(!new), F(!new)>(cols: seq<string>, classify: string -> Option<(K, F)>, k: K)
    ensures k in Collect(cols, classify).vals <==> exists i :: KeyAt(cols, classify, i, k)
    decreases |cols|
  {
    if cols != [] {
      var n := |cols| - 1;
      var pre := Collect(cols[..n], classify);
      var r := Collect(cols, classify);
      CollectKeys(cols[..n], classify, k);
      PrefixHits(cols, classify, n);
      if k in pre.vals {
        var i :| KeyAt(cols[..n], classify, i, k);
        assert KeyAt(cols, classify, i, k);
      }
      match classify(cols[n])
      case None =>
        assert r == pre;
        if exists i :: KeyAt(cols, classify, i, k) {
          var i :| KeyAt(cols, classify, i, k);
          assert KeyAt(cols[..n], classify, i, k);
        }
      case Some((k', f')) =>
        assert r.vals == pre.vals[k' := Slot(pre, k')[f' := cols[n]]];
        if k == k' {
          assert KeyAt(cols, classify, n, k);
        } else if exists i :: KeyAt(cols, classify, i, k) {
          var i :| KeyAt(cols, classify, i, k);
          assert KeyAt(cols[..n], classify, i, k);
        }
    }
  }

  /** Slot f of key k is filled exactly when some column classifies as (k, f). */
  lemma {:induction false} CollectHits<K(!new), F(!new)>(cols: seq<string>, classify: string -> Option<(K, F)>, k: K, f: F)
    ensures var r := Collect(cols, classify);
      (k in r.vals && f in r.vals[k]) <==> exists i :: HitAt(cols, classify, i, k, f)
    decreases |cols|
  {
    if cols != [] {
      var n := |cols| - 1;
      var pre := Collect(cols[..n], classify);
      var r := Collect(cols, classify);
      CollectHits(cols[..n], classify, k, f);
      PrefixHits(cols, classify, n);
      if k in pre.vals && f in pre.vals[k] {
        var i :| HitAt(cols[..n], classify, i, k, f);
        assert HitAt(cols, classify, i, k, f);
      }
      match classify(cols[n])
      case None =>
        assert r == pre;
        if exists i :: HitAt(cols, classify, i, k, f) {
          var i :| HitAt(cols, classify, i, k, f);
          assert HitAt(cols[..n], classify, i, k, f);
        }
      case Some((k', f')) =>
        assert r.vals == pre.vals[k' := Slot(pre, k')[f' := cols[n]]];
        if k == k' && f == f' {
          assert HitAt(cols, classify, n, k, f);
        } else if exists i :: HitAt(cols, classify, i, k, f) {
          var i :| HitAt(cols, classify, i, k, f);
          assert HitAt(cols[..n], classify, i, k, f);
        }
    }
  }

  /** A filled slot holds the last column that classifies as (k, f): a later
      header with the same key and field overwrites an earlier one. */
  lemma {:induction false} CollectLast<K(!new), F(!new)>(cols: seq<string>, classify: string -> Option<(K, F)>, k: K, f: F) returns (i: int)
    requires var r := Collect(cols, classify); k in r.vals && f in r.vals[k]
    ensures LastHit(cols, classify, i, k, f) && Collect(cols, classify).vals[k][f] == cols[i]
    decreases |cols|
  {
    var n := |cols| - 1;
    if classify(cols[n]) == Some((k, f)) {
      i := n;
    } else {
      CollectOther(cols, classify, k, f);
      i := CollectLast(cols[..n], classify, k, f);
      LastHitExtend(cols, classify, i, k, f);
    }
  }

  /** A slot the last column does not fill keeps what the earlier columns put there. */
  lemma CollectOther<K(!new), F(!new)>(cols: seq<string>, classify: string -> Option<(K, F)>, k: K, f: F)
    requires cols != [] && classify(cols[|cols| - 1]) != Some((k, f))
    requires var r := Collect(cols, classify); k in r.vals && f in r.vals[k]
    ensures var pre := Collect(cols[..|cols| - 1], classify);
      k in pre.vals && f in pre.vals[k] && Collect(cols, classify).vals[k][f] == pre.vals[k][f]
  {
    var n := |cols| - 1;
    var pre := Collect(cols[..n], classify);
    var r := Collect(cols, classify);
    assert r == Record(pre, classify(cols[n]), cols[n]);
    match classify(cols[n])
    case None =>
    case Some((k2, f2)) =>
      assert r.vals == pre.vals[k2 := Slot(pre, k2)[f2 := cols[n]]];
      if k2 == k {
        assert f2 != f;
        assert r.vals[k] == Slot(pre, k)[f2 := cols[n]];
      }
  }

  /** The last hit among all but the final column stays the last hit when
      the final column misses. */
  lemma LastHitExtend<K(!new), F(!new)>(cols: seq<string>, classify: string -> Option<(K, F)>, i: int, k: K, f: F)
    requires cols != [] && classify(cols[|cols| - 1]) != Some((k, f))
    requires LastHit(cols[..|cols| - 1], classify, i, k, f)
    ensures LastHit(cols, classify, i, k, f) && cols[..|cols| - 1][i] == cols[i]
  {
    PrefixHits(cols, classify, |cols| - 1);
  }

  /** Keys are listed in the order of their first column: some column of
      `keys[a]` comes before every column of `keys[b]` when a < b. */
  lemma {:induction false} CollectOrder<K(!new), F(!new)>(cols: seq<string>, classify: string -> Option<(K, F)>, a: nat, b: nat)
    requires a < b < |Collect(cols, classify).keys|
    ensures var ks := Collect(cols, classify).keys;
      exists i :: KeyAt(cols, classify, i, ks[a]) && forall j | 0 <= j <= i :: !KeyAt(cols, classify, j, ks[b])
    decreases |cols|
  {
    var n := |cols| - 1;
    var pre := Collect(cols[..n], classify);
    var ks := Collect(cols, classify).keys;
    PrefixHits(cols, classify, n);
    assert pre.keys <= ks;
    if b < |pre.keys| {
      CollectOrder(cols[..n], classify, a, b);
      var i :| KeyAt(cols[..n], classify, i, pre.keys[a]) && forall j | 0 <= j <= i :: !KeyAt(cols[..n], classify, j, pre.keys[b]);
      assert KeyAt(cols, classify, i, ks[a]);
    } else {
      var k := ks[b];
      assert k !in pre.vals;
      CollectKeys(cols[..n], classify, k);
      CollectKeys(cols[..n], classify, ks[a]);
      var i :| KeyAt(cols[..n], classify, i, ks[a]);
      assert KeyAt(cols, classify, i, ks[a]);
      forall j | 0 <= j <= i ensures !KeyAt(cols, classify, j, k) {
        assert !KeyAt(cols[..n], classify, j, k);
      }
    }
  }

  /** Adding a column that classifies as nothing leaves the table unchanged:
      a detector only ever looks at the headers of its own dialect. */
  lemma CollectIgnores<K(!new), F(!new)>(cols: seq<string>, classify: string -> Option<(K, F)>, c: string)
    requires classify(c).None?
    ensures Collect(cols + [c], classify) == Collect(cols, classify)
  {
    assert (cols + [c])[..|cols|] == cols;
  }
}
