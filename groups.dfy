/**
 * `groupby(key).agg(sum)` over rows reduced to (key, value) pairs: the distinct keys in
 * order of first appearance and the sum of the values under each key. The groups partition
 * the rows, so the group sums add up to the sum of all values.
 */
module Groups {
  /** The sum of all values. */
  function Sum<K>(rows: seq<(K, real)>): real
    decreases |rows|
  {
    if rows == [] then 0.0 else Sum(rows[..|rows| - 1]) + rows[|rows| - 1].1
  }

  /** The sum of the values of the rows whose key is `k` (the group sum; 0 for no rows). */
  function Total<K(==)>(rows: seq<(K, real)>, k: K): real
    decreases |rows|
  {
    if rows == [] then 0.0
    else Total(rows[..|rows| - 1], k) + (if rows[|rows| - 1].0 == k then rows[|rows| - 1].1 else 0.0)
  }

  predicate Distinct<K(==)>(ks: seq<K>) {
    forall i, j :: 0 <= i < j < |ks| ==> ks[i] != ks[j]
  }

  /** The group keys, each once, in order of first appearance. */
  function Keys<K(==)>(rows: seq<(K, real)>): (ks: seq<K>)
    ensures Distinct(ks)
    ensures forall i :: 0 <= i < |rows| ==> rows[i].0 in ks
    decreases |rows|
  {
    if rows == [] then []
    else
      var init := Keys(rows[..|rows| - 1]);
      assert forall i :: 0 <= i < |rows| - 1 ==> rows[..|rows| - 1][i] == rows[i];
      var k := rows[|rows| - 1].0;
      if k in init then init else init + [k]
  }

  /** Every key comes from a row. */
  lemma {:induction false} KeysFromRows<K>(rows: seq<(K, real)>, k: K)
    requires k in Keys(rows)
    ensures exists i :: 0 <= i < |rows| && rows[i].0 == k
    decreases |rows|
  {
    var init := rows[..|rows| - 1];
    if k != rows[|rows| - 1].0 {
      KeysFromRows(init, k);
      var i :| 0 <= i < |init| && init[i].0 == k;
      assert rows[i] == init[i];
    }
  }

  /** A key no row carries has an empty group. */
  lemma {:induction false} TotalOfAbsent<K>(rows: seq<(K, real)>, k: K)
    requires forall i :: 0 <= i < |rows| ==> rows[i].0 != k
    ensures Total(rows, k) == 0.0
    decreases |rows|
  {
    if rows != [] {
      var init := rows[..|rows| - 1];
      assert forall i :: 0 <= i < |init| ==> init[i] == rows[i];
      TotalOfAbsent(init, k);
    }
  }

  /** The sum of the group sums of the listed keys. */
  function TotalsOver<K(==)>(keys: seq<K>, rows: seq<(K, real)>): real
    decreases |keys|
  {
    if keys == [] then 0.0 else TotalsOver(keys[..|keys| - 1], rows) + Total(rows, keys[|keys| - 1])
  }

  /** One more row adds its value to the group sums exactly once, when its key is listed. */
  lemma {:induction false} TotalsOverStep<K>(keys: seq<K>, rows: seq<(K, real)>, r: (K, real))
    requires Distinct(keys)
    ensures TotalsOver(keys, rows + [r]) == TotalsOver(keys, rows) + (if r.0 in keys then r.1 else 0.0)
    decreases |keys|
  {
    assert (rows + [r])[..|rows + [r]| - 1] == rows;
    if keys != [] {
      var init := keys[..|keys| - 1];
      assert Distinct(init);
      assert r.0 in keys <==> r.0 in init || r.0 == keys[|keys| - 1];
      assert r.0 in init ==> r.0 != keys[|keys| - 1];
      TotalsOverStep(init, rows, r);
    }
  }

  /** The groups partition the rows: the group sums add up to the sum of all values. */
  lemma {:induction false} GroupsPartition<K>(rows: seq<(K, real)>)
    ensures TotalsOver(Keys(rows), rows) == Sum(rows)
    decreases |rows|
  {
    if rows != [] {
      var init, r := rows[..|rows| - 1], rows[|rows| - 1];
      assert rows == init + [r];
      GroupsPartition(init);
      var ks := Keys(init);
      TotalsOverStep(ks, init, r);
      assert Sum(rows) == Sum(init) + r.1;
      if r.0 in ks {
        assert Keys(rows) == ks;
      } else {
        TotalOfAbsent(init, r.0);
        var ks' := ks + [r.0];
        assert Keys(rows) == ks';
        assert ks'[..|ks|] == ks;
        assert TotalsOver(ks', rows) == TotalsOver(ks, rows) + Total(rows, r.0);
        assert Total(rows, r.0) == Total(init, r.0) + r.1;
      }
    }
  }

  /** Sums split over concatenation. */
  lemma {:induction false} TotalAppend<K>(a: seq<(K, real)>, b: seq<(K, real)>, k: K)
    ensures Total(a + b, k) == Total(a, k) + Total(b, k)
    ensures Sum(a + b) == Sum(a) + Sum(b)
    decreases |b|
  {
    if b == [] {
      assert a + b == a;
    } else {
      assert (a + b)[..|a + b| - 1] == a + b[..|b| - 1];
      TotalAppend(a, b[..|b| - 1], k);
    }
  }

  /** The group keys depend on the key column only. */
  lemma {:induction false} KeysOfKeyColumn<K>(a: seq<(K, real)>, b: seq<(K, real)>)
    requires |a| == |b| && forall i :: 0 <= i < |a| ==> a[i].0 == b[i].0
    ensures Keys(a) == Keys(b)
    decreases |a|
  {
    if a != [] {
      var n := |a| - 1;
      assert forall i :: 0 <= i < n ==> a[..n][i] == a[i] && b[..n][i] == b[i];
      KeysOfKeyColumn(a[..n], b[..n]);
    }
  }
}
