/** A Python `dict` as the sequence of its items in insertion order. Assigning
    to an existing key replaces the value in place; a new key goes to the end. */
module PyDict {
  import opened Results

  type Dict<K, V> = seq<(K, V)>

  function KeySet<K, V>(d: Dict<K, V>): set<K> {
    set i | 0 <= i < |d| :: d[i].0
  }

  lemma KeySetCons<K, V>(p: (K, V), d: Dict<K, V>)
    ensures KeySet([p] + d) == {p.0} + KeySet(d)
  {
    var e := [p] + d;
    forall k | k in KeySet(e)
      ensures k in {p.0} + KeySet(d)
    {
      var i :| 0 <= i < |e| && e[i].0 == k;
      if i > 0 { assert e[i] == d[i - 1]; }
    }
    forall k | k in KeySet(d)
      ensures k in KeySet(e)
    {
      var i :| 0 <= i < |d| && d[i].0 == k;
      assert e[i + 1] == d[i];
    }
    assert e[0] == p;
  }

  /** Python dicts never hold a key twice. */
  ghost predicate UniqueKeys<K, V>(d: Dict<K, V>) {
    forall i, j :: 0 <= i < j < |d| ==> d[i].0 != d[j].0
  }

  /** `d.get(k)`: the value stored under `k`, if any. */
  function Get<K(==), V>(d: Dict<K, V>, k: K): (r: Option<V>)
    ensures r.Some? <==> k in KeySet(d)
  {
    if |d| == 0 then None
    else if d[0].0 == k then Some(d[0].1)
    else
      assert KeySet(d) == {d[0].0} + KeySet(d[1..]) by {
        assert d == [d[0]] + d[1..];
        KeySetCons(d[0], d[1..]);
      }
      Get(d[1..], k)
  }

  lemma KeySetAppend<K, V>(a: Dict<K, V>, b: Dict<K, V>)
    ensures KeySet(a + b) == KeySet(a) + KeySet(b)
  {
    var e := a + b;
    forall k | k in KeySet(e)
      ensures k in KeySet(a) + KeySet(b)
    {
      var i :| 0 <= i < |e| && e[i].0 == k;
      if i < |a| { assert e[i] == a[i]; } else { assert e[i] == b[i - |a|]; }
    }
    forall k | k in KeySet(a)
      ensures k in KeySet(e)
    {
      var i :| 0 <= i < |a| && a[i].0 == k;
      assert e[i] == a[i];
    }
    forall k | k in KeySet(b)
      ensures k in KeySet(e)
    {
      var i :| 0 <= i < |b| && b[i].0 == k;
      assert e[|a| + i] == b[i];
    }
  }

  /** Looking a key up in two dictionaries written one after the other: the
      first one that has the key answers. */
  lemma {:induction false} GetAppend<K, V>(a: Dict<K, V>, b: Dict<K, V>, k: K)
    ensures Get(a + b, k) == if k in KeySet(a) then Get(a, k) else Get(b, k)
  {
    if |a| > 0 {
      assert (a + b)[0] == a[0];
      assert (a + b)[1..] == a[1..] + b;
      GetAppend(a[1..], b, k);
      assert KeySet(a) == {a[0].0} + KeySet(a[1..]) by {
        assert a == [a[0]] + a[1..];
        KeySetCons(a[0], a[1..]);
      }
    } else {
      assert a + b == b;
    }
  }

  /** Two dictionaries with distinct keys and no key in common, written one
      after the other, still have distinct keys. */
  lemma UniqueAppend<K, V>(a: Dict<K, V>, b: Dict<K, V>)
    requires UniqueKeys(a) && UniqueKeys(b)
    requires KeySet(a) !! KeySet(b)
    ensures UniqueKeys(a + b)
  {
    var e := a + b;
    forall i, j | 0 <= i < j < |e|
      ensures e[i].0 != e[j].0
    {
      if j < |a| {
        assert e[i] == a[i] && e[j] == a[j];
      } else if i >= |a| {
        assert e[i] == b[i - |a|] && e[j] == b[j - |a|];
      } else {
        assert e[i] == a[i] && e[j] == b[j - |a|];
        assert a[i].0 in KeySet(a) && b[j - |a|].0 in KeySet(b);
      }
    }
  }

  /** `d[k] = v`. */
  function Set<K(==), V>(d: Dict<K, V>, k: K, v: V): (r: Dict<K, V>)
    ensures KeySet(r) == KeySet(d) + {k}
    ensures k in KeySet(d) ==> |r| == |d|
    ensures k !in KeySet(d) ==> r == d + [(k, v)]
  {
    if |d| == 0 then
      assert KeySet([(k, v)]) == {k} by {
        assert [(k, v)][0].0 == k;
      }
      [(k, v)]
    else if d[0].0 == k then
      assert KeySet(d) == {k} + KeySet(d[1..]) by {
        assert d == [d[0]] + d[1..];
        KeySetCons(d[0], d[1..]);
      }
      KeySetCons((k, v), d[1..]);
      [(k, v)] + d[1..]
    else
      var rest := Set(d[1..], k, v);
      assert KeySet(d) == {d[0].0} + KeySet(d[1..]) by {
        assert d == [d[0]] + d[1..];
        KeySetCons(d[0], d[1..]);
      }
      KeySetCons(d[0], rest);
      if k !in KeySet(d) then
        assert [d[0]] + rest == d + [(k, v)] by {
          assert rest == d[1..] + [(k, v)];
        }
        [d[0]] + rest
      else
        [d[0]] + rest
  }

  /** Reading back after an assignment: the assigned key gives the new value,
      every other key what it gave before. */
  lemma {:induction false} GetAfterSet<K, V>(d: Dict<K, V>, k: K, v: V, k': K)
    ensures Get(Set(d, k, v), k') == if k' == k then Some(v) else Get(d, k')
  {
    if |d| == 0 {
    } else if d[0].0 == k {
    } else {
      GetAfterSet(d[1..], k, v, k');
      assert Set(d, k, v) == [d[0]] + Set(d[1..], k, v);
      assert ([d[0]] + Set(d[1..], k, v))[1..] == Set(d[1..], k, v);
    }
  }

  /** An assignment keeps the keys distinct. */
  lemma {:induction false} SetKeepsUniqueKeys<K, V>(d: Dict<K, V>, k: K, v: V)
    requires UniqueKeys(d)
    ensures UniqueKeys(Set(d, k, v))
  {
    if |d| == 0 {
    } else if d[0].0 == k {
      var r := Set(d, k, v);
      assert r == [(k, v)] + d[1..];
      forall i, j | 0 <= i < j < |r|
        ensures r[i].0 != r[j].0
      {
        assert r[j] == d[j];
        if i > 0 { assert r[i] == d[i]; }
      }
    } else {
      assert UniqueKeys(d[1..]) by {
        forall i, j | 0 <= i < j < |d[1..]|
          ensures d[1..][i].0 != d[1..][j].0
        {
          assert d[1..][i] == d[i + 1] && d[1..][j] == d[j + 1];
        }
      }
      SetKeepsUniqueKeys(d[1..], k, v);
      var rest := Set(d[1..], k, v);
      var r := [d[0]] + rest;
      assert d[0].0 !in KeySet(d[1..]) by {
        forall j | 0 <= j < |d[1..]|
          ensures d[1..][j].0 != d[0].0
        {
          assert d[1..][j] == d[j + 1];
        }
      }
      assert d[0].0 !in KeySet(rest);
      forall i, j | 0 <= i < j < |r|
        ensures r[i].0 != r[j].0
      {
        if i == 0 {
          assert r[j] == rest[j - 1];
          assert r[j].0 in KeySet(rest);
        } else {
          assert r[i] == rest[i - 1] && r[j] == rest[j - 1];
        }
      }
    }
  }

  /** `a | b`: a copy of `a` updated with the items of `b`, in `b`'s order. */
  function Union<K(==), V>(a: Dict<K, V>, b: Dict<K, V>): (r: Dict<K, V>)
    ensures KeySet(r) == KeySet(a) + KeySet(b)
    decreases |b|
  {
    if |b| == 0 then a
    else
      assert KeySet(b) == {b[0].0} + KeySet(b[1..]) by {
        assert b == [b[0]] + b[1..];
        KeySetCons(b[0], b[1..]);
      }
      Union(Set(a, b[0].0, b[0].1), b[1..])
  }

  /** In `a | b` the right-hand operand wins on a shared key. */
  lemma {:induction false} GetUnion<K, V>(a: Dict<K, V>, b: Dict<K, V>, k: K)
    requires UniqueKeys(b)
    ensures Get(Union(a, b), k) == if k in KeySet(b) then Get(b, k) else Get(a, k)
    decreases |b|
  {
    if |b| == 0 {
    } else {
      assert UniqueKeys(b[1..]) by {
        forall i, j | 0 <= i < j < |b[1..]|
          ensures b[1..][i].0 != b[1..][j].0
        {
          assert b[1..][i] == b[i + 1] && b[1..][j] == b[j + 1];
        }
      }
      assert KeySet(b) == {b[0].0} + KeySet(b[1..]) by {
        assert b == [b[0]] + b[1..];
        KeySetCons(b[0], b[1..]);
      }
      GetUnion(Set(a, b[0].0, b[0].1), b[1..], k);
      GetAfterSet(a, b[0].0, b[0].1, k);
      if k == b[0].0 {
        assert k !in KeySet(b[1..]) by {
          forall j | 0 <= j < |b[1..]|
            ensures b[1..][j].0 != k
          {
            assert b[1..][j] == b[j + 1];
          }
        }
      }
    }
  }

  /** Some item carries `(k, v)` and no later item has key `k`. */
  ghost predicate IsLastItem<K, V>(items: seq<(K, V)>, k: K, v: V) {
    exists i :: 0 <= i < |items| && items[i].0 == k && items[i].1 == v
      && (forall j :: i < j < |items| ==> items[j].0 != k)
  }

  /** The value the last item with key `k` carries: what a run of
      assignments `d[k] = v`, one per item, leaves under `k`. */
  /** An item whose key no later item repeats carries the key's last value. */
  lemma LastValueAt<K, V>(before: seq<(K, V)>, x: (K, V), after: seq<(K, V)>)
    requires x.0 !in KeySet(after)
    ensures LastValue(before + [x] + after, x.0) == Some(x.1)
  {
    var items := before + [x] + after;
    var n := |before|;
    assert items[n] == x;
    assert forall m :: n < m < |items| ==> items[m] == after[m - n - 1];
    var v := LastValue(items, x.0).value;
    var j :| 0 <= j < |items| && items[j].0 == x.0 && items[j].1 == v
      && (forall j' :: j < j' < |items| ==> items[j'].0 != x.0);
    assert j == n;
  }

  function LastValue<K(==), V>(items: seq<(K, V)>, k: K): (r: Option<V>)
    ensures r.Some? <==> k in KeySet(items)
    ensures r.Some? ==> IsLastItem(items, k, r.value)
    decreases |items|
  {
    if |items| == 0 then None
    else
      var n := |items| - 1;
      var init := items[..n];
      assert KeySet(items) == KeySet(init) + {items[n].0} by {
        forall key | key in KeySet(items)
          ensures key in KeySet(init) + {items[n].0}
        {
          var i :| 0 <= i < |items| && items[i].0 == key;
          if i < n { assert init[i] == items[i]; }
        }
        forall key | key in KeySet(init)
          ensures key in KeySet(items)
        {
          var i :| 0 <= i < |init| && init[i].0 == key;
          assert items[i] == init[i];
        }
      }
      if items[n].0 == k then Some(items[n].1)
      else
        var r := LastValue(init, k);
        assert r.Some? ==> IsLastItem(items, k, r.value) by {
          if r.Some? {
            var i :| 0 <= i < |init| && init[i].0 == k && init[i].1 == r.value
              && (forall j :: i < j < |init| ==> init[j].0 != k);
            assert 0 <= i < |items| && items[i].0 == k && items[i].1 == r.value;
            assert items[i] == init[i];
            forall j | i < j < |items|
              ensures items[j].0 != k
            {
              if j < n { assert items[j] == init[j]; }
            }
          }
        }
        r
  }

  lemma {:induction false} LastValueCons<K, V>(p: (K, V), items: seq<(K, V)>, k: K)
    ensures LastValue([p] + items, k) ==
      if LastValue(items, k).Some? then LastValue(items, k) else if p.0 == k then Some(p.1) else None
    decreases |items|
  {
    var e := [p] + items;
    if |items| > 0 {
      var n := |items| - 1;
      assert e[..n + 1] == [p] + items[..n];
      assert e[n + 1] == items[n];
      LastValueCons(p, items[..n], k);
    } else {
      assert e == [p];
      assert e[..0] == [];
    }
  }

  /** A run of assignments, one per item of `b`, onto `a`: every key ends
      with its last assigned value, and keys `b` never names keep their value
      in `a`. */
  lemma {:induction false} GetUnionLast<K, V>(a: Dict<K, V>, b: seq<(K, V)>, k: K)
    ensures Get(Union(a, b), k) == if LastValue(b, k).Some? then LastValue(b, k) else Get(a, k)
    decreases |b|
  {
    if |b| > 0 {
      var a' := Set(a, b[0].0, b[0].1);
      assert Union(a, b) == Union(a', b[1..]);
      GetUnionLast(a', b[1..], k);
      GetAfterSet(a, b[0].0, b[0].1, k);
      LastValueCons(b[0], b[1..], k);
      assert [b[0]] + b[1..] == b;
    }
  }
}
