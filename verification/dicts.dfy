/** Python dictionaries keep insertion order, and the wrapper script's line
    order follows it, so a dictionary is modelled as a sequence of entries
    whose keys are pairwise distinct. */
module Dicts {

  ghost predicate DistinctKeys<K, V>(d: seq<(K, V)>) {
    forall i, j :: 0 <= i < j < |d| ==> d[i].0 != d[j].0
  }

  type Dict<K, V> = d: seq<(K, V)> | DistinctKeys(d) witness []

  function Keys<K, V>(d: seq<(K, V)>): (ks: seq<K>)
    ensures |ks| == |d|
    ensures forall i :: 0 <= i < |d| ==> ks[i] == d[i].0
  {
    if d == [] then [] else [d[0].0] + Keys(d[1..])
  }

  ghost function KeySet<K, V>(d: seq<(K, V)>): set<K> {
    set i | 0 <= i < |d| :: d[i].0
  }

  /** The first entry's key and the keys after it make up the key set, and
      the first key does not recur. */
  lemma KeySetFront<K, V>(d: Dict<K, V>)
    requires d != []
    ensures KeySet(d) == KeySet(d[1..]) + {d[0].0}
    ensures d[0].0 !in KeySet(d[1..])
  {
    forall x | x in KeySet(d) ensures x in KeySet(d[1..]) + {d[0].0} {
      var j :| 0 <= j < |d| && d[j].0 == x;
      if j > 0 {
        assert d[1..][j - 1].0 == x;
      }
    }
  }

  /** Position of key `k` in `d`, or `|d|` when `k` is not a key. */
  function Find<K(==), V>(d: seq<(K, V)>, k: K): (i: nat)
    ensures i <= |d|
    ensures i < |d| ==> d[i].0 == k
    ensures i == |d| ==> k !in KeySet(d)
  {
    if d == [] then 0 else if d[0].0 == k then 0 else 1 + Find(d[1..], k)
  }

  /** `d[k] = v`: an existing key keeps its position and gets the new value;
      a new key is appended at the end. */
  function Put<K(==), V>(d: Dict<K, V>, k: K, v: V): (r: Dict<K, V>)
    ensures KeySet(r) == KeySet(d) + {k}
    ensures k in KeySet(d) ==> |r| == |d|
    ensures k !in KeySet(d) ==> |r| == |d| + 1 && r[..|d|] == d
    ensures forall i :: 0 <= i < |r| && r[i].0 == k ==> r[i].1 == v
    ensures forall i :: 0 <= i < |d| && d[i].0 != k ==> r[i] == d[i]
  {
    var i := Find(d, k);
    if i < |d| then
      var r := d[i := (k, v)];
      assert forall j :: 0 <= j < |r| && j != i ==> r[j] == d[j];
      assert KeySet(r) == KeySet(d) by {
        forall x | x in KeySet(d) ensures x in KeySet(r) {
          var j :| 0 <= j < |d| && d[j].0 == x;
          assert r[j].0 == x;
        }
      }
      r
    else
      var r := d + [(k, v)];
      assert KeySet(r) == KeySet(d) + {k} by {
        assert r[|d|].0 == k;
        forall x | x in KeySet(d) ensures x in KeySet(r) {
          var j :| 0 <= j < |d| && d[j].0 == x;
          assert r[j].0 == x;
        }
      }
      r
  }

  /** A dict comprehension `{k: v for (k, v) in pairs}`: entries are put in
      order, so a repeated key keeps its first position and its last value. */
  function FromPairs<K(==), V>(pairs: seq<(K, V)>): (d: Dict<K, V>)
    ensures KeySet(d) == KeySet(pairs)
    ensures |d| <= |pairs|
  {
    if pairs == [] then []
    else
      var last := pairs[|pairs| - 1];
      var front := FromPairs(pairs[..|pairs| - 1]);
      assert KeySet(pairs) == KeySet(pairs[..|pairs| - 1]) + {last.0} by {
        assert pairs == pairs[..|pairs| - 1] + [last];
        forall x | x in KeySet(pairs) ensures x in KeySet(pairs[..|pairs| - 1]) + {last.0} {
          var j :| 0 <= j < |pairs| && pairs[j].0 == x;
          if j < |pairs| - 1 {
            assert pairs[..|pairs| - 1][j].0 == x;
          }
        }
      }
      Put(front, last.0, last.1)
  }

  /** The value a comprehension over `pairs` keeps for `k`: the last one. */
  lemma {:induction false} FromPairsLastValue<K, V>(pairs: seq<(K, V)>, i: nat, j: nat)
    requires i < |FromPairs(pairs)|
    requires j < |pairs| && pairs[j].0 == FromPairs(pairs)[i].0
    requires forall l :: j < l < |pairs| ==> pairs[l].0 != pairs[j].0
    ensures FromPairs(pairs)[i].1 == pairs[j].1
  {
    var last := pairs[|pairs| - 1];
    var front := pairs[..|pairs| - 1];
    if j < |pairs| - 1 {
      assert last.0 != pairs[j].0;
      var d := FromPairs(front);
      var k := FromPairs(pairs)[i].0;
      var r := FromPairs(pairs);
      assert r == Put(d, last.0, last.1);
      assert k in KeySet(d) by {
        assert front[j].0 == k;
      }
      assert k != last.0;
      assert i < |d| by {
        if last.0 !in KeySet(d) {
          assert r[|d|].0 == last.0;
        }
      }
      assert r[i] == d[i];
      FromPairsLastValue(front, i, j);
    }
  }

  /** The map giving the key of entry `i` the value `vs[i]`. */
  function KeyedBy<K, V, W>(d: Dict<K, V>, vs: seq<W>): (m: map<K, W>)
    requires |vs| == |d|
    ensures m.Keys == KeySet(d)
  {
    map i | 0 <= i < |d| :: d[i].0 := vs[i]
  }

  lemma KeyedByAt<K, V, W>(d: Dict<K, V>, vs: seq<W>, i: nat)
    requires |vs| == |d| && i < |d|
    ensures KeyedBy(d, vs)[d[i].0] == vs[i]
  {
  }

  lemma KeyedByOne<K, V, W>(d: Dict<K, V>, vs: seq<W>)
    requires |vs| == |d| == 1
    ensures KeyedBy(d, vs) == map[d[0].0 := vs[0]]
  {
    assert KeySet(d) == {d[0].0};
  }

  /** `{key(x): value(x) for x in xs}`: a comprehension keyed by a
      function of each element. */
  function LastByKey<T, K(==), V>(xs: seq<T>, key: T -> K, value: T -> V): (m: map<K, V>)
    ensures m.Keys == set x | x in xs :: key(x)
    decreases |xs|
  {
    if xs == [] then map[]
    else
      var last := xs[|xs| - 1];
      var front := xs[..|xs| - 1];
      assert xs == front + [last];
      LastByKey(front, key, value)[key(last) := value(last)]
  }

  /** In such a comprehension the last element with a key determines its
      value. */
  lemma {:induction false} LastByKeyValue<T, K, V>(xs: seq<T>, key: T -> K, value: T -> V, i: nat)
    requires i < |xs|
    requires forall j :: i < j < |xs| ==> key(xs[j]) != key(xs[i])
    ensures LastByKey(xs, key, value)[key(xs[i])] == value(xs[i])
    decreases |xs|
  {
    var last := xs[|xs| - 1];
    var front := xs[..|xs| - 1];
    if i < |front| {
      assert front[i] == xs[i];
      assert key(last) != key(xs[i]);
      assert forall j :: i < j < |front| ==> key(front[j]) != key(front[i]) by {
        forall j | i < j < |front| ensures key(front[j]) != key(front[i]) {
          assert front[j] == xs[j];
        }
      }
      LastByKeyValue(front, key, value, i);
    }
  }

  /** A property every value has holds of every entry of the comprehension. */
  lemma {:induction false} LastByKeyAll<T, K, V>(xs: seq<T>, key: T -> K, value: T -> V, p: V -> bool)
    requires forall x :: x in xs ==> p(value(x))
    ensures forall k :: k in LastByKey(xs, key, value) ==> p(LastByKey(xs, key, value)[k])
    decreases |xs|
  {
    if xs != [] {
      var front := xs[..|xs| - 1];
      assert forall x :: x in front ==> x in xs;
      LastByKeyAll(front, key, value, p);
    }
  }
}
