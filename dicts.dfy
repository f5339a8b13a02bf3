/** Python's insertion-ordered `dict` with string keys, as the sequence of its
    (key, value) items in iteration order, and the dict comprehension
    `{keys[i]: vals[i] for i in range(len(keys))}` that builds the attribution
    map and the per-class probability map. */
module Dicts {
  import opened Common

  type Dict<V> = seq<(string, V)>

  predicate DistinctKeys<V>(d: Dict<V>) {
    forall i, j :: 0 <= i < j < |d| ==> d[i].0 != d[j].0
  }

  function KeySet<V>(d: Dict<V>): set<string> {
    set i | 0 <= i < |d| :: d[i].0
  }

  lemma KeySetSnoc<V>(d: Dict<V>, x: (string, V))
    ensures KeySet(d + [x]) == KeySet(d) + {x.0}
  {
    var e := d + [x];
    assert forall i :: 0 <= i < |d| ==> e[i] == d[i];
    assert e[|d|] == x;
  }

  /** The number of items of a dict is the number of its distinct keys. */
  lemma {:induction false} DistinctKeysCard<V>(d: Dict<V>)
    requires DistinctKeys(d)
    ensures |KeySet(d)| == |d|
    decreases |d|
  {
    if d != [] {
      var p := d[..|d| - 1];
      assert d == p + [d[|d| - 1]];
      KeySetSnoc(p, d[|d| - 1]);
      DistinctKeysCard(p);
      assert d[|d| - 1].0 !in KeySet(p);
    }
  }

  /** `d.get(k)`. */
  function Get<V>(d: Dict<V>, k: string): (r: Option<V>)
    ensures r.None? <==> k !in KeySet(d)
    ensures r.Some? ==> (k, r.value) in d
  {
    if d == [] then None
    else if d[0].0 == k then Some(d[0].1)
    else
      assert KeySet(d) == {d[0].0} + KeySet(d[1..]) by {
        forall key | key in KeySet(d) ensures key in {d[0].0} + KeySet(d[1..]) {
          var i :| 0 <= i < |d| && d[i].0 == key;
          if i > 0 { assert d[1..][i - 1].0 == key; }
        }
        forall key | key in KeySet(d[1..]) ensures key in KeySet(d) {
          var i :| 0 <= i < |d[1..]| && d[1..][i].0 == key;
          assert d[i + 1].0 == key;
        }
      }
      Get(d[1..], k)
  }

  /** In a dict with distinct keys, the lookup of a key finds its one item. */
  lemma GetDistinct<V>(d: Dict<V>, i: nat)
    requires DistinctKeys(d) && i < |d|
    ensures Get(d, d[i].0) == Some(d[i].1)
  {
    var r := Get(d, d[i].0);
    assert d[i].0 in KeySet(d);
    var j :| 0 <= j < |d| && d[j] == (d[i].0, r.value);
  }

  /** An item added for another key does not change a lookup. */
  lemma {:induction false} GetSnocOther<V>(d: Dict<V>, x: (string, V), k: string)
    requires x.0 != k
    ensures Get(d + [x], k) == Get(d, k)
    decreases |d|
  {
    if d == [] {
      assert Get([x], k) == Get([x][1..], k);
      assert [x][1..] == [];
    } else if d[0].0 != k {
      assert (d + [x])[1..] == d[1..] + [x];
      GetSnocOther(d[1..], x, k);
    }
  }

  /** `d[k] = v`: an existing key keeps its position and takes the new value,
      a new key is appended. */
  function Put<V>(d: Dict<V>, k: string, v: V): (r: Dict<V>)
    requires DistinctKeys(d)
    ensures DistinctKeys(r)
    ensures KeySet(r) == KeySet(d) + {k}
    ensures k in KeySet(d) ==> |r| == |d| && forall i :: 0 <= i < |d| ==> r[i] == if d[i].0 == k then (k, v) else d[i]
    ensures k !in KeySet(d) ==> r == d + [(k, v)]
  {
    if k in KeySet(d) then
      var r := seq(|d|, i requires 0 <= i < |d| => if d[i].0 == k then (k, v) else d[i]);
      assert forall i :: 0 <= i < |d| ==> r[i].0 == d[i].0;
      assert KeySet(r) == KeySet(d);
      r
    else
      KeySetSnoc(d, (k, v));
      d + [(k, v)]
  }

  /** The first position of `k` in `s`. */
  function FirstIndex(s: seq<string>, k: string): (i: nat)
    requires k in s
    ensures i < |s| && s[i] == k && forall j :: 0 <= j < i ==> s[j] != k
  {
    if s[0] == k then 0 else 1 + FirstIndex(s[1..], k)
  }

  /** The last position of `k` in `s`. */
  function LastIndex(s: seq<string>, k: string): (i: nat)
    requires k in s
    ensures i < |s| && s[i] == k && forall j :: i < j < |s| ==> s[j] != k
  {
    if s[|s| - 1] == k then |s| - 1 else LastIndex(s[..|s| - 1], k)
  }

  lemma IndicesOfPrefix(s: seq<string>, k: string)
    requires |s| > 0 && k in s[..|s| - 1]
    ensures FirstIndex(s, k) == FirstIndex(s[..|s| - 1], k)
    ensures k != s[|s| - 1] ==> LastIndex(s, k) == LastIndex(s[..|s| - 1], k)
  {
    var p := s[..|s| - 1];
    var f, g := FirstIndex(s, k), FirstIndex(p, k);
    assert s[g] == k;
    assert p[f] == k by { assert f <= g; }
    if k != s[|s| - 1] {
      var l, m := LastIndex(s, k), LastIndex(p, k);
      assert s[m] == k;
      assert l < |s| - 1;
      assert p[l] == k;
    }
  }

  /** What the comprehension promises about the items built so far. */
  ghost predicate ComprehensionOf<V>(keys: seq<string>, vals: seq<V>, r: Dict<V>)
    requires |keys| <= |vals|
  {
    && DistinctKeys(r)
    && KeySet(r) == (set k | k in keys)
    && (forall i :: 0 <= i < |r| ==> r[i].0 in keys && r[i].1 == vals[LastIndex(keys, r[i].0)])
    && (forall i, j :: 0 <= i < j < |r| ==> FirstIndex(keys, r[i].0) < FirstIndex(keys, r[j].0))
  }

  /** After one more iteration every item still holds the value at its key's
      last occurrence. */
  lemma ComprehensionValuesStep<V>(keys: seq<string>, vals: seq<V>, d: Dict<V>)
    requires 0 < |keys| <= |vals|
    requires ComprehensionOf(keys[..|keys| - 1], vals, d)
    ensures var r := Put(d, keys[|keys| - 1], vals[|keys| - 1]);
      forall i :: 0 <= i < |r| ==> r[i].0 in keys && r[i].1 == vals[LastIndex(keys, r[i].0)]
  {
    var n := |keys| - 1;
    var r := Put(d, keys[n], vals[n]);
    forall i | 0 <= i < |r|
      ensures r[i].0 in keys && r[i].1 == vals[LastIndex(keys, r[i].0)]
    {
      if r[i].0 != keys[n] {
        assert r[i] == d[i];
        IndicesOfPrefix(keys, r[i].0);
      }
    }
  }

  /** After one more iteration the items are still in first-occurrence order. */
  lemma ComprehensionOrderStep<V>(keys: seq<string>, vals: seq<V>, d: Dict<V>)
    requires 0 < |keys| <= |vals|
    requires ComprehensionOf(keys[..|keys| - 1], vals, d)
    ensures var r := Put(d, keys[|keys| - 1], vals[|keys| - 1]);
      forall i, j :: 0 <= i < j < |r| ==> FirstIndex(keys, r[i].0) < FirstIndex(keys, r[j].0)
  {
    var n := |keys| - 1;
    var p := keys[..n];
    var r := Put(d, keys[n], vals[n]);
    forall i, j | 0 <= i < j < |r|
      ensures FirstIndex(keys, r[i].0) < FirstIndex(keys, r[j].0)
    {
      if keys[n] in KeySet(d) {
        assert r[i].0 == d[i].0 && r[j].0 == d[j].0;
        IndicesOfPrefix(keys, r[i].0);
        IndicesOfPrefix(keys, r[j].0);
      } else {
        IndicesOfPrefix(keys, r[i].0);
        if j < |d| {
          IndicesOfPrefix(keys, r[j].0);
        } else {
          assert r[j].0 == keys[n] && keys[n] !in p;
        }
      }
    }
  }

  /** One more iteration of the comprehension keeps its promise. */
  lemma ComprehensionStep<V>(keys: seq<string>, vals: seq<V>, d: Dict<V>)
    requires 0 < |keys| <= |vals|
    requires ComprehensionOf(keys[..|keys| - 1], vals, d)
    ensures ComprehensionOf(keys, vals, Put(d, keys[|keys| - 1], vals[|keys| - 1]))
  {
    var n := |keys| - 1;
    assert keys == keys[..n] + [keys[n]];
    assert (set k | k in keys) == (set k | k in keys[..n]) + {keys[n]};
    ComprehensionValuesStep(keys, vals, d);
    ComprehensionOrderStep(keys, vals, d);
  }

  /** `{keys[i]: vals[i] for i in range(len(keys))}`: one item per distinct key,
      in the order of each key's first occurrence, holding the value at the
      key's last occurrence (a repeated key overwrites its earlier value). */
  function FromPairs<V>(keys: seq<string>, vals: seq<V>): (r: Dict<V>)
    requires |keys| <= |vals|
    ensures DistinctKeys(r)
    ensures KeySet(r) == set k | k in keys
    ensures forall i :: 0 <= i < |r| ==> r[i].0 in keys && r[i].1 == vals[LastIndex(keys, r[i].0)]
    ensures forall i, j :: 0 <= i < j < |r| ==> FirstIndex(keys, r[i].0) < FirstIndex(keys, r[j].0)
    decreases |keys|
  {
    if keys == [] then []
    else
      var d := FromPairs(keys[..|keys| - 1], vals);
      ComprehensionStep(keys, vals, d);
      Put(d, keys[|keys| - 1], vals[|keys| - 1])
  }

  /** With distinct keys the comprehension keeps every pair, in order. */
  lemma {:induction false} FromPairsDistinct<V>(keys: seq<string>, vals: seq<V>)
    requires |keys| <= |vals|
    requires forall i, j :: 0 <= i < j < |keys| ==> keys[i] != keys[j]
    ensures FromPairs(keys, vals) == seq(|keys|, i requires 0 <= i < |keys| => (keys[i], vals[i]))
    decreases |keys|
  {
    if keys != [] {
      var n := |keys| - 1;
      var p := keys[..n];
      FromPairsDistinct(p, vals);
      var d := FromPairs(p, vals);
      assert keys[n] !in KeySet(d);
    }
  }

  /** Where a key of the comprehension sits, with the value it holds. */
  lemma FromPairsIndex<V>(keys: seq<string>, vals: seq<V>, k: string) returns (p: nat)
    requires |keys| <= |vals| && k in keys
    ensures p < |FromPairs(keys, vals)| && FromPairs(keys, vals)[p] == (k, vals[LastIndex(keys, k)])
  {
    var r := FromPairs(keys, vals);
    assert k in KeySet(r);
    p :| 0 <= p < |r| && r[p].0 == k;
  }

  /** Looking up a key of the comprehension gives the value at its last occurrence. */
  lemma FromPairsGet<V>(keys: seq<string>, vals: seq<V>, k: string)
    requires |keys| <= |vals| && k in keys
    ensures Get(FromPairs(keys, vals), k) == Some(vals[LastIndex(keys, k)])
  {
    var r := FromPairs(keys, vals);
    assert k in KeySet(r);
    var i :| 0 <= i < |r| && r[i].0 == k;
    GetDistinct(r, i);
  }

  /** A dictionary of numbers as the fields of a JSON object, in order. */
  function NumberMap(d: Dict<real>): (fields: seq<(string, Json)>)
    ensures |fields| == |d|
    ensures forall i :: 0 <= i < |d| ==> fields[i] == (d[i].0, JNum(d[i].1))
  {
    seq(|d|, i requires 0 <= i < |d| => (d[i].0, JNum(d[i].1)))
  }
}
