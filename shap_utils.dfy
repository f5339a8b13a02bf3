/** `top_shap_for_row`: the attribution map of one row, reduced to the `topk`
    entries of largest magnitude. The explainer itself is a foreign library;
    its output for the row is an input here (`None` when it raised). */
module ShapUtils {
  import opened Common
  import opened Dicts

  /** The `topk` the tabular endpoint passes, and the parameter's default. */
  const DefaultTopK: nat := 6

  /** Items in non-increasing order of absolute value. */
  predicate ByMagnitude(s: Dict<real>) {
    forall i, j :: 0 <= i < j < |s| ==> Abs(s[i].1) >= Abs(s[j].1)
  }

  /** The items of `s` whose value has magnitude `a`, in their order in `s`. */
  function Ties(s: Dict<real>, a: real): Dict<real> {
    if s == [] then [] else (if Abs(s[0].1) == a then [s[0]] else []) + Ties(s[1..], a)
  }

  lemma {:induction false} TiesConcat(p: Dict<real>, q: Dict<real>, a: real)
    ensures Ties(p + q, a) == Ties(p, a) + Ties(q, a)
    decreases |p|
  {
    if p == [] {
      assert p + q == q;
    } else {
      var s, head := p + q, if Abs(p[0].1) == a then [p[0]] else [];
      assert s[0] == p[0] && s[1..] == p[1..] + q;
      assert Ties(s, a) == head + Ties(p[1..] + q, a);
      TiesConcat(p[1..], q, a);
      assert Ties(p, a) == head + Ties(p[1..], a);
      assert head + (Ties(p[1..], a) + Ties(q, a)) == (head + Ties(p[1..], a)) + Ties(q, a);
    }
  }

  /** Places `x` in front of the first item of `t` whose magnitude does not
      exceed its own: one step of a stable sort of `[x] + t`. */
  function Insert(x: (string, real), t: Dict<real>): (r: Dict<real>)
    requires ByMagnitude(t)
    ensures ByMagnitude(r)
    ensures multiset(r) == multiset([x] + t)
    ensures forall a :: Ties(r, a) == Ties([x] + t, a)
    decreases |t|
  {
    if t == [] || Abs(x.1) >= Abs(t[0].1) then [x] + t
    else
      var rest := Insert(x, t[1..]);
      InsertBehind(x, t, rest);
      [t[0]] + rest
  }

  /** The recursive case of `Insert`: `x` goes behind the head of `t`. */
  lemma InsertBehind(x: (string, real), t: Dict<real>, rest: Dict<real>)
    requires ByMagnitude(t) && t != [] && Abs(x.1) < Abs(t[0].1)
    requires ByMagnitude(rest) && multiset(rest) == multiset([x] + t[1..])
    requires forall a :: Ties(rest, a) == Ties([x] + t[1..], a)
    ensures ByMagnitude([t[0]] + rest)
    ensures multiset([t[0]] + rest) == multiset([x] + t)
    ensures forall a :: Ties([t[0]] + rest, a) == Ties([x] + t, a)
  {
    assert t == [t[0]] + t[1..];
    InsertBehindSorted(x, t, rest);
    forall a ensures Ties([t[0]] + rest, a) == Ties([x] + t, a) {
      InsertBehindTies(x, t, rest, a);
    }
  }

  lemma InsertBehindSorted(x: (string, real), t: Dict<real>, rest: Dict<real>)
    requires ByMagnitude(t) && t != [] && Abs(x.1) < Abs(t[0].1)
    requires ByMagnitude(rest) && multiset(rest) == multiset([x] + t[1..])
    ensures ByMagnitude([t[0]] + rest)
  {
    forall j | 0 <= j < |rest| ensures Abs(t[0].1) >= Abs(rest[j].1) {
      assert rest[j] in multiset([x] + t[1..]);
      if rest[j] != x {
        assert rest[j] in t[1..];
        var k :| 0 <= k < |t[1..]| && t[1..][k] == rest[j];
        assert t[k + 1] == rest[j];
      }
    }
    var r := [t[0]] + rest;
    forall i, j | 0 <= i < j < |r| ensures Abs(r[i].1) >= Abs(r[j].1) {
      assert r[j] == rest[j - 1];
      if i > 0 { assert r[i] == rest[i - 1]; }
    }
  }

  lemma InsertBehindTies(x: (string, real), t: Dict<real>, rest: Dict<real>, a: real)
    requires t != [] && Abs(x.1) < Abs(t[0].1)
    requires Ties(rest, a) == Ties([x] + t[1..], a)
    ensures Ties([t[0]] + rest, a) == Ties([x] + t, a)
  {
    assert ([t[0]] + rest)[1..] == rest;
    assert ([x] + t)[1..] == t;
    assert ([x] + t[1..])[1..] == t[1..];
  }

  /** `sorted(items, key=lambda kv: abs(kv[1]), reverse=True)`: Python's sort is
      stable and stays stable under `reverse=True`, so items of equal magnitude
      keep their relative order. */
  function SortByMagnitude(d: Dict<real>): (r: Dict<real>)
    ensures ByMagnitude(r)
    ensures multiset(r) == multiset(d)
    ensures forall a :: Ties(r, a) == Ties(d, a)
  {
    if d == [] then []
    else
      assert d == [d[0]] + d[1..];
      Insert(d[0], SortByMagnitude(d[1..]))
  }

  /** The map `{cols[i]: values[i]}` the explainer's output is turned into. */
  function ShapMap(cols: seq<string>, values: seq<real>): Dict<real>
    requires |cols| <= |values|
  {
    FromPairs(cols, values)
  }

  /** `top_shap_for_row(pipeline, cols, row, topk)`, given what the explainer
      returned for the row. An explainer failure, or fewer values than columns
      (an IndexError inside the `try`), gives the empty map. */
  function TopShap(cols: seq<string>, values: Option<seq<real>>, topk: nat): (r: Dict<real>)
    ensures |r| <= topk
    ensures values.None? || |values.value| < |cols| ==> r == []
    ensures values.Some? && |values.value| >= |cols| ==> |r| == Min(topk, |set c | c in cols|)
  {
    if values.None? || |values.value| < |cols| then []
    else
      var m := ShapMap(cols, values.value);
      var s := SortByMagnitude(m);
      assert |s| == |m| by { assert |multiset(s)| == |multiset(m)|; }
      DistinctKeysCard(m);
      s[..Min(topk, |s|)]
  }

  /** The entries come in non-increasing order of absolute value. */
  lemma TopShapByMagnitude(cols: seq<string>, values: Option<seq<real>>, topk: nat)
    ensures ByMagnitude(TopShap(cols, values, topk))
  {
    if values.Some? && |values.value| >= |cols| {
      var s := SortByMagnitude(ShapMap(cols, values.value));
      assert TopShap(cols, values, topk) == s[..Min(topk, |s|)];
    }
  }

  /** In a dict no item occurs twice. */
  lemma {:induction false} DistinctKeysCount(m: Dict<real>)
    requires DistinctKeys(m)
    ensures forall x :: multiset(m)[x] <= 1
    decreases |m|
  {
    if m != [] {
      var p := m[..|m| - 1];
      assert m == p + [m[|m| - 1]];
      DistinctKeysCount(p);
      forall k | 0 <= k < |p| ensures p[k] != m[|m| - 1] {
        assert p[k].0 == m[k].0;
      }
      assert m[|m| - 1] !in multiset(p);
    }
  }

  lemma CountOfRepeat(s: Dict<real>, i: nat, j: nat)
    requires i < j < |s| && s[i] == s[j]
    ensures multiset(s)[s[i]] >= 2
  {
    assert s == s[..i] + [s[i]] + s[i + 1..j] + [s[j]] + s[j + 1..];
  }

  /** In a permutation of a dict, as in the dict, keys are distinct. */
  lemma PermutationKeysDistinct(m: Dict<real>, s: Dict<real>)
    requires DistinctKeys(m) && multiset(s) == multiset(m)
    ensures DistinctKeys(s)
  {
    DistinctKeysCount(m);
    forall i, j | 0 <= i < j < |s| ensures s[i].0 != s[j].0 {
      if s[i] == s[j] { CountOfRepeat(s, i, j); }
      assert s[i] in multiset(m) && s[j] in multiset(m);
      var p :| 0 <= p < |m| && m[p] == s[i];
      var q :| 0 <= q < |m| && m[q] == s[j];
    }
  }

  /** The result is a dict: every column appears at most once. */
  lemma TopShapDistinctKeys(cols: seq<string>, values: Option<seq<real>>, topk: nat)
    ensures DistinctKeys(TopShap(cols, values, topk))
  {
    if values.Some? && |values.value| >= |cols| {
      var m := ShapMap(cols, values.value);
      var s := SortByMagnitude(m);
      PermutationKeysDistinct(m, s);
      assert TopShap(cols, values, topk) == s[..Min(topk, |s|)];
    }
  }

  /** Every returned entry is a column of `cols` with the explainer's value at
      that column's index (the last one, if the column is listed twice). */
  lemma TopShapValues(cols: seq<string>, values: Option<seq<real>>, topk: nat)
    requires values.Some? && |values.value| >= |cols|
    ensures forall i :: 0 <= i < |TopShap(cols, values, topk)| ==>
      var e := TopShap(cols, values, topk)[i];
      e.0 in cols && e.1 == values.value[LastIndex(cols, e.0)]
  {
    var m := ShapMap(cols, values.value);
    var s := SortByMagnitude(m);
    var r := TopShap(cols, values, topk);
    assert r == s[..Min(topk, |s|)];
    forall i | 0 <= i < |r|
      ensures r[i].0 in cols && r[i].1 == values.value[LastIndex(cols, r[i].0)]
    {
      assert r[i] == s[i];
      assert s[i] in multiset(m);
      var p :| 0 <= p < |m| && m[p] == s[i];
    }
  }

  lemma SortLength(m: Dict<real>)
    ensures |SortByMagnitude(m)| == |m|
  {
    assert |multiset(SortByMagnitude(m))| == |multiset(m)|;
  }

  lemma SortKeepsItem(m: Dict<real>, p: nat)
    requires p < |m|
    ensures m[p] in SortByMagnitude(m)
  {
    assert m[p] in multiset(m);
  }

  /** An item of `m` whose key is not among the first `k` items of the sorted
      form of `m` is no larger in magnitude than each of those `k`. */
  lemma SortedHeadDominates(m: Dict<real>, k: nat, p: nat)
    requires p < |m|
    requires forall i :: 0 <= i < Min(k, |m|) ==> SortByMagnitude(m)[i].0 != m[p].0
    ensures |SortByMagnitude(m)| == |m|
    ensures forall i :: 0 <= i < Min(k, |m|) ==> Abs(m[p].1) <= Abs(SortByMagnitude(m)[i].1)
  {
    SortLength(m);
    SortKeepsItem(m, p);
    var s := SortByMagnitude(m);
    var q :| 0 <= q < |s| && s[q] == m[p];
    assert q >= Min(k, |m|);
  }

  /** The same, stated of the head itself. */
  lemma HeadOmitted(m: Dict<real>, k: nat, p: nat, r: Dict<real>)
    requires p < |m|
    requires var s := SortByMagnitude(m); r == s[..Min(k, |s|)]
    requires forall i :: 0 <= i < |r| ==> r[i].0 != m[p].0
    ensures forall i :: 0 <= i < |r| ==> Abs(m[p].1) <= Abs(r[i].1)
  {
    var s := SortByMagnitude(m);
    SortLength(m);
    forall i | 0 <= i < Min(k, |m|) ensures s[i].0 != m[p].0 {
      assert s[i] == r[i];
    }
    SortedHeadDominates(m, k, p);
    forall i | 0 <= i < |r| ensures Abs(m[p].1) <= Abs(r[i].1) {
      assert s[i] == r[i];
    }
  }

  /** The ties kept in the first `k` items of the sorted form of `m` are the
      first ties of `m` itself. */
  lemma SortedHeadTies(m: Dict<real>, k: nat, a: real)
    ensures var s := SortByMagnitude(m); Ties(s[..Min(k, |s|)], a) <= Ties(m, a)
  {
    var s := SortByMagnitude(m);
    var h := Min(k, |s|);
    var p, q := s[..h], s[h..];
    assert s == p + q;
    TiesConcat(p, q, a);
  }

  /** A column left out of the result has a magnitude no larger than that of any
      entry kept. */
  lemma TopShapOmittedAreSmaller(cols: seq<string>, values: Option<seq<real>>, topk: nat, c: string)
    requires values.Some? && |values.value| >= |cols|
    requires c in cols
    requires forall i :: 0 <= i < |TopShap(cols, values, topk)| ==> TopShap(cols, values, topk)[i].0 != c
    ensures forall i :: 0 <= i < |TopShap(cols, values, topk)| ==>
      Abs(values.value[LastIndex(cols, c)]) <= Abs(TopShap(cols, values, topk)[i].1)
  {
    TopShapIsPrefix(cols, values, topk);
    var p := FromPairsIndex(cols, values.value, c);
    HeadOmitted(ShapMap(cols, values.value), topk, p, TopShap(cols, values, topk));
  }

  /** Among entries of equal magnitude, the ones kept are the first columns of
      the map with that magnitude, in column order: the kept ties form a prefix
      of the map's ties. The map's items are in the order of each column's
      first occurrence in `cols`. */
  lemma TopShapTiesInColumnOrder(cols: seq<string>, values: Option<seq<real>>, topk: nat, a: real)
    requires values.Some? && |values.value| >= |cols|
    ensures Ties(TopShap(cols, values, topk), a) <= Ties(ShapMap(cols, values.value), a)
  {
    TopShapIsPrefix(cols, values, topk);
    SortedHeadTies(ShapMap(cols, values.value), topk, a);
  }

  /** Past the error cases, the result is the head of the sorted map. */
  lemma TopShapIsPrefix(cols: seq<string>, values: Option<seq<real>>, topk: nat)
    requires values.Some? && |values.value| >= |cols|
    ensures var s := SortByMagnitude(ShapMap(cols, values.value));
      TopShap(cols, values, topk) == s[..Min(topk, |s|)]
  {
  }
}
