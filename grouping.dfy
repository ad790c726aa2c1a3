/**
 * The collection idioms the detectors are built from: order-preserving
 * filtering (list comprehensions), concatenation of groups (`list.extend`),
 * bucketing by a key in first-occurrence order (a `defaultdict(list)` whose
 * `values()` are read back), and Python's stable `list.sort(key=...)`.
 */
module Grouping {

  /** Concatenation of the groups in order. */
  function Flatten<T>(gs: seq<seq<T>>): seq<T>
  {
    if gs == [] then [] else Flatten(gs[..|gs| - 1]) + gs[|gs| - 1]
  }

  lemma {:induction false} FlattenAppend<T>(a: seq<seq<T>>, b: seq<seq<T>>)
    ensures Flatten(a + b) == Flatten(a) + Flatten(b)
  {
    if b != [] {
      assert (a + b)[..|a + b| - 1] == a + b[..|b| - 1];
      FlattenAppend(a, b[..|b| - 1]);
    } else {
      assert a + b == a;
    }
  }

  lemma FlattenOne<T>(a: seq<seq<T>>, g: seq<T>)
    ensures Flatten(a + [g]) == Flatten(a) + g
  {
    assert (a + [g])[..|a|] == a;
  }

  /** A loop that appends each group passing `p` in turn extends the flattened selection. */
  lemma FlattenWherePrefix<T>(a: seq<seq<T>>, k: nat, p: seq<T> -> bool)
    requires k < |a|
    ensures Flatten(Where(a[..k + 1], p)) == Flatten(Where(a[..k], p)) + if p(a[k]) then a[k] else []
  {
    WhereStep(a, k, p);
    if p(a[k]) {
      FlattenOne(Where(a[..k], p), a[k]);
    } else {
      assert Where(a[..k + 1], p) == Where(a[..k], p);
      assert Flatten(Where(a[..k], p)) + [] == Flatten(Where(a[..k], p));
    }
  }

  /** A one-element sequence holding `x` is `[x]`. */
  lemma Singleton<T>(g: seq<T>, x: T)
    requires |g| == 1 && x in g
    ensures g == [x]
  {
    assert g[0] == x;
  }

  /** A loop that appends each group in turn extends the flattened prefix. */
  lemma FlattenPrefix<T>(a: seq<seq<T>>, k: nat)
    requires k < |a|
    ensures Flatten(a[..k + 1]) == Flatten(a[..k]) + a[k]
  {
    assert a[..k + 1] == a[..k] + [a[k]];
    FlattenOne(a[..k], a[k]);
  }

  /** `x` lies in some group exactly when it lies in the concatenation. */
  lemma {:induction false} FlattenMember<T>(gs: seq<seq<T>>, x: T)
    ensures x in Flatten(gs) <==> exists i :: 0 <= i < |gs| && x in gs[i]
  {
    if gs != [] {
      var n := |gs| - 1;
      FlattenMember(gs[..n], x);
      assert forall i :: 0 <= i < n ==> gs[..n][i] == gs[i];
    }
  }

  /** `[x for x in s if p(x)]`. */
  function Where<T>(s: seq<T>, p: T -> bool): (r: seq<T>)
    ensures |r| <= |s|
  {
    if s == [] then []
    else
      var r0 := Where(s[..|s| - 1], p);
      assert s == s[..|s| - 1] + [s[|s| - 1]];
      if p(s[|s| - 1]) then r0 + [s[|s| - 1]] else r0
  }

  lemma WhereStep<T>(s: seq<T>, i: nat, p: T -> bool)
    requires i < |s|
    ensures Where(s[..i + 1], p) == Where(s[..i], p) + (if p(s[i]) then [s[i]] else [])
  {
    assert s[..i + 1][..i] == s[..i];
  }

  /** The filter keeps exactly the elements that pass. */
  lemma WhereSnoc<T>(s: seq<T>, x: T, p: T -> bool)
    ensures Where(s + [x], p) == Where(s, p) + (if p(x) then [x] else [])
  {
    assert (s + [x])[..|s|] == s;
  }

  /** The conjunction of two tests. */
  function Both<T>(p: T -> bool, q: T -> bool): T -> bool
  {
    x => p(x) && q(x)
  }

  /** Filtering twice is filtering once by both tests. */
  lemma {:induction false} WhereWhere<T>(s: seq<T>, p: T -> bool, q: T -> bool)
    ensures Where(Where(s, p), q) == Where(s, Both(p, q))
  {
    if s != [] {
      var n := |s| - 1;
      assert s == s[..n] + [s[n]];
      WhereWhere(s[..n], p, q);
      WhereSnoc(s[..n], s[n], p);
      WhereSnoc(s[..n], s[n], Both(p, q));
      if p(s[n]) {
        WhereSnoc(Where(s[..n], p), s[n], q);
      }
    }
  }

  /** Tests that agree on every element select the same elements. */
  lemma {:induction false} WhereSame<T>(s: seq<T>, p: T -> bool, q: T -> bool)
    requires forall x :: x in s ==> p(x) == q(x)
    ensures Where(s, p) == Where(s, q)
  {
    if s != [] {
      var n := |s| - 1;
      assert s == s[..n] + [s[n]];
      WhereSame(s[..n], p, q);
      WhereSnoc(s[..n], s[n], p);
      WhereSnoc(s[..n], s[n], q);
    }
  }

  lemma {:induction false} WhereMembers<T>(s: seq<T>, p: T -> bool)
    ensures forall i :: 0 <= i < |Where(s, p)| ==> p(Where(s, p)[i]) && Where(s, p)[i] in s
    ensures forall i :: 0 <= i < |s| && p(s[i]) ==> s[i] in Where(s, p)
  {
    if s != [] {
      var n := |s| - 1;
      WhereMembers(s[..n], p);
      assert forall i :: 0 <= i < n ==> s[..n][i] == s[i];
    }
  }

  /** Filtering a sequence and its complement splits it: nothing lost, nothing added. */
  lemma {:induction false} WhereSplit<T>(s: seq<T>, p: T -> bool)
    ensures multiset(Where(s, p)) + multiset(Where(s, x => !p(x))) == multiset(s)
  {
    if s != [] {
      var n := |s| - 1;
      var q := x => !p(x);
      WhereSplit(s[..n], p);
      assert s == s[..n] + [s[n]];
      if p(s[n]) {
        assert Where(s, p) == Where(s[..n], p) + [s[n]];
        assert Where(s, q) == Where(s[..n], q);
      } else {
        assert Where(s, p) == Where(s[..n], p);
        assert Where(s, q) == Where(s[..n], q) + [s[n]];
      }
    }
  }

  /** The keys of `s` in order of first occurrence (the order of a dict's keys). */
  function Keys<T, K(==)>(s: seq<T>, key: T -> K): (ks: seq<K>)
    ensures forall i, j :: 0 <= i < j < |ks| ==> ks[i] != ks[j]
    ensures forall i :: 0 <= i < |s| ==> key(s[i]) in ks
  {
    if s == [] then []
    else
      var n := |s| - 1;
      var ks := Keys(s[..n], key);
      assert forall i :: 0 <= i < n ==> s[..n][i] == s[i];
      if key(s[n]) in ks then ks else ks + [key(s[n])]
  }

  /** The test "carries key k". */
  function HasKey<T, K(==)>(key: T -> K, k: K): T -> bool
  {
    x => key(x) == k
  }

  function WithKey<T, K(==)>(s: seq<T>, key: T -> K, k: K): seq<T>
  {
    Where(s, HasKey(key, k))
  }

  /** Every selected element carries the key. */
  lemma WithKeyMembers<T, K>(s: seq<T>, key: T -> K, k: K)
    ensures forall x :: x in WithKey(s, key, k) ==> key(x) == k && x in s
  {
    WhereMembers(s, HasKey(key, k));
  }

  /** Every element is selected by its own key. */
  lemma WithKeyContains<T, K>(s: seq<T>, key: T -> K, i: nat)
    requires i < |s|
    ensures s[i] in WithKey(s, key, key(s[i]))
  {
    WhereMembers(s, HasKey(key, key(s[i])));
  }

  /** Every recorded key has at least one element. */
  lemma {:induction false} KeysInhabited<T, K>(s: seq<T>, key: T -> K, k: K)
    requires k in Keys(s, key)
    ensures WithKey(s, key, k) != []
  {
    var n := |s| - 1;
    if k in Keys(s[..n], key) {
      KeysInhabited(s[..n], key, k);
    }
  }

  /** A key that never occurs selects nothing. */
  lemma {:induction false} KeyAbsent<T, K>(s: seq<T>, key: T -> K, k: K)
    requires k !in Keys(s, key)
    ensures WithKey(s, key, k) == []
  {
    if s != [] {
      var n := |s| - 1;
      assert k != key(s[n]);
      KeyAbsent(s[..n], key, k);
    }
  }

  /**
   * `defaultdict(list)` filled by `groups[key(x)].append(x)` and read back as
   * `list(groups.values())`: one group per key, in first-occurrence order,
   * each holding that key's elements in input order.
   */
  function GroupBy<T, K(==)>(s: seq<T>, key: T -> K): seq<seq<T>>
  {
    var ks := Keys(s, key);
    seq(|ks|, i requires 0 <= i < |ks| => WithKey(s, key, ks[i]))
  }

  /** Groups are non-empty, share one key each, have pairwise different keys, and keep input order. */
  lemma GroupByShape<T, K>(s: seq<T>, key: T -> K)
    ensures var gs := GroupBy(s, key);
      && (forall i :: 0 <= i < |gs| ==> gs[i] != [])
      && (forall i, x :: 0 <= i < |gs| && x in gs[i] ==> key(x) == key(gs[i][0]))
      && (forall i, j :: 0 <= i < j < |gs| ==> key(gs[i][0]) != key(gs[j][0]))
      && (forall i :: 0 <= i < |gs| ==> gs[i] == WithKey(s, key, key(gs[i][0])))
  {
    var ks := Keys(s, key);
    var gs := GroupBy(s, key);
    forall i | 0 <= i < |gs|
      ensures gs[i] != [] && key(gs[i][0]) == ks[i]
      ensures forall x :: x in gs[i] ==> key(x) == ks[i]
    {
      KeysInhabited(s, key, ks[i]);
      WithKeyMembers(s, key, ks[i]);
    }
  }

  /** A group that holds x is the group of x's key. */
  lemma GroupOf<T, K>(s: seq<T>, key: T -> K, g: seq<T>, x: T)
    requires g in GroupBy(s, key) && x in g
    ensures g == WithKey(s, key, key(x))
  {
    GroupByShape(s, key);
  }

  /** Every element's key group is one of the groups. */
  lemma GroupFor<T, K>(s: seq<T>, key: T -> K, x: T)
    requires x in s
    ensures x in WithKey(s, key, key(x)) && WithKey(s, key, key(x)) in GroupBy(s, key)
  {
    var i :| 0 <= i < |s| && s[i] == x;
    WithKeyContains(s, key, i);
    var ks := Keys(s, key);
    var j :| 0 <= j < |ks| && ks[j] == key(x);
    assert GroupBy(s, key)[j] == WithKey(s, key, key(x));
  }

  lemma {:induction false} FlattenUpdate<T>(gs: seq<seq<T>>, j: nat, x: T)
    requires j < |gs|
    ensures multiset(Flatten(gs[j := gs[j] + [x]])) == multiset(Flatten(gs)) + multiset{x}
  {
    var n := |gs| - 1;
    var gs' := gs[j := gs[j] + [x]];
    assert Flatten(gs) == Flatten(gs[..n]) + gs[n];
    assert Flatten(gs') == Flatten(gs'[..n]) + gs'[n];
    if j < n {
      assert gs'[..n] == gs[..n][j := gs[j] + [x]];
      FlattenUpdate(gs[..n], j, x);
      assert gs'[n] == gs[n];
    } else {
      assert gs'[..n] == gs[..n];
      assert gs'[n] == gs[n] + [x];
    }
  }

  /** Appending an element whose key is already known extends that key's group. */
  lemma GroupBySnocKnown<T, K>(s: seq<T>, x: T, key: T -> K, j: nat)
    requires j < |Keys(s, key)| && Keys(s, key)[j] == key(x)
    ensures GroupBy(s + [x], key) == GroupBy(s, key)[j := GroupBy(s, key)[j] + [x]]
  {
    KeysSnoc(s, x, key);
    var g, g' := GroupBy(s, key), GroupBy(s + [x], key);
    var ks := Keys(s, key);
    forall i | 0 <= i < |ks| ensures g'[i] == (if i == j then g[i] + [x] else g[i]) {
      WithKeySnoc(s, x, key, ks[i]);
    }
  }

  /** Appending an element with a new key adds a group holding just that element. */
  lemma GroupBySnocNew<T, K>(s: seq<T>, x: T, key: T -> K)
    requires key(x) !in Keys(s, key)
    ensures GroupBy(s + [x], key) == GroupBy(s, key) + [[x]]
  {
    KeysSnoc(s, x, key);
    var g, g' := GroupBy(s, key), GroupBy(s + [x], key);
    var ks := Keys(s, key);
    var ks' := Keys(s + [x], key);
    assert ks' == ks + [key(x)];
    assert |g'| == |g| + 1;
    forall i | 0 <= i < |ks| ensures g'[i] == g[i] {
      assert ks'[i] == ks[i];
      WithKeySnoc(s, x, key, ks[i]);
    }
    WithKeySnoc(s, x, key, key(x));
    KeyAbsent(s, key, key(x));
    assert g'[|ks|] == WithKey(s + [x], key, key(x)) == [x];
  }

  /** Bucketing only rearranges: the groups together hold exactly the input. */
  lemma {:induction false} GroupByPermutes<T, K>(s: seq<T>, key: T -> K)
    ensures multiset(Flatten(GroupBy(s, key))) == multiset(s)
  {
    if s != [] {
      var n := |s| - 1;
      var s0, x := s[..n], s[n];
      assert s == s0 + [x];
      GroupByPermutes(s0, key);
      var ks0 := Keys(s0, key);
      var g0 := GroupBy(s0, key);
      if key(x) in ks0 {
        var j :| 0 <= j < |ks0| && ks0[j] == key(x);
        GroupBySnocKnown(s0, x, key, j);
        FlattenUpdate(g0, j, x);
      } else {
        GroupBySnocNew(s0, x, key);
        FlattenOne(g0, [x]);
      }
    }
  }

  /**
   * The loop behind every `defaultdict(list)` bucketing in the detectors:
   * a list of keys in first-insertion order and a map from key to the
   * elements appended so far.
   */
  method BucketBy<T, K(==,!new)>(s: seq<T>, key: T -> K) returns (groups: seq<seq<T>>)
    ensures groups == GroupBy(s, key)
  {
    var keys: seq<K> := [];
    var buckets: map<K, seq<T>> := map[];
    for i := 0 to |s|
      invariant Bucketed(s[..i], key, keys, buckets)
    {
      assert s[..i + 1] == s[..i] + [s[i]];
      keys, buckets := Append(keys, buckets, s[i], key, s[..i]);
    }
    assert s[..|s|] == s;
    groups := Values(keys, buckets, key, s);
  }

  /**
   * The same bucketing when only the elements passing `p` are appended
   * (`if h: groups[h].append(x)`): the buckets of the filtered sequence.
   */
  method BucketWhere<T, K(==,!new)>(s: seq<T>, p: T -> bool, key: T -> K) returns (groups: seq<seq<T>>)
    ensures groups == GroupBy(Where(s, p), key)
  {
    var keys: seq<K> := [];
    var buckets: map<K, seq<T>> := map[];
    for i := 0 to |s|
      invariant Bucketed(Where(s[..i], p), key, keys, buckets)
    {
      WhereStep(s, i, p);
      if p(s[i]) {
        keys, buckets := Append(keys, buckets, s[i], key, Where(s[..i], p));
      } else {
        assert Where(s[..i + 1], p) == Where(s[..i], p);
      }
    }
    assert s[..|s|] == s;
    groups := Values(keys, buckets, key, Where(s, p));
  }

  /**
   * A bucketing loop that has appended the elements of `w`: the keys in
   * first-insertion order, and for each the elements carrying it.
   */
  ghost predicate Bucketed<T, K(!new)>(w: seq<T>, key: T -> K, keys: seq<K>, buckets: map<K, seq<T>>)
  {
    && keys == Keys(w, key)
    && (forall k :: k in buckets <==> k in keys)
    && (forall k :: k in buckets ==> buckets[k] == WithKey(w, key, k))
  }

  /** `groups[key(x)].append(x)` on a `defaultdict(list)`. */
  method Append<T, K(==,!new)>(keys: seq<K>, buckets: map<K, seq<T>>, x: T, key: T -> K, ghost w: seq<T>)
    returns (keys': seq<K>, buckets': map<K, seq<T>>)
    requires Bucketed(w, key, keys, buckets)
    ensures Bucketed(w + [x], key, keys', buckets')
  {
    var k := key(x);
    KeysSnoc(w, x, key);
    forall k' ensures WithKey(w + [x], key, k') == WithKey(w, key, k') + (if k == k' then [x] else []) {
      WithKeySnoc(w, x, key, k');
    }
    if k in buckets {
      keys', buckets' := keys, buckets[k := buckets[k] + [x]];
    } else {
      KeyAbsent(w, key, k);
      keys', buckets' := keys + [k], buckets[k := [x]];
    }
  }

  /** `list(groups.values())`. */
  method Values<T, K(==,!new)>(keys: seq<K>, buckets: map<K, seq<T>>, key: T -> K, ghost w: seq<T>) returns (groups: seq<seq<T>>)
    requires Bucketed(w, key, keys, buckets)
    ensures groups == GroupBy(w, key)
  {
    groups := seq(|keys|, j requires 0 <= j < |keys| => buckets[keys[j]]);
  }

  lemma KeysSnoc<T, K>(w: seq<T>, x: T, key: T -> K)
    ensures Keys(w + [x], key) == if key(x) in Keys(w, key) then Keys(w, key) else Keys(w, key) + [key(x)]
  {
    assert (w + [x])[..|w|] == w;
  }

  lemma WithKeySnoc<T, K>(w: seq<T>, x: T, key: T -> K, k: K)
    ensures WithKey(w + [x], key, k) == WithKey(w, key, k) + (if key(x) == k then [x] else [])
  {
    WhereStep(w + [x], |w|, y => key(y) == k);
    assert (w + [x])[..|w|] == w;
    assert (w + [x])[..|w| + 1] == w + [x];
  }

  /** Two positions passing both filters leave at least two elements after filtering twice. */
  lemma {:induction false} WhereTwice<T>(s: seq<T>, p: T -> bool, q: T -> bool, i: nat, j: nat)
    requires i < j < |s| && p(s[i]) && q(s[i]) && p(s[j]) && q(s[j])
    ensures |Where(Where(s, p), q)| >= 2
  {
    var n := |s| - 1;
    var w := Where(s[..n], p);
    assert s[..n + 1] == s;
    WhereStep(s, n, p);
    if j < n {
      WhereTwice(s[..n], p, q, i, j);
      if p(s[n]) {
        WhereStep(w + [s[n]], |w|, q);
        assert (w + [s[n]])[..|w|] == w;
      }
    } else {
      WhereOnce(s[..n], p, q, i);
      WhereStep(w + [s[n]], |w|, q);
      assert (w + [s[n]])[..|w|] == w;
    }
  }

  lemma {:induction false} WhereOnce<T>(s: seq<T>, p: T -> bool, q: T -> bool, i: nat)
    requires i < |s| && p(s[i]) && q(s[i])
    ensures |Where(Where(s, p), q)| >= 1
  {
    var n := |s| - 1;
    var w := Where(s[..n], p);
    assert s[..n + 1] == s;
    WhereStep(s, n, p);
    if i < n {
      WhereOnce(s[..n], p, q, i);
      if p(s[n]) {
        WhereStep(w + [s[n]], |w|, q);
        assert (w + [s[n]])[..|w|] == w;
      }
    } else {
      WhereStep(w + [s[n]], |w|, q);
      assert (w + [s[n]])[..|w|] == w;
    }
  }

  /** Inserts `x` into key-sorted `s` after every element whose key is not larger. */
  function InsertByKey<T>(x: T, s: seq<T>, key: T -> real): (r: seq<T>)
    ensures multiset(r) == multiset(s) + multiset{x}
    ensures |r| == |s| + 1
  {
    if s == [] then [x]
    else if key(x) < key(s[0]) then [x] + s
    else
      assert s == [s[0]] + s[1..];
      [s[0]] + InsertByKey(x, s[1..], key)
  }

  ghost predicate SortedByKey<T>(s: seq<T>, key: T -> real)
  {
    forall i, j :: 0 <= i < j < |s| ==> key(s[i]) <= key(s[j])
  }

  lemma {:induction false} InsertSorted<T>(x: T, s: seq<T>, key: T -> real)
    requires SortedByKey(s, key)
    ensures SortedByKey(InsertByKey(x, s, key), key)
    ensures forall y :: y in InsertByKey(x, s, key) ==> y == x || y in s
  {
    if s == [] {
    } else if key(x) < key(s[0]) {
      ConsSorted(x, s, key);
    } else {
      var t := s[1..];
      assert SortedByKey(t, key) by {
        forall i, j | 0 <= i < j < |t| ensures key(t[i]) <= key(t[j]) {
          assert t[i] == s[i + 1] && t[j] == s[j + 1];
        }
      }
      InsertSorted(x, t, key);
      var rest := InsertByKey(x, t, key);
      forall y | y in rest ensures key(s[0]) <= key(y) {
        if y != x {
          var k :| 0 <= k < |t| && t[k] == y;
          assert t[k] == s[k + 1];
        }
      }
      ConsSorted(s[0], rest, key);
      assert InsertByKey(x, s, key) == [s[0]] + rest;
    }
  }

  /** A key-sorted sequence stays sorted behind an element with a key no larger than any of its own. */
  lemma ConsSorted<T>(h: T, s: seq<T>, key: T -> real)
    requires SortedByKey(s, key)
    requires forall y :: y in s ==> key(h) <= key(y)
    ensures SortedByKey([h] + s, key)
  {
    var r := [h] + s;
    forall i, j | 0 <= i < j < |r| ensures key(r[i]) <= key(r[j]) {
      assert r[j] == s[j - 1];
      if i > 0 {
        assert r[i] == s[i - 1];
      }
    }
  }

  /**
   * Python's stable `sort(key=...)` (ascending). A `reverse=True` sort is this
   * sort on the negated key, which is how CPython keeps it stable.
   */
  function SortByKey<T>(s: seq<T>, key: T -> real): (r: seq<T>)
    ensures multiset(r) == multiset(s)
    ensures |r| == |s|
  {
    if s == [] then []
    else
      assert s == s[..|s| - 1] + [s[|s| - 1]];
      InsertByKey(s[|s| - 1], SortByKey(s[..|s| - 1], key), key)
  }

  /** The sort does order its result by the key. */
  lemma {:induction false} SortByKeySorted<T>(s: seq<T>, key: T -> real)
    ensures SortedByKey(SortByKey(s, key), key)
  {
    if s != [] {
      SortByKeySorted(s[..|s| - 1], key);
      InsertSorted(s[|s| - 1], SortByKey(s[..|s| - 1], key), key);
    }
  }
}
