/** Python's `collections.Counter` as the aggregation uses it: a dict from
    key to count whose keys keep the order in which they were first counted,
    `c[k] += 1` (a missing key counts as 0), `Counter(iterable)`, and
    `most_common(n)`. A dict is an association list with distinct keys in
    insertion order. */
module Counters {
  import opened Wrappers

  /** A `Counter`: (key, count) pairs in insertion order. */
  type Counter<K> = seq<(K, nat)>

  function Keys<K, V>(l: seq<(K, V)>): (r: seq<K>)
    ensures |r| == |l| && forall i :: 0 <= i < |l| ==> r[i] == l[i].0
  {
    seq(|l|, i requires 0 <= i < |l| => l[i].0)
  }

  predicate DistinctKeys<K(==), V>(l: seq<(K, V)>)
  {
    forall i, j :: 0 <= i < j < |l| ==> l[i].0 != l[j].0
  }

  /** The position of `k` in `ks`: the first one, or `None` when absent. */
  function IndexOf<K(==)>(ks: seq<K>, k: K): (r: Option<nat>)
    ensures r.None? <==> k !in ks
    ensures r.Some? ==> r.value < |ks| && ks[r.value] == k && forall j :: 0 <= j < r.value ==> ks[j] != k
  {
    if |ks| == 0 then None
    else if ks[0] == k then Some(0)
    else match IndexOf(ks[1..], k)
      case None => None
      case Some(i) => Some(i + 1)
  }

  lemma IndexOfUnique<K>(ks: seq<K>, k: K, p: nat)
    requires p < |ks| && ks[p] == k && forall j :: 0 <= j < p ==> ks[j] != k
    ensures IndexOf(ks, k) == Some(p)
  {
    assert k in ks;
  }

  /** `c[k]` on a `Counter`: 0 for a key never counted. */
  function Get<K(==)>(c: Counter<K>, k: K): nat
  {
    match IndexOf(Keys(c), k)
    case None => 0
    case Some(i) => c[i].1
  }

  /** `c[k] += 1`: an existing key keeps its place, a new one goes last. */
  function Bump<K(==)>(c: Counter<K>, k: K): Counter<K>
  {
    if |c| == 0 then [(k, 1)]
    else if c[0].0 == k then [(k, c[0].1 + 1)] + c[1..]
    else [c[0]] + Bump(c[1..], k)
  }

  /** The update in place: the entry at the key's position gains one, or a
      new entry `(k, 1)` is appended. */
  lemma {:induction false} BumpAt<K>(c: Counter<K>, k: K)
    ensures IndexOf(Keys(c), k).None? ==> Bump(c, k) == c + [(k, 1)]
    ensures IndexOf(Keys(c), k).Some? ==>
      var i := IndexOf(Keys(c), k).value; Bump(c, k) == c[i := (k, c[i].1 + 1)]
  {
    if IndexOf(Keys(c), k).None? {
      BumpNew(c, k);
    } else {
      BumpOld(c, k, IndexOf(Keys(c), k).value);
    }
  }

  lemma {:induction false} BumpNew<K>(c: Counter<K>, k: K)
    requires IndexOf(Keys(c), k).None?
    ensures Bump(c, k) == c + [(k, 1)]
  {
    if |c| > 0 {
      var t := c[1..];
      assert Keys(t) == Keys(c)[1..];
      BumpNew(t, k);
      assert [c[0]] + (t + [(k, 1)]) == c + [(k, 1)];
    }
  }

  /** Updating past the head of a sequence updates its tail. */
  lemma ConsUpdate<T>(s: seq<T>, i: nat, x: T)
    requires 0 < i < |s|
    ensures [s[0]] + s[1..][i - 1 := x] == s[i := x]
  {
  }

  lemma {:induction false} BumpOld<K>(c: Counter<K>, k: K, i: nat)
    requires IndexOf(Keys(c), k) == Some(i)
    ensures Bump(c, k) == c[i := (k, c[i].1 + 1)]
  {
    if c[0].0 == k {
      assert [(k, c[0].1 + 1)] + c[1..] == c[0 := (k, c[0].1 + 1)];
    } else {
      var t := c[1..];
      assert Keys(t) == Keys(c)[1..];
      BumpOld(t, k, i - 1);
      ConsUpdate(c, i, (k, c[i].1 + 1));
    }
  }

  lemma BumpKeys<K>(c: Counter<K>, k: K)
    ensures Keys(Bump(c, k)) == if k in Keys(c) then Keys(c) else Keys(c) + [k]
  {
    BumpAt(c, k);
  }

  /** `sum(c.values())`. */
  function Total<K>(c: Counter<K>): nat
  {
    if |c| == 0 then 0 else Total(c[..|c| - 1]) + c[|c| - 1].1
  }

  /** `Counter(ks)`: every element of `ks` counted in turn. */
  function Count<K(==)>(ks: seq<K>): Counter<K>
  {
    if |ks| == 0 then [] else Bump(Count(ks[..|ks| - 1]), ks[|ks| - 1])
  }

  lemma {:induction false} TotalUpdate<K>(c: Counter<K>, i: nat, e: (K, nat))
    requires i < |c|
    ensures Total(c[i := e]) == Total(c) - c[i].1 + e.1
  {
    var n := |c| - 1;
    if i < n {
      assert c[i := e][..n] == c[..n][i := e];
      TotalUpdate(c[..n], i, e);
    } else {
      assert c[i := e][..n] == c[..n];
    }
  }

  lemma BumpTotal<K>(c: Counter<K>, k: K)
    ensures Total(Bump(c, k)) == Total(c) + 1
  {
    BumpAt(c, k);
    match IndexOf(Keys(c), k)
    case None =>
      assert (c + [(k, 1)])[..|c|] == c;
    case Some(i) =>
      TotalUpdate(c, i, (k, c[i].1 + 1));
  }

  /** Counting `ks` adds up to one per element. */
  lemma {:induction false} CountTotal<K>(ks: seq<K>)
    ensures Total(Count(ks)) == |ks|
  {
    if |ks| > 0 {
      CountTotal(ks[..|ks| - 1]);
      BumpTotal(Count(ks[..|ks| - 1]), ks[|ks| - 1]);
    }
  }

  lemma GetBump<K>(c: Counter<K>, k: K, j: K)
    ensures Get(Bump(c, k), j) == Get(c, j) + if j == k then 1 else 0
  {
    var r := Bump(c, k);
    BumpAt(c, k);
    BumpKeys(c, k);
    match IndexOf(Keys(c), k)
    case Some(i) =>
      assert Keys(r) == Keys(c);
    case None =>
      assert Keys(r) == Keys(c) + [k];
      assert Keys(r)[..|c|] == Keys(c);
      var p := IndexOf(Keys(c), j);
      if p.Some? {
        IndexOfUnique(Keys(r), j, p.value);
      } else if j == k {
        IndexOfUnique(Keys(r), j, |c|);
      } else {
        assert j !in Keys(r);
      }
  }

  /** Each key's count is its number of occurrences. */
  lemma {:induction false} CountGet<K>(ks: seq<K>, k: K)
    ensures Get(Count(ks), k) == multiset(ks)[k]
  {
    if |ks| > 0 {
      var n := |ks| - 1;
      assert ks == ks[..n] + [ks[n]];
      CountGet(ks[..n], k);
      GetBump(Count(ks[..n]), ks[n], k);
    }
  }

  /** The keys of `Counter(ks)` are the distinct elements of `ks`, each with
      a positive count. */
  lemma {:induction false} CountShape<K>(ks: seq<K>)
    ensures DistinctKeys(Count(ks))
    ensures forall k :: k in Keys(Count(ks)) <==> k in ks
    ensures forall i :: 0 <= i < |Count(ks)| ==> Count(ks)[i].1 > 0
  {
    if |ks| > 0 {
      var n := |ks| - 1;
      var c := Count(ks[..n]);
      CountShape(ks[..n]);
      assert ks == ks[..n] + [ks[n]];
      var k := ks[n];
      var r := Bump(c, k);
      BumpAt(c, k);
      BumpKeys(c, k);
      assert Keys(r) == if k in Keys(c) then Keys(c) else Keys(c) + [k];
      forall i, j | 0 <= i < j < |r| ensures r[i].0 != r[j].0 {
        assert r[i].0 == Keys(r)[i] && r[j].0 == Keys(r)[j];
        if j < |c| {
          assert c[i].0 == Keys(c)[i] && c[j].0 == Keys(c)[j];
        } else {
          assert Keys(c)[i] in Keys(c);
        }
      }
    }
  }

  /** Keys are listed in the order of their first occurrence in `ks`:
      wherever a later key occurs, every earlier key has already occurred. */
  predicate FirstOccurrenceOrder<K(==)>(c: Counter<K>, ks: seq<K>)
  {
    forall i, j, q :: 0 <= i < j < |c| && 0 <= q < |ks| && ks[q] == c[j].0 ==> c[i].0 in ks[..q]
  }

  lemma FirstOccurrenceAt<K>(c: Counter<K>, ks: seq<K>, i: nat, j: nat, q: nat)
    requires FirstOccurrenceOrder(c, ks)
    requires i < j < |c| && q < |ks| && ks[q] == c[j].0
    ensures c[i].0 in ks[..q]
  {
  }

  /** Counting a key seen before keeps the keys and their order. */
  lemma FirstOccurrenceKeep<K>(c0: Counter<K>, c: Counter<K>, ks0: seq<K>, k: K)
    requires FirstOccurrenceOrder(c0, ks0) && k in ks0
    requires |c| == |c0| && forall i :: 0 <= i < |c| ==> c[i].0 == c0[i].0
    ensures FirstOccurrenceOrder(c, ks0 + [k])
  {
    var ks := ks0 + [k];
    var n := |ks0|;
    forall i, j, q | 0 <= i < j < |c| && 0 <= q < |ks| && ks[q] == c[j].0
      ensures c[i].0 in ks[..q]
    {
      if q < n {
        assert ks0[q] == ks[q];
        FirstOccurrenceAt(c0, ks0, i, j, q);
        assert ks0[..q] == ks[..q];
      } else {
        var q' :| 0 <= q' < n && ks0[q'] == k;
        FirstOccurrenceAt(c0, ks0, i, j, q');
        var w :| 0 <= w < q' && ks0[..q'][w] == c[i].0;
        assert ks[..q][w] == c[i].0;
      }
    }
  }

  /** Counting a new key appends it after every key seen before. */
  lemma FirstOccurrenceAppend<K>(c0: Counter<K>, ks0: seq<K>, k: K, e: nat)
    requires FirstOccurrenceOrder(c0, ks0) && k !in ks0
    requires forall i :: 0 <= i < |c0| ==> c0[i].0 in ks0
    ensures FirstOccurrenceOrder(c0 + [(k, e)], ks0 + [k])
  {
    var c := c0 + [(k, e)];
    var ks := ks0 + [k];
    var n := |ks0|;
    forall i, j, q | 0 <= i < j < |c| && 0 <= q < |ks| && ks[q] == c[j].0
      ensures c[i].0 in ks[..q]
    {
      assert c[i] == c0[i];
      if j < |c0| {
        assert c[j] == c0[j];
        assert c0[j].0 in ks0;
        assert q < n;
        assert ks0[q] == ks[q];
        FirstOccurrenceAt(c0, ks0, i, j, q);
        assert ks0[..q] == ks[..q];
      } else {
        assert forall q' :: 0 <= q' < n ==> ks[q'] == ks0[q'];
        assert q == n;
        assert ks[..q] == ks0;
      }
    }
  }

  lemma {:induction false} CountFirstOccurrence<K>(ks: seq<K>)
    ensures FirstOccurrenceOrder(Count(ks), ks)
  {
    if |ks| > 0 {
      var n := |ks| - 1;
      var ks0 := ks[..n];
      var c0 := Count(ks0);
      var k := ks[n];
      assert ks == ks0 + [k];
      CountFirstOccurrence(ks0);
      CountShape(ks0);
      match IndexOf(Keys(c0), k)
      case Some(p) =>
        BumpOld(c0, k, p);
        FirstOccurrenceKeep(c0, Count(ks), ks0, k);
      case None =>
        BumpNew(c0, k);
        forall i | 0 <= i < |c0| ensures c0[i].0 in ks0 {
          assert c0[i].0 == Keys(c0)[i];
        }
        FirstOccurrenceAppend(c0, ks0, k, 1);
    }
  }

  /** The position of the first entry with the largest count. */
  function FirstMax<K>(c: Counter<K>): (m: nat)
    requires |c| > 0
    ensures m < |c|
    ensures forall i :: 0 <= i < |c| ==> c[i].1 <= c[m].1
    ensures forall i :: 0 <= i < m ==> c[i].1 < c[m].1
  {
    if |c| == 1 then 0
    else
      var m := FirstMax(c[1..]);
      if c[0].1 >= c[m + 1].1 then 0 else m + 1
  }

  function Without<T>(s: seq<T>, i: nat): (r: seq<T>)
    requires i < |s|
    ensures |r| == |s| - 1
    ensures multiset(r) + multiset{s[i]} == multiset(s)
  {
    assert s == s[..i] + [s[i]] + s[i + 1..];
    s[..i] + s[i + 1..]
  }

  lemma WithoutIndex<T>(s: seq<T>, i: nat)
    requires i < |s|
    ensures forall k :: 0 <= k < |s| && k != i ==> s[k] == Without(s, i)[if k < i then k else k - 1]
    ensures forall x :: x in Without(s, i) ==> x in s
  {
    forall x | x in Without(s, i) ensures x in s {
      assert x in multiset(Without(s, i));
    }
  }

  lemma WithoutDistinct<K, V>(l: seq<(K, V)>, i: nat)
    requires i < |l| && DistinctKeys(l)
    ensures DistinctKeys(Without(l, i))
  {
    var r := Without(l, i);
    forall a, b | 0 <= a < b < |r| ensures r[a].0 != r[b].0 {
      var a' := if a < i then a else a + 1;
      var b' := if b < i then b else b + 1;
      assert r[a] == l[a'] && r[b] == l[b'];
    }
  }

  lemma WithoutKey<K, V>(l: seq<(K, V)>, i: nat)
    requires i < |l| && DistinctKeys(l)
    ensures forall x :: x in Without(l, i) ==> x.0 != l[i].0
  {
    var r := Without(l, i);
    forall x | x in r ensures x.0 != l[i].0 {
      var p :| 0 <= p < |r| && r[p] == x;
      assert x == l[if p < i then p else p + 1];
    }
  }

  /** `c.most_common(n)`: the `n` entries with the largest counts, largest
      first. Python documents it as equal to `sorted(c.items(),
      key=count, reverse=True)[:n]`, and that sort is stable, so equal counts keep their
      insertion order; taking the first largest entry `n` times is the same
      selection. */
  function MostCommon<K(==)>(c: Counter<K>, n: nat): (r: Counter<K>)
    ensures |r| == if n < |c| then n else |c|
    ensures multiset(r) <= multiset(c)
    decreases n
  {
    if n == 0 || |c| == 0 then []
    else
      var m := FirstMax(c);
      [c[m]] + MostCommon(Without(c, m), n - 1)
  }

  /** Counts do not increase along `r`. */
  predicate Descending<K>(r: Counter<K>)
  {
    forall i, j :: 0 <= i < j < |r| ==> r[i].1 >= r[j].1
  }

  /** No entry of `c` left out of `r` has a larger count than one in `r`. */
  predicate Dominates<K(==)>(r: Counter<K>, c: Counter<K>)
  {
    forall i, j :: 0 <= i < |r| && 0 <= j < |c| && c[j] !in r ==> r[i].1 >= c[j].1
  }

  /** Among entries of `c` with equal counts, those in `r` come first. */
  predicate TiesFirst<K(==)>(r: Counter<K>, c: Counter<K>)
  {
    forall i, j :: 0 <= i < j < |c| && c[i].1 == c[j].1 && c[j] in r ==> c[i] in r
  }

  /** Entries with equal counts appear in `r` in their order in `c`. */
  predicate TiesInOrder<K(==)>(r: Counter<K>, c: Counter<K>)
  {
    forall a, b, i, j ::
      (0 <= a < b < |r| && 0 <= i < |c| && 0 <= j < |c| && r[a] == c[i] && r[b] == c[j] && r[a].1 == r[b].1) ==> i < j
  }

  lemma DescendingStep<K>(c: Counter<K>, m: nat, rest: Counter<K>)
    requires m < |c| && forall i :: 0 <= i < |c| ==> c[i].1 <= c[m].1
    requires multiset(rest) <= multiset(Without(c, m))
    requires Descending(rest)
    ensures Descending([c[m]] + rest)
  {
    var c' := Without(c, m);
    var r := [c[m]] + rest;
    WithoutIndex(c, m);
    forall k | 0 <= k < |rest| ensures rest[k].1 <= c[m].1 {
      assert rest[k] in multiset(rest);
      assert rest[k] in c';
    }
    forall i, j | 0 <= i < j < |r| ensures r[i].1 >= r[j].1 {
      assert r[j] == rest[j - 1];
      if i > 0 {
        assert r[i] == rest[i - 1];
      }
    }
  }

  lemma DominatesStep<K>(c: Counter<K>, m: nat, rest: Counter<K>)
    requires m < |c| && forall i :: 0 <= i < |c| ==> c[i].1 <= c[m].1
    requires Dominates(rest, Without(c, m))
    ensures Dominates([c[m]] + rest, c)
  {
    var c' := Without(c, m);
    var r := [c[m]] + rest;
    WithoutIndex(c, m);
    forall i, j | 0 <= i < |r| && 0 <= j < |c| && c[j] !in r ensures r[i].1 >= c[j].1 {
      if i > 0 {
        assert r[i] == rest[i - 1];
        assert j != m;
        var j' := if j < m then j else j - 1;
        assert c'[j'] == c[j];
        assert c[j] !in rest;
      }
    }
  }

  /** The selection is listed by non-increasing count, and no entry left out
      has a larger count than one selected. */
  lemma {:induction false} MostCommonDominates<K>(c: Counter<K>, n: nat)
    ensures Descending(MostCommon(c, n))
    ensures Dominates(MostCommon(c, n), c)
    decreases n
  {
    if n > 0 && |c| > 0 {
      var m := FirstMax(c);
      MostCommonDominates(Without(c, m), n - 1);
      DescendingStep(c, m, MostCommon(Without(c, m), n - 1));
      DominatesStep(c, m, MostCommon(Without(c, m), n - 1));
    }
  }

  lemma TiesFirstStep<K>(c: Counter<K>, m: nat, rest: Counter<K>)
    requires m < |c| && DistinctKeys(c)
    requires forall i :: 0 <= i < m ==> c[i].1 < c[m].1
    requires multiset(rest) <= multiset(Without(c, m))
    requires TiesFirst(rest, Without(c, m))
    ensures TiesFirst([c[m]] + rest, c)
  {
    var c' := Without(c, m);
    var r := [c[m]] + rest;
    forall x | x in rest ensures x in c' {
      assert x in multiset(rest);
    }
    WithoutIndex(c, m);
    forall i, j | 0 <= i < j < |c| && c[i].1 == c[j].1 && c[j] in r ensures c[i] in r {
      if j != m && i != m {
        assert c[j] != c[m];
        assert c[j] in rest;
        var i' := if i < m then i else i - 1;
        var j' := if j < m then j else j - 1;
        assert c'[i'] == c[i] && c'[j'] == c[j];
        assert c[i] in rest;
      }
    }
  }

  /** An entry of `Without(c, m)` that comes from a distinct-keyed `c` is
      not `c[m]`. */
  lemma NotRemoved<K>(c: Counter<K>, m: nat, rest: Counter<K>, k: nat)
    requires m < |c| && DistinctKeys(c)
    requires multiset(rest) <= multiset(Without(c, m))
    requires k < |rest|
    ensures rest[k].0 != c[m].0
  {
    WithoutKey(c, m);
    assert rest[k] in multiset(rest);
    assert rest[k] in Without(c, m);
  }

  lemma TiesInOrderStep<K>(c: Counter<K>, m: nat, rest: Counter<K>)
    requires m < |c| && DistinctKeys(c)
    requires forall i :: 0 <= i < m ==> c[i].1 < c[m].1
    requires multiset(rest) <= multiset(Without(c, m))
    requires TiesInOrder(rest, Without(c, m))
    ensures TiesInOrder([c[m]] + rest, c)
  {
    var c' := Without(c, m);
    var r := [c[m]] + rest;
    WithoutIndex(c, m);
    forall a, b, i, j | 0 <= a < b < |r| && 0 <= i < |c| && 0 <= j < |c| &&
        r[a] == c[i] && r[b] == c[j] && r[a].1 == r[b].1
      ensures i < j
    {
      assert r[b] == rest[b - 1];
      NotRemoved(c, m, rest, b - 1);
      assert j != m;
      if a > 0 {
        assert r[a] == rest[a - 1];
        NotRemoved(c, m, rest, a - 1);
        assert i != m;
        var i' := if i < m then i else i - 1;
        var j' := if j < m then j else j - 1;
        assert c'[i'] == c[i] && c'[j'] == c[j];
        assert rest[a - 1] == c'[i'] && rest[b - 1] == c'[j'];
      }
    }
  }

  /** Among entries with equal counts (distinct keys, as in every `Counter`),
      the selected ones are the first in insertion order. */
  lemma {:induction false} MostCommonTiesFirst<K>(c: Counter<K>, n: nat)
    requires DistinctKeys(c)
    ensures TiesFirst(MostCommon(c, n), c)
    decreases n
  {
    if n > 0 && |c| > 0 {
      var m := FirstMax(c);
      WithoutDistinct(c, m);
      MostCommonTiesFirst(Without(c, m), n - 1);
      TiesFirstStep(c, m, MostCommon(Without(c, m), n - 1));
    }
  }

  /** The selection lists entries with equal counts in insertion order. */
  lemma {:induction false} MostCommonTiesInOrder<K>(c: Counter<K>, n: nat)
    requires DistinctKeys(c)
    ensures TiesInOrder(MostCommon(c, n), c)
    decreases n
  {
    if n > 0 && |c| > 0 {
      var m := FirstMax(c);
      WithoutDistinct(c, m);
      MostCommonTiesInOrder(Without(c, m), n - 1);
      TiesInOrderStep(c, m, MostCommon(Without(c, m), n - 1));
    }
  }

  /** What `most_common(n)` promises of its result `top` over the counter
      `c`: `n` entries, or all of them when `c` has fewer, each an entry of
      `c`, by non-increasing count, none left out with a larger count than
      one kept, and equal counts taken first-inserted first and listed in
      insertion order. */
  predicate Selection<K(==)>(top: Counter<K>, c: Counter<K>, n: nat)
  {
    |top| == (if n < |c| then n else |c|) && multiset(top) <= multiset(c) &&
    Descending(top) && Dominates(top, c) && TiesFirst(top, c) && TiesInOrder(top, c)
  }

  lemma MostCommonIsSelection<K>(c: Counter<K>, n: nat)
    requires DistinctKeys(c)
    ensures Selection(MostCommon(c, n), c, n)
  {
    MostCommonDominates(c, n);
    MostCommonTiesFirst(c, n);
    MostCommonTiesInOrder(c, n);
  }

  /** Every entry of `most_common` of a counter is one of its entries. */
  lemma SelectedEntry<K>(c: Counter<K>, n: nat, k: nat)
    requires k < |MostCommon(c, n)|
    ensures exists p :: 0 <= p < |c| && c[p] == MostCommon(c, n)[k]
  {
    var top := MostCommon(c, n);
    assert top[k] in multiset(top);
    assert top[k] in c;
  }

  /** `Counter(ks).most_common(n)`: a selection whose entries are elements
      of `ks` with positive counts. */
  lemma CountSelection<K>(ks: seq<K>, n: nat)
    ensures var top := MostCommon(Count(ks), n);
            Selection(top, Count(ks), n) &&
            forall k :: 0 <= k < |top| ==> top[k].1 > 0 && top[k].0 in ks
  {
    var c := Count(ks);
    var top := MostCommon(c, n);
    CountShape(ks);
    MostCommonIsSelection(c, n);
    forall k | 0 <= k < |top| ensures top[k].1 > 0 && top[k].0 in ks {
      SelectedEntry(c, n, k);
      var p :| 0 <= p < |c| && c[p] == top[k];
      assert Keys(c)[p] == top[k].0;
    }
  }
}
