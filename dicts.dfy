/**
 * Python dicts keyed by page number, as utilities.py uses them: a sequence of
 * (key, value) entries in insertion order, which is also the order in which
 * `d.keys()` and `d.items()` visit them.
 */
module Dicts {
  import opened Wrappers

  type Dict<V> = seq<(nat, V)>

  predicate DistinctKeys<V>(d: Dict<V>) {
    forall i, j :: 0 <= i < j < |d| ==> d[i].0 != d[j].0
  }

  /** `d.keys()`, in iteration order. */
  function Keys<V>(d: Dict<V>): (ks: seq<nat>)
    ensures |ks| == |d| && forall j :: 0 <= j < |d| ==> ks[j] == d[j].0
  {
    if d == [] then [] else [d[0].0] + Keys(d[1..])
  }

  /** `d.get(k)`: the value stored under k, if any. */
  function Get<V>(d: Dict<V>, k: nat): (r: Option<V>)
  {
    if d == [] then None else if d[0].0 == k then Some(d[0].1) else Get(d[1..], k)
  }

  /** A lookup fails exactly when no entry has the key, and otherwise finds an entry with it. */
  lemma {:induction false} GetMeaning<V>(d: Dict<V>, k: nat)
    ensures Get(d, k).None? <==> forall j :: 0 <= j < |d| ==> d[j].0 != k
    ensures Get(d, k).Some? ==> exists j :: 0 <= j < |d| && d[j] == (k, Get(d, k).value)
  {
    if d != [] {
      GetMeaning(d[1..], k);
      if d[0].0 != k && Get(d, k).Some? {
        var j :| 0 <= j < |d[1..]| && d[1..][j] == (k, Get(d, k).value);
        assert d[j + 1] == d[1..][j];
      }
      if d[0].0 != k && Get(d, k).None? {
        forall j | 0 <= j < |d| ensures d[j].0 != k {
          if j > 0 { assert d[j] == d[1..][j - 1]; }
        }
      }
    }
  }

  /** The key of any entry is found. */
  lemma GetPresent<V>(d: Dict<V>, j: nat)
    requires j < |d|
    ensures Get(d, d[j].0).Some?
  {
    GetMeaning(d, d[j].0);
  }

  /** A lookup in a dict with one more entry in front. */
  lemma GetCons<V>(e: (nat, V), d: Dict<V>, k: nat)
    ensures Get([e] + d, k) == if e.0 == k then Some(e.1) else Get(d, k)
  {
    assert ([e] + d)[1..] == d;
  }

  /** With distinct keys, the entry at position j is what a lookup of its key finds. */
  lemma {:induction false} GetAt<V>(d: Dict<V>, j: nat)
    requires DistinctKeys(d) && j < |d|
    ensures Get(d, d[j].0) == Some(d[j].1)
  {
    if j > 0 {
      assert d[0].0 != d[j].0;
      assert d[1..][j - 1] == d[j];
      GetAt(d[1..], j - 1);
    }
  }

  /** `d[k] = v`: an existing key keeps its place and gets the new value, a new key goes last. */
  function Put<V>(d: Dict<V>, k: nat, v: V): (r: Dict<V>)
    ensures Get(d, k).None? ==> r == d + [(k, v)]
    ensures Get(d, k).Some? ==> |r| == |d|
    ensures Get(r, k) == Some(v)
  {
    if d == [] then [(k, v)]
    else if d[0].0 == k then [(k, v)] + d[1..]
    else [d[0]] + Put(d[1..], k, v)
  }

  /** Overwriting an existing key keeps every key where it was. */
  lemma {:induction false} PutInPlace<V>(d: Dict<V>, k: nat, v: V)
    requires Get(d, k).Some?
    ensures forall j :: 0 <= j < |d| ==> Put(d, k, v)[j].0 == d[j].0
  {
    if d[0].0 != k {
      PutInPlace(d[1..], k, v);
      assert forall j :: 1 <= j < |d| ==> Put(d, k, v)[j] == Put(d[1..], k, v)[j - 1] && d[j] == d[1..][j - 1];
    }
  }

  /** After `d[p] = v`, every key other than p still finds what it found before. */
  lemma {:induction false} GetPut<V>(d: Dict<V>, p: nat, v: V, k: nat)
    ensures Get(Put(d, p, v), k) == if k == p then Some(v) else Get(d, k)
  {
    if d != [] && d[0].0 != p {
      GetPut(d[1..], p, v, k);
      GetCons(d[0], Put(d[1..], p, v), k);
    } else if d != [] {
      GetCons((p, v), d[1..], k);
    }
  }

  /** A lookup in a dict with one more entry at the end: earlier entries win. */
  lemma {:induction false} GetSnoc<V>(d: Dict<V>, e: (nat, V), k: nat)
    ensures Get(d + [e], k) == if Get(d, k).Some? then Get(d, k) else if e.0 == k then Some(e.1) else None
  {
    if d != [] {
      assert (d + [e])[1..] == d[1..] + [e];
      GetSnoc(d[1..], e, k);
    }
  }

  /** The dict without the entry for k, in the order left; unchanged when k is absent. */
  function Without<V>(d: Dict<V>, k: nat): (r: Dict<V>)
    ensures |r| <= |d|
  {
    if d == [] then []
    else if d[0].0 == k then Without(d[1..], k)
    else [d[0]] + Without(d[1..], k)
  }

  /** No entry for k is left, and a dict without k is left as it is. */
  lemma {:induction false} WithoutMeaning<V>(d: Dict<V>, k: nat)
    ensures forall j :: 0 <= j < |Without(d, k)| ==> Without(d, k)[j].0 != k
    ensures Get(d, k).None? ==> Without(d, k) == d
  {
    if d != [] {
      WithoutMeaning(d[1..], k);
      var w := Without(d[1..], k);
      if d[0].0 != k {
        forall j | 0 <= j < |[d[0]] + w| ensures ([d[0]] + w)[j].0 != k {
          if j > 0 { assert ([d[0]] + w)[j] == w[j - 1]; }
        }
        assert d == [d[0]] + d[1..];
      }
    }
  }

  /** Removing a key from a dict with one more entry in front. */
  lemma WithoutCons<V>(e: (nat, V), d: Dict<V>, k: nat)
    ensures Without([e] + d, k) == if e.0 == k then Without(d, k) else [e] + Without(d, k)
  {
    assert ([e] + d)[1..] == d;
  }

  /** Removing a key keeps every other entry, and adds nothing. */
  lemma {:induction false} WithoutKeeps<V>(d: Dict<V>, k: nat, e: (nat, V))
    ensures e in Without(d, k) <==> e in d && e.0 != k
  {
    if d != [] {
      WithoutKeeps(d[1..], k, e);
      assert e in d <==> e == d[0] || e in d[1..];
    }
  }

  lemma {:induction false} WithoutDistinct<V>(d: Dict<V>, k: nat)
    requires DistinctKeys(d)
    ensures DistinctKeys(Without(d, k))
  {
    if d != [] {
      assert DistinctKeys(d[1..]) by {
        forall i, j | 0 <= i < j < |d[1..]| ensures d[1..][i].0 != d[1..][j].0 {
          assert d[1..][i] == d[i + 1] && d[1..][j] == d[j + 1];
        }
      }
      WithoutDistinct(d[1..], k);
      if d[0].0 != k {
        var w := Without(d[1..], k);
        forall j | 0 <= j < |w| ensures w[j].0 != d[0].0 {
          assert w[j] in w;
          WithoutKeeps(d[1..], k, w[j]);
          var m :| 0 <= m < |d[1..]| && d[1..][m] == w[j];
          assert d[m + 1] == w[j];
        }
        forall i, j | 0 <= i < j < |[d[0]] + w| ensures ([d[0]] + w)[i].0 != ([d[0]] + w)[j].0 {
          if i > 0 {
            assert ([d[0]] + w)[i] == w[i - 1] && ([d[0]] + w)[j] == w[j - 1];
          }
        }
      }
    }
  }

  /** `d.pop(k)`: the value under k and the dict without it, or a KeyError when k is absent. */
  function Pop<V>(d: Dict<V>, k: nat): (r: Result<(V, Dict<V>), Error>)
    ensures r.Err? <==> Get(d, k).None?
    ensures r.Err? ==> r.error == MissingKey
    ensures r.Ok? ==> r.value.0 == Get(d, k).value && r.value.1 == Without(d, k)
  {
    match Get(d, k)
    case None => Err(MissingKey)
    case Some(v) => Ok((v, Without(d, k)))
  }

  // ---------------------------------------------------------------- sorted(d.keys())

  predicate Ascending(s: seq<nat>) {
    forall i, j :: 0 <= i < j < |s| ==> s[i] <= s[j]
  }

  function Insert(x: nat, s: seq<nat>): (r: seq<nat>)
    requires Ascending(s)
    ensures Ascending(r) && multiset(r) == multiset(s) + multiset{x}
  {
    if s == [] || x <= s[0] then [x] + s
    else
      var t := Insert(x, s[1..]);
      assert s == [s[0]] + s[1..];
      InsertAbove(s[0], x, s[1..], t);
      [s[0]] + t
  }

  /** A lower bound of a sequence and of x is one of any rearrangement of the two together. */
  lemma InsertAbove(lo: nat, x: nat, s: seq<nat>, t: seq<nat>)
    requires lo <= x && forall j :: 0 <= j < |s| ==> lo <= s[j]
    requires multiset(t) == multiset(s) + multiset{x}
    ensures forall j :: 0 <= j < |t| ==> lo <= t[j]
  {
    forall j | 0 <= j < |t| ensures lo <= t[j] {
      assert t[j] in multiset(t);
      if t[j] != x {
        assert t[j] in multiset(s);
        var m :| 0 <= m < |s| && s[m] == t[j];
      }
    }
  }

  /** `sorted(ks)`: the same numbers in ascending order. */
  function Sort(ks: seq<nat>): (r: seq<nat>)
    ensures Ascending(r) && multiset(r) == multiset(ks)
  {
    if ks == [] then []
    else
      assert ks == [ks[0]] + ks[1..];
      Insert(ks[0], Sort(ks[1..]))
  }

  /** `sorted(d.keys())`. */
  function SortedKeys<V>(d: Dict<V>): (r: seq<nat>)
    ensures Ascending(r) && multiset(r) == multiset(Keys(d))
    ensures |r| == |d|
  {
    var r := Sort(Keys(d));
    assert |multiset(r)| == |multiset(Keys(d))|;
    r
  }

  /**
   * The shape of the page dicts the PDF splitter produces: one entry per page,
   * keyed by the page numbers 1 .. n (in whatever order).
   */
  predicate PageNumbered<V>(d: Dict<V>) {
    DistinctKeys(d) && forall j :: 0 <= j < |d| ==> 1 <= d[j].0 <= |d|
  }

  /** On a page-numbered dict, the sorted keys are 1, 2, ..., n. */
  lemma SortedPageNumbers<V>(d: Dict<V>)
    requires PageNumbered(d)
    ensures SortedKeys(d) == seq(|d|, j => j + 1)
  {
    var r := SortedKeys(d);
    var ks := Keys(d);
    assert |r| == |d| by {
      assert |multiset(r)| == |multiset(ks)|;
    }
    forall j | 0 <= j < |r| ensures 1 <= r[j] <= |d| && multiset(r)[r[j]] == 1 {
      assert r[j] in multiset(ks);
      var m :| 0 <= m < |ks| && ks[m] == r[j];
      DistinctCount(d, m);
    }
    Ascending1ToN(r, |d|);
  }

  /** A key of a dict with distinct keys occurs exactly once among its keys. */
  lemma DistinctCount<V>(d: Dict<V>, m: nat)
    requires DistinctKeys(d) && m < |d|
    ensures multiset(Keys(d))[d[m].0] == 1
  {
    var ks := Keys(d);
    var x := ks[m];
    var a, b := ks[..m], ks[m + 1..];
    KeyNotElsewhere(d, m);
    OnceBetween(a, x, b);
    SplitAt(ks, m);
  }

  lemma SplitAt(s: seq<nat>, m: nat)
    requires m < |s|
    ensures s == s[..m] + [s[m]] + s[m + 1..]
  {
  }

  lemma KeyNotElsewhere<V>(d: Dict<V>, m: nat)
    requires DistinctKeys(d) && m < |d|
    ensures d[m].0 !in Keys(d)[..m] && d[m].0 !in Keys(d)[m + 1..]
  {
  }

  lemma OnceBetween(a: seq<nat>, x: nat, b: seq<nat>)
    requires x !in a && x !in b
    ensures multiset(a + [x] + b)[x] == 1
  {
    assert multiset(a + [x] + b) == multiset(a) + multiset{x} + multiset(b);
  }

  /** Two equal neighbours make a number occur at least twice. */
  lemma NeighboursCount(r: seq<nat>, i: nat)
    requires i + 1 < |r| && r[i] == r[i + 1]
    ensures multiset(r)[r[i]] >= 2
  {
    assert r == r[..i] + [r[i], r[i + 1]] + r[i + 2..];
    assert multiset(r) == multiset(r[..i]) + multiset{r[i], r[i + 1]} + multiset(r[i + 2..]);
  }

  /** An ascending sequence of n numbers from 1 .. n, none repeated, is 1, 2, ..., n. */
  lemma Ascending1ToN(r: seq<nat>, n: nat)
    requires |r| == n && Ascending(r)
    requires forall j :: 0 <= j < |r| ==> 1 <= r[j] <= n && multiset(r)[r[j]] == 1
    ensures r == seq(n, j => j + 1)
  {
    forall i | 0 <= i < n - 1 ensures r[i] < r[i + 1] {
      if r[i] == r[i + 1] {
        NeighboursCount(r, i);
      }
    }
    LowerBound(r, n);
    UpperBound(r, n);
  }

  lemma LowerBound(r: seq<nat>, n: nat)
    requires |r| == n && forall j :: 0 <= j < n ==> 1 <= r[j]
    requires forall i :: 0 <= i < n - 1 ==> r[i] < r[i + 1]
    ensures forall j :: 0 <= j < n ==> j + 1 <= r[j]
  {
    var j := 0;
    while j < n
      invariant j <= n && forall i :: 0 <= i < j ==> i + 1 <= r[i]
    {
      if j > 0 {
        assert r[j - 1] < r[j];
      }
      j := j + 1;
    }
  }

  lemma UpperBound(r: seq<nat>, n: nat)
    requires |r| == n && forall j :: 0 <= j < n ==> r[j] <= n && j + 1 <= r[j]
    requires forall i :: 0 <= i < n - 1 ==> r[i] < r[i + 1]
    ensures forall j :: 0 <= j < n ==> r[j] == j + 1
  {
    var j := n;
    while j > 0
      invariant 0 <= j <= n && forall i :: j <= i < n ==> r[i] <= i + 1
    {
      if j < n {
        assert r[j - 1] < r[j];
      }
      j := j - 1;
    }
  }
}
