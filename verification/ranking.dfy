/**
 * Ranking groups by their mean: the mean value of every group, highest
 * first, the first `n` of them.
 *
 * groupby returns its groups in ascending key order and the sort is by mean
 * alone, so equal means are ordered here by ascending key.
 */
module Ranking {
  import Stats
  import Text
  import Sorting

  /** One row as the aggregation sees it: its group key and its value. */
  datatype Obs = Obs(key: string, value: real)

  /** One line of the result: a group key and the mean of its values. */
  datatype Entry = Entry(key: string, mean: real)

  /** The values of group `k`, in table order. */
  function ValuesOf(obs: seq<Obs>, k: string): (vs: seq<real>)
    ensures |vs| <= |obs|
  {
    if |obs| == 0 then []
    else (if obs[0].key == k then [obs[0].value] else []) + ValuesOf(obs[1..], k)
  }

  predicate Distinct(ks: seq<string>) {
    forall i, j :: 0 <= i < j < |ks| ==> ks[i] != ks[j]
  }

  /** The group keys: each key that has a row, once. */
  function Keys(obs: seq<Obs>): (ks: seq<string>)
    ensures Distinct(ks)
    ensures forall k :: k in ks <==> |ValuesOf(obs, k)| > 0
  {
    if |obs| == 0 then []
    else
      var rest := Keys(obs[1..]);
      if obs[0].key in rest then rest else [obs[0].key] + rest
  }

  /** The mean of each group, one entry per group in key order. */
  function GroupMeans(obs: seq<Obs>): (es: seq<Entry>)
    ensures |es| == |Keys(obs)|
    ensures forall i :: 0 <= i < |es| ==> es[i].key == Keys(obs)[i]
    ensures forall e :: e in es ==>
      |ValuesOf(obs, e.key)| > 0 && e.mean == Stats.Mean(ValuesOf(obs, e.key))
  {
    var ks := Keys(obs);
    seq(|ks|, i requires 0 <= i < |ks| => Entry(ks[i], Stats.Mean(ValuesOf(obs, ks[i]))))
  }

  /** Higher mean first; equal means by ascending key. */
  predicate EntryLe(a: Entry, b: Entry) {
    a.mean > b.mean || (a.mean == b.mean && Text.LessEq(a.key, b.key))
  }

  lemma EntryLeIsTotalPreorder()
    ensures Sorting.TotalPreorder(EntryLe)
  {
    forall a: Entry, b: Entry
      ensures EntryLe(a, b) || EntryLe(b, a)
    {
      Text.LessTrichotomy(a.key, b.key);
    }
    forall a: Entry, b: Entry, c: Entry | EntryLe(a, b) && EntryLe(b, c)
      ensures EntryLe(a, c)
    {
      if Text.Less(a.key, b.key) && Text.Less(b.key, c.key) {
        Text.LessTransitive(a.key, b.key, c.key);
      }
    }
  }

  function Take<T>(s: seq<T>, n: nat): (r: seq<T>)
    ensures |r| == if n < |s| then n else |s|
    ensures forall i :: 0 <= i < |r| ==> r[i] == s[i]
  {
    if n < |s| then s[..n] else s
  }

  /** Sorting entries whose keys are distinct keeps them distinct. */
  lemma DistinctAfterPermutation(es: seq<Entry>, t: seq<Entry>)
    requires forall i, j :: 0 <= i < j < |es| ==> es[i].key != es[j].key
    requires multiset(t) == multiset(es)
    ensures forall i, j :: 0 <= i < j < |t| ==> t[i].key != t[j].key
  {
    forall i, j | 0 <= i < j < |t|
      ensures t[i].key != t[j].key
    {
      if t[i].key == t[j].key {
        assert t[i] in multiset(es) && t[j] in multiset(es);
        var a :| 0 <= a < |es| && es[a] == t[i];
        var b :| 0 <= b < |es| && es[b] == t[j];
        assert a == b;
        CountAtLeastTwo(t, i, j);
        CountAtMostOne(es, es[a]);
        assert false;
      }
    }
  }

  lemma CountAtLeastTwo<T>(s: seq<T>, i: int, j: int)
    requires 0 <= i < j < |s| && s[i] == s[j]
    ensures multiset(s)[s[i]] >= 2
  {
    assert s == s[..j] + [s[j]] + s[j + 1..];
    assert s[i] in s[..j];
  }

  lemma {:induction false} CountAtMostOne(es: seq<Entry>, x: Entry)
    requires forall i, j :: 0 <= i < j < |es| ==> es[i].key != es[j].key
    ensures multiset(es)[x] <= 1
  {
    if |es| > 0 {
      assert es == [es[0]] + es[1..];
      CountAtMostOne(es[1..], x);
      if x == es[0] {
        assert x !in es[1..];
      }
    }
  }

  /** The group means sorted highest first. */
  function Ranked(obs: seq<Obs>): (r: seq<Entry>)
    ensures |r| == |Keys(obs)|
    ensures forall e :: e in r <==> e in GroupMeans(obs)
    ensures forall i, j :: 0 <= i < j < |r| ==> r[i].mean >= r[j].mean
    ensures forall i, j :: 0 <= i < j < |r| ==> r[i].key != r[j].key
  {
    var es := GroupMeans(obs);
    var sorted := Sorting.Sort(es, EntryLe);
    EntryLeIsTotalPreorder();
    DistinctAfterPermutation(es, sorted);
    assert forall e :: e in sorted <==> e in multiset(sorted);
    assert forall e :: e in es <==> e in multiset(es);
    sorted
  }

  /**
   * `r` lists the first `n` groups of `obs` by descending mean: min(n, #groups)
   * entries with distinct keys, each carrying its group's mean, means never
   * increasing down the list, and no group left out having a mean above any
   * group listed.
   */
  ghost predicate Ranks(r: seq<Entry>, obs: seq<Obs>, n: nat) {
    && |r| == (if n < |Keys(obs)| then n else |Keys(obs)|)
    && (forall i, j :: 0 <= i < j < |r| ==> r[i].mean >= r[j].mean)
    && (forall i, j :: 0 <= i < j < |r| ==> r[i].key != r[j].key)
    && (forall i :: 0 <= i < |r| ==>
          |ValuesOf(obs, r[i].key)| > 0 && r[i].mean == Stats.Mean(ValuesOf(obs, r[i].key)))
    && (forall k :: |ValuesOf(obs, k)| > 0 && (forall i :: 0 <= i < |r| ==> r[i].key != k) ==>
          forall i :: 0 <= i < |r| ==> r[i].mean >= Stats.Mean(ValuesOf(obs, k)))
  }

  /** The first `n` group means, highest first. */
  function Top(obs: seq<Obs>, n: nat): (r: seq<Entry>)
    ensures Ranks(r, obs, n)
  {
    var ranked := Ranked(obs);
    var r := Take(ranked, n);
    forall i | 0 <= i < |r|
      ensures |ValuesOf(obs, r[i].key)| > 0 && r[i].mean == Stats.Mean(ValuesOf(obs, r[i].key))
    {
      assert r[i] in ranked;
    }
    forall k | |ValuesOf(obs, k)| > 0 && (forall i :: 0 <= i < |r| ==> r[i].key != k)
      ensures forall i :: 0 <= i < |r| ==> r[i].mean >= Stats.Mean(ValuesOf(obs, k))
    {
      LeftOutRanksLower(obs, n, k);
    }
    r
  }

  /** A group missing from the first `n` entries sits further down the ranking. */
  lemma LeftOutRanksLower(obs: seq<Obs>, n: nat, k: string)
    requires |ValuesOf(obs, k)| > 0
    requires forall i :: 0 <= i < |Take(Ranked(obs), n)| ==> Take(Ranked(obs), n)[i].key != k
    ensures forall i :: 0 <= i < |Take(Ranked(obs), n)| ==>
      Take(Ranked(obs), n)[i].mean >= Stats.Mean(ValuesOf(obs, k))
  {
    var es := GroupMeans(obs);
    var ranked := Ranked(obs);
    var ks := Keys(obs);
    var a :| 0 <= a < |ks| && ks[a] == k;
    assert es[a] in es;
    var p :| 0 <= p < |ranked| && ranked[p] == es[a];
    assert p >= |Take(ranked, n)|;
  }
}
