/**
 * The counting structures of analyze_log_file: a `defaultdict(int)` bumped with
 * `+= 1`, and `Counter(...).most_common(n)` over it.
 *
 * A `Tally` is the value of such a dictionary: its keys in first-insertion order
 * (which is the iteration order of a Python dict) and their counts; `Add` is one
 * `+= 1`, and the analyzer reassigns its local tallies with it.
 */
module Tallies {

  /** Always true: the filter that keeps every key. */
  predicate AnyKey<K>(k: K) {
    true
  }

  /** The counts of the keys of `order` that `keep` selects, added up. */
  function SumWhere<K(==)>(order: seq<K>, counts: map<K, nat>, keep: K -> bool): nat {
    if order == [] then 0
    else
      var k := order[|order| - 1];
      SumWhere(order[..|order| - 1], counts, keep) + (if k in counts && keep(k) then counts[k] else 0)
  }

  predicate Distinct<K(==)>(s: seq<K>) {
    forall i, j :: 0 <= i < j < |s| ==> s[i] != s[j]
  }

  /** The first index of `k` in `s`. */
  function IndexOf<K(==)>(s: seq<K>, k: K): (i: nat)
    requires k in s
    ensures i < |s| && s[i] == k
    ensures forall j :: 0 <= j < i ==> s[j] != k
  {
    if s[0] == k then 0 else 1 + IndexOf(s[1..], k)
  }

  datatype Tally<K(==,!new)> = Tally(order: seq<K>, counts: map<K, nat>)
  {
    /** Every key appears once in `order`, and only counted keys, each at least once. */
    ghost predicate Valid() {
      && Distinct(order)
      && (forall k :: k in counts <==> k in order)
      && (forall k :: k in counts ==> counts[k] > 0)
    }

    /** `dict[k]` of a defaultdict(int), without inserting the key. */
    function Get(k: K): nat {
      if k in counts then counts[k] else 0
    }

    /** `dict[k] += 1` on a defaultdict(int). */
    function Add(k: K): (t: Tally<K>)
      ensures t.Get(k) == Get(k) + 1
      ensures forall j :: j != k ==> t.Get(j) == Get(j)
      ensures t.order == if k in counts then order else order + [k]
      ensures Valid() ==> t.Valid()
    {
      if k in counts then Tally(order, counts[k := counts[k] + 1])
      else Tally(order + [k], counts[k := 1])
    }

    function CountWhere(keep: K -> bool): nat {
      SumWhere(order, counts, keep)
    }

    /** The sum of all counts. */
    function Total(): nat {
      CountWhere(AnyKey)
    }

    /** Position of `k` in insertion order; keys never counted come after all others. */
    function FirstSeen(k: K): nat {
      if k in order then IndexOf(order, k) else |order|
    }

    /** The count of the key at position `p` of the insertion order. */
    function CountAt(p: nat): nat {
      if p < |order| then Get(order[p]) else 0
    }

    /** most_common order on positions: higher count first, equal counts in insertion order. */
    predicate Precedes(p: nat, q: nat) {
      CountAt(p) > CountAt(q) || (CountAt(p) == CountAt(q) && p < q)
    }

    predicate InRankOrder(s: seq<nat>) {
      forall i, j :: 0 <= i < j < |s| ==> Precedes(s[i], s[j])
    }

    /** Inserts position `p` into a rank-ordered sequence of positions. */
    function Insert(p: nat, s: seq<nat>): (r: seq<nat>)
      requires InRankOrder(s) && p !in s
      ensures |r| == |s| + 1
      ensures forall x :: x in r <==> x == p || x in s
      ensures InRankOrder(r)
    {
      if s == [] || Precedes(p, s[0]) then
        [p] + s
      else
        var rest := Insert(p, s[1..]);
        assert forall x :: x in rest ==> Precedes(s[0], x);
        [s[0]] + rest
    }

    /** The positions 0 .. m-1 in most_common order. */
    function Ranked(m: nat): (r: seq<nat>)
      ensures |r| == m
      ensures forall x: nat :: x in r <==> x < m
      ensures forall i :: 0 <= i < |r| ==> r[i] < m
      ensures InRankOrder(r)
    {
      if m == 0 then
        []
      else
        var earlier := Ranked(m - 1);
        var r := Insert(m - 1, earlier);
        assert forall x :: x in r <==> x == m - 1 || x in earlier;
        assert forall i :: 0 <= i < |r| ==> r[i] in r;
        r
    }

    /** `Counter(dict).most_common(n)`: the `n` keys with the highest counts, with their counts. */
    function MostCommon(n: nat): (r: seq<(K, nat)>)
      ensures |r| == if n < |order| then n else |order|
    {
      var ranked := Ranked(|order|);
      var m := if n < |order| then n else |order|;
      seq(m, i requires 0 <= i < m => (order[ranked[i]], CountAt(ranked[i])))
    }
  }

  lemma SumWhereIgnores<K>(order: seq<K>, counts: map<K, nat>, keep: K -> bool, k: K, v: nat)
    requires k !in order
    ensures SumWhere(order, counts[k := v], keep) == SumWhere(order, counts, keep)
  {
    if order != [] {
      SumWhereIgnores(order[..|order| - 1], counts, keep, k, v);
    }
  }

  lemma {:induction false} SumWhereBump<K>(order: seq<K>, counts: map<K, nat>, keep: K -> bool, k: K)
    requires Distinct(order) && k in order && k in counts
    ensures SumWhere(order, counts[k := counts[k] + 1], keep)
            == SumWhere(order, counts, keep) + (if keep(k) then 1 else 0)
  {
    var prefix := order[..|order| - 1];
    if order[|order| - 1] == k {
      assert k !in prefix;
      SumWhereIgnores(prefix, counts, keep, k, counts[k] + 1);
    } else {
      assert k in prefix;
      SumWhereBump(prefix, counts, keep, k);
    }
  }

  /** Counting one more `k` adds one to every filtered sum that keeps `k`, and nothing to the others. */
  lemma AddCountWhere<K(!new)>(t: Tally<K>, k: K, keep: K -> bool)
    requires t.Valid()
    ensures t.Add(k).CountWhere(keep) == t.CountWhere(keep) + (if keep(k) then 1 else 0)
  {
    if k in t.counts {
      SumWhereBump(t.order, t.counts, keep, k);
    } else {
      var counts := t.counts[k := 1];
      assert (t.order + [k])[..|t.order|] == t.order;
      SumWhereIgnores(t.order, t.counts, keep, k, 1);
    }
  }

  /** Counting a key adds exactly one to the total. */
  lemma AddTotal<K(!new)>(t: Tally<K>, k: K)
    requires t.Valid()
    ensures t.Add(k).Total() == t.Total() + 1
  {
    AddCountWhere(t, k, AnyKey);
  }

  /** Every listed pair is a counted key with its count, and no key is listed twice. */
  lemma MostCommonEntries<K(!new)>(t: Tally<K>, n: nat)
    requires t.Valid()
    ensures var r := t.MostCommon(n);
      && (forall i :: 0 <= i < |r| ==> r[i].0 in t.counts && r[i].1 == t.counts[r[i].0])
      && (forall i, j :: 0 <= i < j < |r| ==> r[i].0 != r[j].0)
  {
    var ranked := t.Ranked(|t.order|);
    var r := t.MostCommon(n);
    forall i | 0 <= i < |r| ensures r[i].0 in t.counts && r[i].1 == t.counts[r[i].0] {
      assert t.order[ranked[i]] in t.order;
    }
    forall i, j | 0 <= i < j < |r| ensures r[i].0 != r[j].0 {
      assert ranked[i] in ranked && ranked[j] in ranked;
      assert t.Precedes(ranked[i], ranked[j]);
    }
  }

  /** Counts never increase along the list, and equal counts keep insertion order. */
  lemma MostCommonOrder<K(!new)>(t: Tally<K>, n: nat)
    requires t.Valid()
    ensures var r := t.MostCommon(n);
      forall i, j :: 0 <= i < j < |r| ==>
        r[i].1 >= r[j].1 && (r[i].1 == r[j].1 ==> t.FirstSeen(r[i].0) < t.FirstSeen(r[j].0))
  {
    var ranked := t.Ranked(|t.order|);
    var r := t.MostCommon(n);
    forall i, j | 0 <= i < j < |r|
      ensures r[i].1 >= r[j].1 && (r[i].1 == r[j].1 ==> t.FirstSeen(r[i].0) < t.FirstSeen(r[j].0))
    {
      assert ranked[i] in ranked && ranked[j] in ranked;
      assert t.Precedes(ranked[i], ranked[j]);
      assert t.FirstSeen(r[i].0) == ranked[i];
      assert t.FirstSeen(r[j].0) == ranked[j];
    }
  }

  /** A key left out of a full list ranks below every listed key; a list shorter than `n` holds every key. */
  lemma MostCommonSelectsTop<K(!new)>(t: Tally<K>, n: nat)
    requires t.Valid()
    ensures var r := t.MostCommon(n);
      forall k :: k in t.counts && (forall i :: 0 <= i < |r| ==> r[i].0 != k) ==>
        && |r| == n
        && forall i :: 0 <= i < |r| ==>
             t.counts[k] <= r[i].1 && (t.counts[k] == r[i].1 ==> t.FirstSeen(r[i].0) < t.FirstSeen(k))
  {
    var r := t.MostCommon(n);
    forall k | k in t.counts && (forall i :: 0 <= i < |r| ==> r[i].0 != k)
      ensures |r| == n
      ensures forall i :: 0 <= i < |r| ==>
                t.counts[k] <= r[i].1 && (t.counts[k] == r[i].1 ==> t.FirstSeen(r[i].0) < t.FirstSeen(k))
    {
      MostCommonOmits(t, n, k);
    }
  }

  /** The case of `MostCommonSelectsTop` for one omitted key `k`. */
  lemma MostCommonOmits<K(!new)>(t: Tally<K>, n: nat, k: K)
    requires t.Valid() && k in t.counts
    requires forall i :: 0 <= i < |t.MostCommon(n)| ==> t.MostCommon(n)[i].0 != k
    ensures |t.MostCommon(n)| == n
    ensures forall i :: 0 <= i < |t.MostCommon(n)| ==>
              t.counts[k] <= t.MostCommon(n)[i].1
              && (t.counts[k] == t.MostCommon(n)[i].1 ==> t.FirstSeen(t.MostCommon(n)[i].0) < t.FirstSeen(k))
  {
    var ranked := t.Ranked(|t.order|);
    var r := t.MostCommon(n);
    var p := IndexOf(t.order, k);
    assert p in ranked;
    var j := IndexOf(ranked, p);
    forall i | 0 <= i < |r| ensures ranked[i] != p {
      assert r[i].0 == t.order[ranked[i]];
    }
    assert |r| <= j;
    forall i | 0 <= i < |r|
      ensures t.counts[k] <= r[i].1 && (t.counts[k] == r[i].1 ==> t.FirstSeen(r[i].0) < t.FirstSeen(k))
    {
      assert ranked[i] in ranked;
      assert t.Precedes(ranked[i], ranked[j]);
      assert t.FirstSeen(r[i].0) == ranked[i];
    }
  }
}
