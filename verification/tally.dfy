/** Sums and means of nullable cells, and sums of keyed values, and the law that summing per key over a list of
    distinct keys adds up to summing everything whose key is listed.

    Both the monthly grouping of the statistics engine and the daily
    resampling of the chart data are instances: a value tagged with its
    year-month or its day number.
 */
module Tally {
  import opened Values

  function SumSeq(xs: seq<real>): real
  {
    if |xs| == 0 then 0.0 else xs[0] + SumSeq(xs[1..])
  }

  /** The sum of all tagged values. */
  function Total<K>(ps: seq<(K, real)>): real
  {
    if |ps| == 0 then 0.0 else ps[0].1 + Total(ps[1..])
  }

  /** The sum of the values tagged `k`. */
  function TotalAt<K(==)>(ps: seq<(K, real)>, k: K): real
  {
    if |ps| == 0 then 0.0
    else (if ps[0].0 == k then ps[0].1 else 0.0) + TotalAt(ps[1..], k)
  }

  /** The sum of the values whose tag occurs in `ks`. */
  function TotalIn<K(==)>(ps: seq<(K, real)>, ks: seq<K>): real
  {
    if |ps| == 0 then 0.0
    else (if ps[0].0 in ks then ps[0].1 else 0.0) + TotalIn(ps[1..], ks)
  }

  /** One per-key sum for each key of `ks`, added up. */
  function TotalPerKey<K(==)>(ps: seq<(K, real)>, ks: seq<K>): real
  {
    if |ks| == 0 then 0.0 else TotalAt(ps, ks[0]) + TotalPerKey(ps, ks[1..])
  }

  predicate Distinct<K(==)>(ks: seq<K>)
  {
    forall i, j :: 0 <= i < j < |ks| ==> ks[i] != ks[j]
  }

  /** The keys of `ks` without repetitions, in order of first appearance. */
  function DistinctKeys<K(==)>(ks: seq<K>): (r: seq<K>)
    ensures Distinct(r)
    ensures forall i :: 0 <= i < |r| ==> r[i] in ks
    ensures forall i :: 0 <= i < |ks| ==> ks[i] in r
  {
    if |ks| == 0 then []
    else
      var rest := DistinctKeys(ks[..|ks| - 1]);
      assert ks == ks[..|ks| - 1] + [ks[|ks| - 1]];
      if ks[|ks| - 1] in rest then rest else rest + [ks[|ks| - 1]]
  }

  /** When every tag is listed, the listed total is the grand total. */
  lemma {:induction false} TotalInCoversAll<K>(ps: seq<(K, real)>, ks: seq<K>)
    requires forall i :: 0 <= i < |ps| ==> ps[i].0 in ks
    ensures TotalIn(ps, ks) == Total(ps)
  {
    if |ps| > 0 {
      TotalInCoversAll(ps[1..], ks);
    }
  }

  /** Summing per key over distinct keys is summing over the listed keys:
      every tagged value is counted once, in the group of its own key. */
  lemma {:induction false} PartitionTotal<K>(ps: seq<(K, real)>, ks: seq<K>)
    requires Distinct(ks)
    ensures TotalPerKey(ps, ks) == TotalIn(ps, ks)
  {
    if |ps| == 0 {
      PerKeyOfNothing(ps, ks);
    } else {
      PerKeySplit(ps, ks);
      HitsOnce(ps[0], ks);
      PartitionTotal(ps[1..], ks);
    }
  }

  /** The sum over `ks` of the contribution of one tagged value. */
  function Hits<K(==)>(p: (K, real), ks: seq<K>): real
  {
    if |ks| == 0 then 0.0
    else (if p.0 == ks[0] then p.1 else 0.0) + Hits(p, ks[1..])
  }

  lemma {:induction false} PerKeyOfNothing<K>(ps: seq<(K, real)>, ks: seq<K>)
    requires |ps| == 0
    ensures TotalPerKey(ps, ks) == 0.0
  {
    if |ks| > 0 {
      PerKeyOfNothing(ps, ks[1..]);
    }
  }

  lemma {:induction false} PerKeySplit<K>(ps: seq<(K, real)>, ks: seq<K>)
    requires |ps| > 0
    ensures TotalPerKey(ps, ks) == Hits(ps[0], ks) + TotalPerKey(ps[1..], ks)
  {
    if |ks| > 0 {
      PerKeySplit(ps, ks[1..]);
    }
  }

  lemma {:induction false} HitsOnce<K>(p: (K, real), ks: seq<K>)
    requires Distinct(ks)
    ensures Hits(p, ks) == if p.0 in ks then p.1 else 0.0
  {
    if |ks| > 0 {
      assert Distinct(ks[1..]) by {
        forall i, j | 0 <= i < j < |ks[1..]|
          ensures ks[1..][i] != ks[1..][j]
        {
          assert ks[1..][i] == ks[i + 1] && ks[1..][j] == ks[j + 1];
        }
      }
      HitsOnce(p, ks[1..]);
      if p.0 == ks[0] {
        assert p.0 !in ks[1..] by {
          forall j | 0 <= j < |ks[1..]|
            ensures ks[1..][j] != ks[0]
          {
            assert ks[1..][j] == ks[j + 1];
          }
        }
      } else {
        assert p.0 in ks <==> p.0 in ks[1..] by {
          assert ks == [ks[0]] + ks[1..];
        }
      }
    }
  }

  /** The present values of a column of cells, in order. */
  function PresentOf(xs: seq<Option<real>>): (r: seq<real>)
    ensures |r| <= |xs|
  {
    if |xs| == 0 then []
    else (if xs[0].Some? then [xs[0].value] else []) + PresentOf(xs[1..])
  }

  /** Column sum with missing cells counting as zero (`sum()`). */
  function SumCells(xs: seq<Option<real>>): real
  {
    if |xs| == 0 then 0.0 else OrZero(xs[0]) + SumCells(xs[1..])
  }

  /** Number of present cells (`count()`). */
  function CountPresent(xs: seq<Option<real>>): nat
  {
    if |xs| == 0 then 0 else (if xs[0].Some? then 1 else 0) + CountPresent(xs[1..])
  }

  /** A zero-filled sum is the sum of the present values alone. */
  lemma {:induction false} SumCellsSkipsMissing(xs: seq<Option<real>>)
    ensures SumCells(xs) == SumSeq(PresentOf(xs))
    ensures CountPresent(xs) == |PresentOf(xs)|
  {
    if |xs| > 0 {
      SumCellsSkipsMissing(xs[1..]);
      var p := PresentOf(xs[1..]);
      if xs[0].Some? {
        assert ([xs[0].value] + p)[1..] == p;
      } else {
        assert [] + p == p;
      }
    }
  }

  /** Column mean skipping missing cells (`mean()`): the skip-missing sum
      over the count of present cells; undefined when nothing is present. */
  function MeanPresent(xs: seq<Option<real>>): (r: Option<real>)
    ensures r.None? <==> |PresentOf(xs)| == 0
    ensures r.Some? ==> r.value == SumSeq(PresentOf(xs)) / (|PresentOf(xs)| as real)
  {
    SumCellsSkipsMissing(xs);
    var n := CountPresent(xs);
    if n == 0 then None else Some(SumCells(xs) / (n as real))
  }
}
