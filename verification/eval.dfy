/** Recall@1 and recall@10 of `eval_similarity` (embeddings/eval.py).
    Reference row i is added to the index under key i, so the right answer
    for query row i is key i.  The index search itself is not part of this
    model: its answers arrive as key matrices, one row per query. */
module Eval {

  /** A recall figure as the integer count behind it: `hits` of the `total`
      query rows found their own key. */
  datatype Recall = Recall(hits: nat, total: nat)
  {
    /** The fraction Python prints; with no rows it divides 0 by 0. */
    function Value(): real
      requires total > 0
    {
      hits as real / total as real
    }
  }

  /** What `eval_similarity` produces: both recalls, or a failure of the
      element-wise comparison when the query matrix does not have one row
      per reference row. */
  datatype Evaluation = Evaluated(at1: Recall, at10: Recall) | RowCountMismatch

  /** Every row of a top-1 answer holds exactly one key. */
  predicate TopOneShaped(keys1: seq<seq<int>>)
  {
    forall i :: 0 <= i < |keys1| ==> |keys1[i]| == 1
  }

  /** Rows i < m whose single returned key is i. */
  function Top1Count(keys1: seq<seq<int>>, m: nat): (c: nat)
    requires m <= |keys1| && TopOneShaped(keys1)
    ensures c <= m
  {
    if m == 0 then 0
    else Top1Count(keys1, m - 1) + (if keys1[m - 1][0] == m - 1 then 1 else 0)
  }

  /** Rows i < m among whose returned keys i occurs. */
  function TopKCount(keys: seq<seq<int>>, m: nat): (c: nat)
    requires m <= |keys|
    ensures c <= m
  {
    if m == 0 then 0
    else TopKCount(keys, m - 1) + (if m - 1 in keys[m - 1] then 1 else 0)
  }

  /** `eval_similarity` for n reference rows, given the key matrices of the
      top-1 and top-10 searches. */
  function EvalSimilarity(n: nat, keys1: seq<seq<int>>, keys10: seq<seq<int>>): (e: Evaluation)
    requires TopOneShaped(keys1)
    ensures e.Evaluated? <==> |keys1| == n && |keys10| == n
    ensures e.Evaluated? ==> e.at1.total == n && e.at10.total == n
    ensures e.Evaluated? ==> e.at1.hits <= n && e.at10.hits <= n
    ensures e.Evaluated? ==> e.at1.hits == |set i | 0 <= i < |keys1| && keys1[i][0] == i|
    ensures e.Evaluated? ==> e.at10.hits == |set i | 0 <= i < |keys10| && i in keys10[i]|
    ensures e.Evaluated? && n > 0 ==>
      0.0 <= e.at1.Value() <= 1.0 && 0.0 <= e.at10.Value() <= 1.0
  {
    if |keys1| != n || |keys10| != n then RowCountMismatch
    else
      var at1, at10 := Recall(Top1Count(keys1, n), n), Recall(TopKCount(keys10, n), n);
      Top1CountIsCardinality(keys1, n);
      TopKCountIsCardinality(keys10, n);
      if n > 0 then
        RatioInUnitInterval(at1.hits, n);
        RatioInUnitInterval(at10.hits, n);
        Evaluated(at1, at10)
      else Evaluated(at1, at10)
  }

  /** A count of at most `total` rows over `total` rows lies in [0, 1]. */
  lemma RatioInUnitInterval(hits: nat, total: nat)
    requires hits <= total && total > 0
    ensures 0.0 <= hits as real / total as real <= 1.0
  {
  }

  // ---------------------------------------------------------------------
  // The counts against their set-based definitions.
  // ---------------------------------------------------------------------

  /** The top-1 count is the number of rows i whose returned key is i. */
  lemma {:induction false} Top1CountIsCardinality(keys1: seq<seq<int>>, m: nat)
    requires m <= |keys1| && TopOneShaped(keys1)
    ensures Top1Count(keys1, m) == |set i | 0 <= i < m && keys1[i][0] == i|
  {
    if m > 0 {
      Top1CountIsCardinality(keys1, m - 1);
      var before := set i | 0 <= i < m - 1 && keys1[i][0] == i;
      var after := set i | 0 <= i < m && keys1[i][0] == i;
      var last := if keys1[m - 1][0] == m - 1 then {m - 1} else {};
      assert after == before + last;
      assert before !! last;
    }
  }

  /** The top-10 count is the number of rows i among whose keys i occurs. */
  lemma {:induction false} TopKCountIsCardinality(keys: seq<seq<int>>, m: nat)
    requires m <= |keys|
    ensures TopKCount(keys, m) == |set i | 0 <= i < m && i in keys[i]|
  {
    if m > 0 {
      TopKCountIsCardinality(keys, m - 1);
      var before := set i | 0 <= i < m - 1 && i in keys[i];
      var after := set i | 0 <= i < m && i in keys[i];
      var last := if m - 1 in keys[m - 1] then {m - 1} else {};
      assert after == before + last;
      assert before !! last;
    }
  }

  // ---------------------------------------------------------------------
  // All hits, and the relation between the two recalls.
  // ---------------------------------------------------------------------

  /** A positive real divided by itself is 1. */
  lemma SelfRatio(t: real)
    requires t > 0.0
    ensures t / t == 1.0
  {
  }

  /** Every row hits at top 1 exactly when the top-1 count is m. */
  lemma {:induction false} Top1AllHitsIff(keys1: seq<seq<int>>, m: nat)
    requires m <= |keys1| && TopOneShaped(keys1)
    ensures Top1Count(keys1, m) == m <==> forall i :: 0 <= i < m ==> keys1[i][0] == i
  {
    if m > 0 {
      Top1AllHitsIff(keys1, m - 1);
    }
  }

  /** Every row hits at top 10 exactly when the top-10 count is m. */
  lemma {:induction false} TopKAllHitsIff(keys: seq<seq<int>>, m: nat)
    requires m <= |keys|
    ensures TopKCount(keys, m) == m <==> forall i :: 0 <= i < m ==> i in keys[i]
  {
    if m > 0 {
      TopKAllHitsIff(keys, m - 1);
    }
  }

  /** When every row's top-1 key is the first of its top-10 keys, recall@10
      counts at least as many rows as recall@1. */
  lemma {:induction false} TopKCoversTop1(keys1: seq<seq<int>>, keys10: seq<seq<int>>, m: nat)
    requires TopOneShaped(keys1) && m <= |keys1| && m <= |keys10|
    requires forall i :: 0 <= i < m ==> |keys10[i]| > 0 && keys10[i][0] == keys1[i][0]
    ensures Top1Count(keys1, m) <= TopKCount(keys10, m)
  {
    if m > 0 {
      TopKCoversTop1(keys1, keys10, m - 1);
      if keys1[m - 1][0] == m - 1 {
        assert keys10[m - 1][0] == m - 1;
      }
    }
  }

  /** When every query row's answers start with its own key, both recalls
      are 1. */
  lemma PerfectRetrieval(n: nat, keys1: seq<seq<int>>, keys10: seq<seq<int>>)
    requires TopOneShaped(keys1) && |keys1| == n && |keys10| == n && n > 0
    requires forall i :: 0 <= i < n ==> keys1[i][0] == i
    requires forall i :: 0 <= i < n ==> |keys10[i]| > 0 && keys10[i][0] == i
    ensures EvalSimilarity(n, keys1, keys10).Evaluated?
    ensures EvalSimilarity(n, keys1, keys10).at1.Value() == 1.0
    ensures EvalSimilarity(n, keys1, keys10).at10.Value() == 1.0
  {
    Top1AllHitsIff(keys1, n);
    assert forall i :: 0 <= i < n ==> i in keys10[i] by {
      forall i | 0 <= i < n ensures i in keys10[i] {
        assert keys10[i][0] == i;
      }
    }
    TopKAllHitsIff(keys10, n);
    assert Top1Count(keys1, n) == n && TopKCount(keys10, n) == n;
    assert EvalSimilarity(n, keys1, keys10) == Evaluated(Recall(n, n), Recall(n, n));
    SelfRatio(n as real);
  }
}
