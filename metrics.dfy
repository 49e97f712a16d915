/** Ranking metrics of the offline evaluation script: precision at k and the
    reciprocal rank of the first relevant result. Ranked lists hold document
    identifiers; `rel` is the set of identifiers judged relevant. */
module Metrics {
  import opened Common

  datatype MetricError = ZeroDivision

  /** Number of items of `s` that are relevant. */
  function CountRelevant<T(==)>(s: seq<T>, rel: set<T>): (c: nat)
    ensures c <= |s|
    ensures c == 0 <==> forall i | 0 <= i < |s| :: s[i] !in rel
    decreases |s|
  {
    if s == [] then 0
    else (if s[0] in rel then 1 else 0) + CountRelevant(s[1..], rel)
  }

  /** sum(1 for d in ranked[:k] if d in rel) / k — a ZeroDivisionError when k is 0. */
  function PrecisionAtK<T(==)>(ranked: seq<T>, rel: set<T>, k: int): (r: Result<real, MetricError>)
    ensures r.Err? <==> k == 0
    ensures k > 0 ==> r.Ok? && 0.0 <= r.value <= 1.0
    ensures k > 0 ==> (r.value == 1.0 <==> CountRelevant(PyPrefix(ranked, k), rel) == k)
  {
    if k == 0 then Err(ZeroDivision)
    else
      var top := PyPrefix(ranked, k);
      var hits := CountRelevant(top, rel);
      var v := hits as real / k as real;
      assert k > 0 ==> 0.0 <= v <= 1.0 && (v == 1.0 <==> hits == k) by {
        if k > 0 {
          assert hits <= |top| <= k;
          RatioAtMostOne(hits as real, k as real);
        }
      }
      Ok(v)
  }

  lemma RatioAtMostOne(x: real, y: real)
    requires 0.0 <= x <= y && 0.0 < y
    ensures 0.0 <= x / y <= 1.0
    ensures x / y == 1.0 <==> x == y
  {
    assert (x / y) * y == x;
  }

  /** Items ranked after position k never change precision at k. */
  lemma PrecisionIgnoresTail<T>(ranked: seq<T>, tail: seq<T>, rel: set<T>, k: int)
    requires 0 < k <= |ranked|
    ensures PrecisionAtK(ranked + tail, rel, k) == PrecisionAtK(ranked, rel, k)
  {
    assert PyPrefix(ranked + tail, k) == PyPrefix(ranked, k);
  }

  /** The denominator stays k when fewer than k items are ranked, so a short
      list of only relevant items scores |ranked| / k, below 1. */
  lemma {:induction false} PrecisionShortList<T>(ranked: seq<T>, rel: set<T>, k: int)
    requires 0 < |ranked| < k
    requires forall i | 0 <= i < |ranked| :: ranked[i] in rel
    ensures PrecisionAtK(ranked, rel, k) == Ok(|ranked| as real / k as real)
    ensures PrecisionAtK(ranked, rel, k).value < 1.0
  {
    AllRelevantCount(ranked, rel);
  }

  lemma {:induction false} AllRelevantCount<T>(s: seq<T>, rel: set<T>)
    requires forall i | 0 <= i < |s| :: s[i] in rel
    ensures CountRelevant(s, rel) == |s|
    decreases |s|
  {
    if s != [] {
      AllRelevantCount(s[1..], rel);
    }
  }

  /** Position i (0-based) holds the first relevant item of the ranking. */
  predicate FirstRelevant<T(==)>(ranked: seq<T>, rel: set<T>, i: int) {
    0 <= i < |ranked| && ranked[i] in rel && forall j | 0 <= j < i :: ranked[j] !in rel
  }

  /** The reciprocal of a 1-based position lies in (0, 1]. */
  lemma ReciprocalInUnit(i: nat)
    ensures 0.0 < 1.0 / (i + 1) as real <= 1.0
  {
  }

  /** mrr: the reciprocal of the 1-based position of the first relevant item,
      0.0 when no ranked item is relevant. */
  method ReciprocalRank<T(==)>(ranked: seq<T>, rel: set<T>) returns (r: real)
    ensures (forall i | 0 <= i < |ranked| :: ranked[i] !in rel) ==> r == 0.0
    ensures forall i | FirstRelevant(ranked, rel, i) :: r == 1.0 / (i + 1) as real
    ensures (exists i | 0 <= i < |ranked| :: ranked[i] in rel) ==> 0.0 < r <= 1.0
  {
    var i := 0;
    while i < |ranked|
      invariant 0 <= i <= |ranked|
      invariant forall j | 0 <= j < i :: ranked[j] !in rel
    {
      if ranked[i] in rel {
        r := 1.0 / (i + 1) as real;
        ReciprocalInUnit(i);
        return;
      }
      i := i + 1;
    }
    return 0.0;
  }
}
