/** Retrieval metrics for one query whose single relevant document is
    `target`: precision and recall at k, their F1, and the reciprocal rank. */
module RetrieverEval {
  import opened Common

  /** Python's ids[:k] for an int k: a non-negative k keeps at most k ids, a
      negative k drops the last -k. */
  function Prefix<Id>(ids: seq<Id>, k: int): (p: seq<Id>)
    ensures |p| <= |ids| && p == ids[..|p|]
    ensures k >= 0 ==> |p| == if k <= |ids| then k else |ids|
    ensures k < 0 ==> |p| == if |ids| + k >= 0 then |ids| + k else 0
  {
    if k >= 0 then
      if k <= |ids| then ids[..k] else ids
    else
      if |ids| + k >= 0 then ids[..|ids| + k] else []
  }

  /** precision_at_k: 1/k when the target is among ids[:k], else 0; k = 0
      would divide by zero. */
  function PrecisionAtK<Id(==)>(ids: seq<Id>, target: Id, k: int): (r: real)
    requires k != 0
    ensures target in Prefix(ids, k) ==> r == 1.0 / k as real
    ensures target !in Prefix(ids, k) ==> r == 0.0
    ensures k >= 1 ==> 0.0 <= r <= 1.0
  {
    (if target in Prefix(ids, k) then 1 else 0) as real / k as real
  }

  /** recall_at_k: 1.0 when the target is among ids[:k], else 0.0. */
  function RecallAtK<Id(==)>(ids: seq<Id>, target: Id, k: int): (r: real)
    ensures r == 0.0 || r == 1.0
    ensures r == 1.0 <==> target in Prefix(ids, k)
  {
    if target in Prefix(ids, k) then 1.0 else 0.0
  }

  /** With one relevant document recall is k times precision. */
  lemma RecallIsKTimesPrecision<Id>(ids: seq<Id>, target: Id, k: int)
    requires k != 0
    ensures RecallAtK(ids, target, k) == k as real * PrecisionAtK(ids, target, k)
  {
  }

  /** For k >= 1 the prefix is the first min(k, len) ids: a list shorter than
      k is taken whole, and precision is still divided by k. */
  lemma ShortListPrecision<Id>(ids: seq<Id>, target: Id, k: int)
    requires k >= 1 && |ids| <= k && target in ids
    ensures PrecisionAtK(ids, target, k) == 1.0 / k as real
  {
  }

  /** f1_score_at_k: the harmonic mean 2pr / (p + r), 0 when p + r = 0. */
  function F1ScoreAtK(precision: real, recall: real): (f: real)
    ensures precision + recall == 0.0 ==> f == 0.0
    ensures 0.0 <= precision <= 1.0 && 0.0 <= recall <= 1.0 ==> 0.0 <= f <= 1.0
  {
    if precision + recall == 0.0 then 0.0
    else
      var f := 2.0 * (precision * recall) / (precision + recall);
      if 0.0 <= precision <= 1.0 && 0.0 <= recall <= 1.0 then
        HarmonicMeanBounds(precision, recall);
        f
      else f
  }

  lemma HarmonicMeanBounds(p: real, r: real)
    requires 0.0 <= p <= 1.0 && 0.0 <= r <= 1.0 && p + r != 0.0
    ensures 0.0 <= 2.0 * (p * r) / (p + r) <= 1.0
  {
    NonNegativeProduct(p, r);
    NonNegativeProduct(p, 1.0 - r);
    NonNegativeProduct(r, 1.0 - p);
    var t, n := 2.0 * (p * r), p + r;
    assert p * (1.0 - r) == p - p * r && r * (1.0 - p) == r - p * r;
    assert 0.0 <= t <= n;
    UnitShare(t, n);
  }

  lemma NonNegativeProduct(a: real, b: real)
    requires 0.0 <= a && 0.0 <= b
    ensures 0.0 <= a * b
  {
  }

  /** F1 is symmetric in precision and recall. */
  lemma F1Symmetric(p: real, r: real)
    ensures F1ScoreAtK(p, r) == F1ScoreAtK(r, p)
  {
  }

  /** When precision and recall agree, F1 is that common value. */
  lemma F1OfEqualScores(p: real)
    requires p > 0.0
    ensures F1ScoreAtK(p, p) == p
  {
    var d := p + p;
    assert 2.0 * (p * p) == p * d;
    CancelFactor(p, d);
  }

  /** mrr from position `rank` (counted from 1) onwards. */
  function MrrFrom<Id(==)>(ids: seq<Id>, target: Id, rank: nat): (r: real)
    requires rank >= 1
    ensures 0.0 <= r <= 1.0 / rank as real
    ensures r == 0.0 <==> target !in ids
  {
    if ids == [] then 0.0
    else if ids[0] == target then 1.0 / rank as real
    else
      var rest := MrrFrom(ids[1..], target, rank + 1);
      ReciprocalAntitone(rank as real, (rank + 1) as real);
      assert target in ids <==> target in ids[1..];
      rest
  }

  /** mrr: the reciprocal of the 1-based position of the first occurrence of
      the target, 0.0 when it does not occur. */
  function Mrr<Id(==)>(ids: seq<Id>, target: Id): (r: real)
    ensures 0.0 <= r <= 1.0
    ensures r == 0.0 <==> target !in ids
    ensures r == 1.0 <==> ids != [] && ids[0] == target
  {
    assert ids != [] && ids[0] != target ==> MrrFrom(ids[1..], target, 2) <= 0.5;
    MrrFrom(ids, target, 1)
  }

  /** Position of the first occurrence of the target. */
  function FirstIndex<Id(==)>(ids: seq<Id>, target: Id): (i: nat)
    requires target in ids
    ensures i < |ids| && ids[i] == target
    ensures forall j :: 0 <= j < i ==> ids[j] != target
  {
    if ids[0] == target then 0 else 1 + FirstIndex(ids[1..], target)
  }

  lemma {:induction false} MrrFromFirstIndex<Id>(ids: seq<Id>, target: Id, rank: nat)
    requires rank >= 1 && target in ids
    ensures MrrFrom(ids, target, rank) == 1.0 / (FirstIndex(ids, target) + rank) as real
  {
    if ids[0] != target {
      MrrFromFirstIndex(ids[1..], target, rank + 1);
    }
  }

  /** The reciprocal rank is one over the 1-based position of the first hit. */
  lemma MrrIsReciprocalRank<Id>(ids: seq<Id>, target: Id)
    requires target in ids
    ensures Mrr(ids, target) == 1.0 / (FirstIndex(ids, target) + 1) as real
  {
    MrrFromFirstIndex(ids, target, 1);
  }
}
