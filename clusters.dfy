/** `_find_optimal_clusters`: try every candidate cluster count and keep the
    one whose clustering scores best. The quality of a clustering into k
    groups (its silhouette score) is an uninterpreted function of k. */
module ClusterSelection {
  import opened Wrappers
  import opened Seqs

  /** The end (exclusive) of `range(2, min(max_clusters + 1, n))`. */
  function CandidateEnd(n: int, maxClusters: int): int
  {
    if maxClusters + 1 < n then maxClusters + 1 else n
  }

  /** k is the first candidate in [lo, hi) whose score is maximal, as
      `np.argmax` picks it. */
  ghost predicate IsFirstArgmax(score: int -> real, lo: int, hi: int, k: int)
  {
    && lo <= k < hi
    && (forall j :: lo <= j < hi ==> score(j) <= score(k))
    && (forall j :: lo <= j < k ==> score(j) < score(k))
  }

  /** At most one candidate is the first maximum. */
  lemma FirstArgmaxUnique(score: int -> real, lo: int, hi: int, k1: int, k2: int)
    requires IsFirstArgmax(score, lo, hi, k1) && IsFirstArgmax(score, lo, hi, k2)
    ensures k1 == k2
  {
    assert score(k1) == score(k2);
  }

  /** None when the candidate range is empty (n <= 2 or max_clusters < 2),
      where `np.argmax` of an empty list raises; otherwise the first best k. */
  method FindOptimalClusters(n: int, maxClusters: int, silhouette: int -> real) returns (k: Option<int>)
    ensures k.None? <==> CandidateEnd(n, maxClusters) <= 2
    ensures k.Some? ==> IsFirstArgmax(silhouette, 2, CandidateEnd(n, maxClusters), k.value)
  {
    var hi := CandidateEnd(n, maxClusters);
    var scores: seq<real> := [];
    var c := 2;
    while c < hi
      invariant 2 <= c <= (if hi > 2 then hi else 2)
      invariant |scores| == c - 2
      invariant forall i :: 0 <= i < |scores| ==> scores[i] == silhouette(2 + i)
    {
      scores := scores + [silhouette(c)];
      c := c + 1;
    }
    if |scores| == 0 {
      return None;
    }
    var best := 0;
    var i := 1;
    while i < |scores|
      invariant 1 <= i <= |scores|
      invariant 0 <= best < i
      invariant forall j :: 0 <= j < i ==> scores[j] <= scores[best]
      invariant forall j :: 0 <= j < best ==> scores[j] < scores[best]
    {
      if scores[i] > scores[best] {
        best := i;
      }
      i := i + 1;
    }
    k := Some(2 + best);
    forall j | 2 <= j < hi ensures silhouette(j) <= silhouette(2 + best) {
      assert scores[j - 2] == silhouette(j);
    }
    forall j | 2 <= j < 2 + best ensures silhouette(j) < silhouette(2 + best) {
      assert scores[j - 2] == silhouette(j);
    }
  }

  /** The distinct labels of a clustering. */
  function LabelSet(labels: seq<int>): set<int>
  {
    set l | l in labels
  }

  /** `silhouette_score` accepts a labelling of n samples only when it has
      between 2 and n - 1 distinct labels; otherwise it raises. */
  predicate SilhouetteDefined(labels: seq<int>, n: int)
  {
    2 <= |LabelSet(labels)| <= n - 1
  }

  /** A labelling has at most as many distinct labels as entries, and
      exactly as many when no label repeats. */
  lemma {:induction false} LabelSetSize(labels: seq<int>)
    ensures |LabelSet(labels)| <= |labels|
    ensures Distinct(labels) ==> |LabelSet(labels)| == |labels|
  {
    if labels != [] {
      var t := labels[1..];
      LabelSetSize(t);
      assert LabelSet(labels) == {labels[0]} + LabelSet(t) by {
        assert labels == [labels[0]] + t;
      }
      if Distinct(labels) {
        assert Distinct(t) by {
          forall i, j | 0 <= i < j < |t| ensures t[i] != t[j] {
            assert t[i] == labels[i + 1] && t[j] == labels[j + 1];
          }
        }
        assert labels[0] !in LabelSet(t) by {
          forall i | 0 <= i < |t| ensures t[i] != labels[0] {
            assert t[i] == labels[i + 1];
          }
        }
      }
    }
  }

  /** The two labellings the score rejects: a single cluster (as k-means
      gives for `n_clusters=1`), and one cluster per sample (as it gives for
      `n_clusters` equal to the number of customers). */
  lemma SilhouetteUndefined(labels: seq<int>)
    ensures |labels| > 0 && (forall i :: 0 <= i < |labels| ==> labels[i] == labels[0]) ==>
      !SilhouetteDefined(labels, |labels|)
    ensures Distinct(labels) ==> !SilhouetteDefined(labels, |labels|)
  {
    LabelSetSize(labels);
    if |labels| > 0 && forall i :: 0 <= i < |labels| ==> labels[i] == labels[0] {
      assert LabelSet(labels) == {labels[0]};
    }
  }
}
