/** The `CustomerSegmentation` object: the loaded transactions, the scored
    table it computes, the Cluster column k-means adds to that table, and
    the summaries `analyze_segments` stores. Every method updates these
    fields in place, as `calculate_rfm`, `perform_kmeans_clustering` and
    `analyze_segments` assign `self.*`. */
module Segmentation {
  import opened Wrappers
  import opened Rfm
  import opened ClusterSelection
  import opened SegmentAnalysis

  /** The dictionary stored in `segmented_data`. */
  datatype SegmentedData = SegmentedData(
    rfmSegments: seq<SegmentSummary>,
    clusterSegments: Option<seq<ClusterSummary>>)

  /** What `perform_kmeans_clustering` comes back with: None when there is
      no scored table, an error when the cluster count cannot be chosen or
      k-means rejects it, an error from the quality score after k-means has
      already written the Cluster column, otherwise the count used and its
      quality score. */
  datatype ClusteringOutcome =
    | NoRfmData
    | Failed
    | ScoreFailed(k: int, labels: seq<int>)
    | Clustered(k: int, labels: seq<int>, silhouette: real)

  /** The largest number of clusters `_find_optimal_clusters` tries. */
  const MaxClusters: int := 10

  /** The summaries `analyze_segments` computes from a scored table and its
      optional Cluster column. */
  function Summaries(rows: seq<RfmRow>, labels: Option<seq<int>>): (d: SegmentedData)
    requires labels.Some? ==> |labels.value| == |rows|
    ensures d.clusterSegments.Some? <==> labels.Some?
    ensures |d.rfmSegments| == |PresentSegments(rows)|
  {
    SegmentedData(SegmentTable(rows),
      if labels.Some? then Some(ClusterTable(rows, labels.value)) else None)
  }

  class CustomerSegmentation {
    var customerData: seq<Transaction>
    var rfmData: Option<seq<RfmRow>>
    /** The Cluster column of `rfm_data`, once k-means has added it. */
    var clusterLabels: Option<seq<int>>
    var segmentedData: Option<SegmentedData>

    /** A Cluster column exists only on a scored table and has one label
        per row. */
    predicate Valid()
      reads this
    {
      clusterLabels.Some? ==> rfmData.Some? && |clusterLabels.value| == |rfmData.value|
    }

    /** The object after `load_data`: transactions, nothing computed. */
    constructor(data: seq<Transaction>)
      ensures Valid()
      ensures customerData == data
      ensures rfmData == None && clusterLabels == None && segmentedData == None
    {
      customerData := data;
      rfmData := None;
      clusterLabels := None;
      segmentedData := None;
    }

    /** `calculate_rfm`: the scored table of the loaded transactions. It
        replaces `rfm_data`, which then has no Cluster column; on an empty
        table the call fails and nothing changes. */
    method CalculateRfm(analysisDate: Option<int>) returns (r: Option<seq<RfmRow>>)
      requires Valid()
      modifies this
      ensures Valid()
      ensures r == RfmTable(old(customerData), analysisDate)
      ensures r.Some? ==> rfmData == r && clusterLabels == None
      ensures r.None? ==> rfmData == old(rfmData) && clusterLabels == old(clusterLabels)
      ensures customerData == old(customerData) && segmentedData == old(segmentedData)
    {
      r := RfmTable(customerData, analysisDate);
      if r.Some? {
        rfmData := r;
        clusterLabels := None;
      }
    }

    /** `perform_kmeans_clustering`: the guard on a missing scored table,
        the choice of k (the given count, or the first best of
        `_find_optimal_clusters` over at most `MaxClusters`), the Cluster
        column set from the labels k-means returns, and then the quality
        score, which raises unless the labels take between 2 and n - 1
        distinct values. `kmeans(k)` is the labelling of the rows into k
        groups and `silhouette(k)` its quality score; k-means fails for k
        outside 1..n. */
    method PerformKmeansClustering(nClusters: Option<int>, silhouette: int -> real, kmeans: int -> seq<int>)
      returns (r: ClusteringOutcome)
      requires Valid()
      modifies this
      ensures Valid()
      ensures old(rfmData).None? <==> r.NoRfmData?
      ensures rfmData == old(rfmData)
      ensures r.Clustered? || r.ScoreFailed? ==>
        && rfmData.Some?
        && (nClusters.Some? ==> r.k == nClusters.value)
        && (nClusters.None? ==> IsFirstArgmax(silhouette, 2, CandidateEnd(|rfmData.value|, MaxClusters), r.k))
        && 1 <= r.k <= |rfmData.value|
        && r.labels == kmeans(r.k) && |r.labels| == |rfmData.value|
        && clusterLabels == Some(r.labels)
      ensures r.Clustered? ==> SilhouetteDefined(r.labels, |rfmData.value|) && r.silhouette == silhouette(r.k)
      ensures r.ScoreFailed? ==> !SilhouetteDefined(r.labels, |rfmData.value|)
      ensures r.NoRfmData? || r.Failed? ==> clusterLabels == old(clusterLabels)
      ensures rfmData.Some? && nClusters.Some? ==>
        (r.Failed? <==> !(1 <= nClusters.value <= |rfmData.value|) || |kmeans(nClusters.value)| != |rfmData.value|)
      ensures rfmData.Some? && nClusters.None? && CandidateEnd(|rfmData.value|, MaxClusters) <= 2 ==> r.Failed?
      ensures rfmData.Some? && nClusters.None? && r.Failed? ==>
        || CandidateEnd(|rfmData.value|, MaxClusters) <= 2
        || exists k :: IsFirstArgmax(silhouette, 2, CandidateEnd(|rfmData.value|, MaxClusters), k)
             && |kmeans(k)| != |rfmData.value|
      ensures customerData == old(customerData) && segmentedData == old(segmentedData)
    {
      if rfmData.None? {
        return NoRfmData;
      }
      var n := |rfmData.value|;
      var k: int;
      if nClusters.Some? {
        k := nClusters.value;
      } else {
        var best := FindOptimalClusters(n, MaxClusters, silhouette);
        if best.None? {
          return Failed;
        }
        k := best.value;
      }
      var labels := kmeans(k);
      if !(1 <= k <= n) || |labels| != n {
        return Failed;
      }
      clusterLabels := Some(labels);
      if !SilhouetteDefined(labels, n) {
        return ScoreFailed(k, labels);
      }
      r := Clustered(k, labels, silhouette(k));
    }

    /** `analyze_segments`: None without a scored table; otherwise the
        segment summary, and the cluster summary when the Cluster column
        exists, both stored in `segmented_data`. */
    method AnalyzeSegments() returns (r: Option<SegmentedData>)
      requires Valid()
      modifies this
      ensures Valid()
      ensures r.None? <==> rfmData.None?
      ensures r.Some? ==> r.value == Summaries(rfmData.value, clusterLabels) && segmentedData == r
      ensures r.None? ==> segmentedData == old(segmentedData)
      ensures customerData == old(customerData) && rfmData == old(rfmData) && clusterLabels == old(clusterLabels)
    {
      if rfmData.None? {
        return None;
      }
      r := Some(Summaries(rfmData.value, clusterLabels));
      segmentedData := r;
    }
  }
}
