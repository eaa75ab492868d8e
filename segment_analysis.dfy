/** `analyze_segments`: the per-segment summary of the scored table (count,
    mean metrics, share of customers), ordered by mean Monetary, and the
    per-cluster summary when cluster labels are present. */
module SegmentAnalysis {
  import opened Seqs
  import opened Rounding
  import opened Segments
  import opened Rfm

  function SegmentOf(r: RfmRow): Segment { r.segment }
  function RowRecency(r: RfmRow): real { r.recency as real }
  function RowFrequency(r: RfmRow): real { r.frequency as real }
  function RowMonetary(r: RfmRow): real { r.monetary }
  function RowRfmScore(r: RfmRow): real { r.rfmScore }

  /** Does some row of the table carry segment s? */
  predicate Occurs(rows: seq<RfmRow>, s: Segment)
  {
    exists r :: r in rows && r.segment == s
  }

  /** The Segment column, each label given as its position in `ByName`. */
  function RankColumn(rows: seq<RfmRow>): (ks: seq<int>)
    ensures |ks| == |rows| && forall i :: 0 <= i < |rows| ==> ks[i] == NameRank(rows[i].segment)
  {
    seq(|rows|, i requires 0 <= i < |rows| => NameRank(rows[i].segment))
  }

  /** The group keys of `groupby('Segment')`: the labels that occur, each
      once, in the sorted order of their names. */
  function PresentSegments(rows: seq<RfmRow>): (ps: seq<Segment>)
    ensures forall i, j :: 0 <= i < j < |ps| ==> NameRank(ps[i]) < NameRank(ps[j])
    ensures forall s :: s in ps <==> Occurs(rows, s)
  {
    var col := RankColumn(rows);
    var ks := SortedDistinct(col);
    forall j | 0 <= j < |ks| ensures 0 <= ks[j] < |ByName| {
      assert ks[j] in col;
    }
    var ps := seq(|ks|, j requires 0 <= j < |ks| => ByName[ks[j]]);
    forall j | 0 <= j < |ks| ensures NameRank(ps[j]) == ks[j] {
      assert ks[j] in ks;
      ByNameRanks(ks[j]);
    }
    forall s ensures s in ps <==> Occurs(rows, s) {
      if s in ps {
        var j :| 0 <= j < |ps| && ps[j] == s;
        assert ks[j] in col;
        var i :| 0 <= i < |col| && col[i] == ks[j];
        assert rows[i] in rows;
      }
      if Occurs(rows, s) {
        var r :| r in rows && r.segment == s;
        var i :| 0 <= i < |rows| && rows[i] == r;
        assert col[i] in ks;
        var j :| 0 <= j < |ks| && ks[j] == col[i];
        assert ps[j] == s;
      }
    }
    ps
  }

  lemma PresentIsDistinct(rows: seq<RfmRow>)
    ensures Distinct(PresentSegments(rows))
  {
  }

  /** The rows of one segment. */
  function SegmentRows(rows: seq<RfmRow>, s: Segment): (g: seq<RfmRow>)
    ensures forall r :: r in g <==> r in rows && r.segment == s
  {
    Group(rows, SegmentOf, s)
  }

  /** Every group key names a non-empty group. */
  lemma PresentHasRows(rows: seq<RfmRow>)
    ensures forall s :: s in PresentSegments(rows) ==> |SegmentRows(rows, s)| > 0
  {
    forall s | s in PresentSegments(rows) ensures |SegmentRows(rows, s)| > 0 {
      assert Occurs(rows, s);
      var r :| r in rows && r.segment == s;
      assert r in SegmentRows(rows, s);
    }
  }

  // ------------------------------------------------------------ segment table

  /** One row of `rfm_segment_summary`. */
  datatype SegmentSummary = SegmentSummary(
    segment: Segment, count: nat,
    recency: real, frequency: real, monetary: real, rfmScore: real,
    percentage: real)

  function SummaryCount(x: SegmentSummary): real { x.count as real }
  function SummaryMonetary(x: SegmentSummary): real { x.monetary }
  function SummaryPercentage(x: SegmentSummary): real { x.percentage }

  /** The aggregate of one segment's rows: its size, its means rounded to
      two decimals, and its share of all customers in percent, rounded
      (`SummaryValues` states the values). */
  function Summarize(rows: seq<RfmRow>, s: Segment): (x: SegmentSummary)
    requires |SegmentRows(rows, s)| > 0
    ensures x.segment == s
    ensures x.count >= 1 && x.count == |SegmentRows(rows, s)|
  {
    var g := SegmentRows(rows, s);
    assert g[0] in rows;
    SegmentSummary(s, |g|,
      Round2(MeanBy(g, RowRecency)), Round2(MeanBy(g, RowFrequency)),
      Round2(MeanBy(g, RowMonetary)), Round2(MeanBy(g, RowRfmScore)),
      Round2(|g| as real / |rows| as real * 100.0))
  }

  /** Each mean column holds the group's mean (`MeanBy`, total over size)
      rounded to two decimals, so the Monetary column is within half a cent
      of it. */
  lemma SummaryMeans(rows: seq<RfmRow>, s: Segment)
    requires |SegmentRows(rows, s)| > 0
    ensures var x, g := Summarize(rows, s), SegmentRows(rows, s);
      && x.recency == Round2(MeanBy(g, RowRecency))
      && x.frequency == Round2(MeanBy(g, RowFrequency))
      && x.monetary == Round2(MeanBy(g, RowMonetary))
      && x.rfmScore == Round2(MeanBy(g, RowRfmScore))
      && -(1.0 / 200.0) <= x.monetary - MeanBy(g, RowMonetary) <= 1.0 / 200.0
  {
  }

  /** Percentage is the segment's share of all customers, count / N * 100,
      rounded to two decimals. */
  lemma SummaryShare(rows: seq<RfmRow>, s: Segment)
    requires |SegmentRows(rows, s)| > 0
    ensures |rows| > 0
    ensures var x := Summarize(rows, s);
      -(1.0 / 200.0) <= x.percentage - x.count as real / |rows| as real * 100.0 <= 1.0 / 200.0
  {
    var g := SegmentRows(rows, s);
    assert g[0] in rows;
    var x := Summarize(rows, s);
    assert x.percentage == Round2(x.count as real / |rows| as real * 100.0);
  }

  /** The grouped table before sorting: one summary per present segment,
      in group-key order. */
  function GroupedSegments(rows: seq<RfmRow>): (u: seq<SegmentSummary>)
    ensures |u| == |PresentSegments(rows)|
    ensures forall i :: 0 <= i < |u| ==>
      |SegmentRows(rows, PresentSegments(rows)[i])| > 0 && u[i] == Summarize(rows, PresentSegments(rows)[i])
  {
    var ps := PresentSegments(rows);
    PresentHasRows(rows);
    seq(|ps|, i requires 0 <= i < |ps| => Summarize(rows, ps[i]))
  }

  /** `rfm_segment_summary` after `sort_values('Monetary', ascending=False)`. */
  function SegmentTable(rows: seq<RfmRow>): (t: seq<SegmentSummary>)
    ensures |t| == |PresentSegments(rows)|
    ensures SortedBy(t, SummaryMonetary, true)
    ensures multiset(t) == multiset(GroupedSegments(rows))
  {
    var u := GroupedSegments(rows);
    var t := SortBy(u, SummaryMonetary, true);
    assert |t| == |multiset(t)| == |multiset(u)| == |u|;
    t
  }

  /** The Segment column of a summary table. */
  function Labels(t: seq<SegmentSummary>): (ls: seq<Segment>)
    ensures |ls| == |t| && forall i :: 0 <= i < |t| ==> ls[i] == t[i].segment
  {
    seq(|t|, i requires 0 <= i < |t| => t[i].segment)
  }

  /** Every row of the sorted table is the aggregate of its own segment. */
  lemma TableRowsAreSummaries(rows: seq<RfmRow>)
    ensures var t := SegmentTable(rows);
      forall i :: 0 <= i < |t| ==>
        t[i].segment in PresentSegments(rows) && |SegmentRows(rows, t[i].segment)| > 0
        && t[i] == Summarize(rows, t[i].segment)
  {
    var ps := PresentSegments(rows);
    var u := GroupedSegments(rows);
    var t := SegmentTable(rows);
    forall i | 0 <= i < |t|
      ensures t[i].segment in ps && |SegmentRows(rows, t[i].segment)| > 0 && t[i] == Summarize(rows, t[i].segment)
    {
      assert t[i] in multiset(u);
      var k :| 0 <= k < |u| && u[k] == t[i];
    }
  }

  /** No segment has two summary rows. */
  lemma SegmentLabelsDistinct(rows: seq<RfmRow>)
    ensures Distinct(Labels(SegmentTable(rows)))
  {
    var ps := PresentSegments(rows);
    var u := GroupedSegments(rows);
    var t := SegmentTable(rows);
    PresentIsDistinct(rows);
    assert Distinct(u) by {
      forall i, j | 0 <= i < j < |u| ensures u[i] != u[j] {
        assert u[i].segment == ps[i] && u[j].segment == ps[j];
      }
    }
    DistinctPermutation(u, t);
    TableRowsAreSummaries(rows);
    forall i, j | 0 <= i < j < |t| ensures Labels(t)[i] != Labels(t)[j] {
      assert t[i] != t[j];
    }
  }

  /** Reordering summary rows keeps the set of labels. */
  lemma LabelsPermutation(t: seq<SegmentSummary>, u: seq<SegmentSummary>)
    requires multiset(t) == multiset(u)
    ensures forall s :: s in Labels(t) ==> s in Labels(u)
  {
    forall s | s in Labels(t) ensures s in Labels(u) {
      var i :| 0 <= i < |t| && Labels(t)[i] == s;
      assert t[i] in multiset(u);
      var k :| 0 <= k < |u| && u[k] == t[i];
      assert Labels(u)[k] == s;
    }
  }

  /** The Segment column of the summary holds exactly the labels that
      occur in the scored table. */
  lemma SegmentLabelsPresent(rows: seq<RfmRow>)
    ensures forall s :: s in Labels(SegmentTable(rows)) <==> Occurs(rows, s)
  {
    var u := GroupedSegments(rows);
    var t := SegmentTable(rows);
    assert Labels(u) == PresentSegments(rows);
    LabelsPermutation(t, u);
    LabelsPermutation(u, t);
  }

  /** Every customer is counted in exactly one segment: the counts add up
      to the number of customers. */
  lemma CountsSumToTotal(rows: seq<RfmRow>)
    ensures SumBy(SegmentTable(rows), SummaryCount) == |rows| as real
  {
    var ps := PresentSegments(rows);
    var u := GroupedSegments(rows);
    SumByPermutation(SegmentTable(rows), u, SummaryCount);
    forall i | 0 <= i < |ps| ensures SummaryCount(u[i]) == SumBy(Group(rows, SegmentOf, ps[i]), One) {
      SumOfOnes(Group(rows, SegmentOf, ps[i]));
    }
    SumOverMapped(ps, u, rows, SegmentOf, One, SummaryCount);
    PresentIsDistinct(rows);
    forall r | r in rows ensures SegmentOf(r) in ps {
      assert Occurs(rows, r.segment);
    }
    PartitionSum(ps, rows, SegmentOf, One);
    SumOfOnes(rows);
  }

  /** Every row's Percentage is within 1/200 of its exact share. */
  lemma TableShares(rows: seq<RfmRow>)
    requires |rows| > 0
    ensures forall x :: x in SegmentTable(rows) ==>
      -(1.0 / 200.0) <= SummaryPercentage(x) - SummaryCount(x) / |rows| as real * 100.0 <= 1.0 / 200.0
  {
    var t := SegmentTable(rows);
    TableRowsAreSummaries(rows);
    forall x | x in t
      ensures -(1.0 / 200.0) <= SummaryPercentage(x) - SummaryCount(x) / |rows| as real * 100.0 <= 1.0 / 200.0
    {
      var i :| 0 <= i < |t| && t[i] == x;
      SummaryShare(rows, x.segment);
    }
  }

  /** The percentages add up to 100 up to the rounding of each row, that
      is within 1/200 per row (at most 11 rows). */
  lemma PercentagesSumTo100(rows: seq<RfmRow>)
    requires |rows| > 0
    ensures var t := SegmentTable(rows);
      -(|t| as real / 200.0) <= SumBy(t, SummaryPercentage) - 100.0 <= |t| as real / 200.0
  {
    TableShares(rows);
    CountsSumToTotal(rows);
    SharesSumTo100(SegmentTable(rows), SummaryPercentage, SummaryCount, |rows| as real);
  }

  // ------------------------------------------------------------ cluster table

  /** A scored row together with its `Cluster` label. */
  datatype Labelled = Labelled(row: RfmRow, cluster: int)

  function ClusterOf(x: Labelled): int { x.cluster }
  function LabelledRecency(x: Labelled): real { x.row.recency as real }
  function LabelledFrequency(x: Labelled): real { x.row.frequency as real }
  function LabelledMonetary(x: Labelled): real { x.row.monetary }

  /** The table with its `Cluster` column, row by row. */
  function WithClusters(rows: seq<RfmRow>, labels: seq<int>): (ls: seq<Labelled>)
    requires |labels| == |rows|
    ensures |ls| == |rows|
    ensures forall i :: 0 <= i < |rows| ==> ls[i] == Labelled(rows[i], labels[i])
  {
    seq(|rows|, i requires 0 <= i < |rows| => Labelled(rows[i], labels[i]))
  }

  /** One row of `cluster_summary`. */
  datatype ClusterSummary = ClusterSummary(
    cluster: int, count: nat, recency: real, frequency: real, monetary: real, percentage: real)

  function ClusterCount(x: ClusterSummary): real { x.count as real }

  /** The aggregate of the rows labelled c. */
  function SummarizeCluster(ls: seq<Labelled>, c: int): (x: ClusterSummary)
    requires |Group(ls, ClusterOf, c)| > 0
    ensures x.cluster == c
    ensures x.count >= 1 && x.count == |Group(ls, ClusterOf, c)|
    ensures x.recency == Round2(MeanBy(Group(ls, ClusterOf, c), LabelledRecency))
    ensures x.frequency == Round2(MeanBy(Group(ls, ClusterOf, c), LabelledFrequency))
    ensures x.monetary == Round2(MeanBy(Group(ls, ClusterOf, c), LabelledMonetary))
    ensures x.percentage == Round2(x.count as real / |ls| as real * 100.0)
  {
    var g := Group(ls, ClusterOf, c);
    assert g[0] in ls;
    ClusterSummary(c, |g|,
      Round2(MeanBy(g, LabelledRecency)), Round2(MeanBy(g, LabelledFrequency)),
      Round2(MeanBy(g, LabelledMonetary)), Round2(|g| as real / |ls| as real * 100.0))
  }

  /** `groupby('Cluster')`: one summary per label that occurs, labels
      ascending (this table is not re-sorted). */
  function ClusterTable(rows: seq<RfmRow>, labels: seq<int>): (t: seq<ClusterSummary>)
    requires |labels| == |rows|
    ensures |t| == |SortedDistinct(labels)|
    ensures forall i, j :: 0 <= i < j < |t| ==> t[i].cluster < t[j].cluster
    ensures forall i :: 0 <= i < |t| ==>
      |Group(WithClusters(rows, labels), ClusterOf, SortedDistinct(labels)[i])| > 0
      && t[i] == SummarizeCluster(WithClusters(rows, labels), SortedDistinct(labels)[i])
  {
    var ls := WithClusters(rows, labels);
    var cs := SortedDistinct(labels);
    forall c | c in cs ensures |Group(ls, ClusterOf, c)| > 0 {
      var i :| 0 <= i < |labels| && labels[i] == c;
      assert ls[i] in Group(ls, ClusterOf, c);
    }
    seq(|cs|, i requires 0 <= i < |cs| => SummarizeCluster(ls, cs[i]))
  }

  /** There is a cluster row exactly for each label used. */
  lemma ClusterLabelsPresent(rows: seq<RfmRow>, labels: seq<int>)
    requires |labels| == |rows|
    ensures var t := ClusterTable(rows, labels);
      forall c :: c in labels <==> exists i :: 0 <= i < |t| && t[i].cluster == c
  {
    var t := ClusterTable(rows, labels);
    var cs := SortedDistinct(labels);
    forall c ensures c in labels <==> exists i :: 0 <= i < |t| && t[i].cluster == c {
      if c in labels {
        var i :| 0 <= i < |cs| && cs[i] == c;
        assert t[i].cluster == c;
      }
      if exists i :: 0 <= i < |t| && t[i].cluster == c {
        var i :| 0 <= i < |t| && t[i].cluster == c;
        assert cs[i] in cs;
      }
    }
  }

  /** The cluster counts add up to the number of customers. */
  lemma ClusterCountsSumToTotal(rows: seq<RfmRow>, labels: seq<int>)
    requires |labels| == |rows|
    ensures SumBy(ClusterTable(rows, labels), ClusterCount) == |rows| as real
  {
    var t := ClusterTable(rows, labels);
    var ls := WithClusters(rows, labels);
    var cs := SortedDistinct(labels);
    forall i | 0 <= i < |cs| ensures ClusterCount(t[i]) == SumBy(Group(ls, ClusterOf, cs[i]), One) {
      SumOfOnes(Group(ls, ClusterOf, cs[i]));
    }
    SumOverMapped(cs, t, ls, ClusterOf, One, ClusterCount);
    IncreasingIsDistinct(cs);
    forall l | l in ls ensures ClusterOf(l) in cs {
      var i :| 0 <= i < |ls| && ls[i] == l;
      assert labels[i] in labels;
    }
    PartitionSum(cs, ls, ClusterOf, One);
    SumOfOnes(ls);
  }
}
