/** The two tables the visualizer computes before plotting: the per-segment
    statistics of the comparison chart and the Recency-score by
    Frequency-score count matrix of the heatmap. Plots are not modelled. */
module Visualization {
  import opened Wrappers
  import opened Seqs
  import opened Rounding
  import opened Segments
  import opened Rfm
  import opened SegmentAnalysis

  /** The table the visualizer was given, with the columns it may lack. */
  datatype Frame = Frame(
    rows: seq<RfmRow>, hasSegment: bool, hasRScore: bool, hasFScore: bool, hasMScore: bool)

  // ------------------------------------------------------------ segment comparison

  /** One row of `segment_stats`, all values rounded to two decimals. */
  datatype SegmentStat = SegmentStat(
    segment: Segment, customerCount: nat,
    avgRecency: real, avgFrequency: real, avgMonetary: real, totalRevenue: real)

  function StatCount(x: SegmentStat): real { x.customerCount as real }
  function StatRevenue(x: SegmentStat): real { x.totalRevenue }

  /** The aggregate of one segment's rows. */
  function Stat(rows: seq<RfmRow>, s: Segment): (x: SegmentStat)
    requires |SegmentRows(rows, s)| > 0
    ensures x.segment == s
    ensures x.customerCount >= 1 && x.customerCount == |SegmentRows(rows, s)|
  {
    var g := SegmentRows(rows, s);
    SegmentStat(s, |g|,
      Round2(MeanBy(g, RowRecency)), Round2(MeanBy(g, RowFrequency)),
      Round2(MeanBy(g, RowMonetary)), Round2(SumBy(g, RowMonetary)))
  }

  /** Avg_Monetary is the group's mean and Total_Revenue its sum, each
      rounded to two decimals, so each is within half a cent of the exact
      value. */
  lemma StatValues(rows: seq<RfmRow>, s: Segment)
    requires |SegmentRows(rows, s)| > 0
    ensures var x, g := Stat(rows, s), SegmentRows(rows, s);
      && x.avgRecency == Round2(MeanBy(g, RowRecency))
      && x.avgFrequency == Round2(MeanBy(g, RowFrequency))
      && -(1.0 / 200.0) <= x.avgMonetary - MeanBy(g, RowMonetary) <= 1.0 / 200.0
      && -(1.0 / 200.0) <= x.totalRevenue - SumBy(g, RowMonetary) <= 1.0 / 200.0
  {
  }

  /** Avg_Monetary times Customer_Count gives back Total_Revenue, up to
      the rounding of the two columns: within (count + 1) half cents. */
  lemma StatMeanTimesCount(rows: seq<RfmRow>, s: Segment)
    requires |SegmentRows(rows, s)| > 0
    ensures var x := Stat(rows, s);
      var c := x.customerCount as real;
      -((c + 1.0) / 200.0) <= x.avgMonetary * c - x.totalRevenue <= (c + 1.0) / 200.0
  {
    var g := SegmentRows(rows, s);
    RoundedMeanTimesCount(SumBy(g, RowMonetary), |g|);
  }

  /** The grouped statistics in group-key order. */
  function GroupedStats(rows: seq<RfmRow>): (u: seq<SegmentStat>)
    ensures |u| == |PresentSegments(rows)|
    ensures forall i :: 0 <= i < |u| ==>
      |SegmentRows(rows, PresentSegments(rows)[i])| > 0 && u[i] == Stat(rows, PresentSegments(rows)[i])
  {
    var ps := PresentSegments(rows);
    PresentHasRows(rows);
    seq(|ps|, i requires 0 <= i < |ps| => Stat(rows, ps[i]))
  }

  /** `segment_stats` after `sort_values('Total_Revenue', ascending=True)`. */
  function StatsTable(rows: seq<RfmRow>): (t: seq<SegmentStat>)
    ensures |t| == |PresentSegments(rows)|
    ensures SortedBy(t, StatRevenue, false)
    ensures multiset(t) == multiset(GroupedStats(rows))
  {
    var u := GroupedStats(rows);
    var t := SortBy(u, StatRevenue, false);
    assert |t| == |multiset(t)| == |multiset(u)| == |u|;
    t
  }

  /** The table `create_segment_comparison_chart` returns: None without a
      table or without a Segment column. */
  function SegmentStats(data: Option<Frame>): (r: Option<seq<SegmentStat>>)
    ensures r.None? <==> data.None? || !data.value.hasSegment
    ensures r.Some? ==> r.value == StatsTable(data.value.rows)
  {
    if data.None? || !data.value.hasSegment then None else Some(StatsTable(data.value.rows))
  }

  /** Every row of the table is the statistic of its own segment, which
      occurs among the customers. */
  lemma StatsRowsAreStats(rows: seq<RfmRow>)
    ensures var t := StatsTable(rows);
      forall i :: 0 <= i < |t| ==>
        Occurs(rows, t[i].segment) && |SegmentRows(rows, t[i].segment)| > 0 && t[i] == Stat(rows, t[i].segment)
  {
    var t, u, ps := StatsTable(rows), GroupedStats(rows), PresentSegments(rows);
    forall i | 0 <= i < |t|
      ensures Occurs(rows, t[i].segment) && |SegmentRows(rows, t[i].segment)| > 0 && t[i] == Stat(rows, t[i].segment)
    {
      assert t[i] in multiset(u);
      var k :| 0 <= k < |u| && u[k] == t[i];
      assert ps[k] in ps;
    }
  }

  /** No segment has two rows. */
  lemma StatsSegmentsDistinct(rows: seq<RfmRow>)
    ensures var t := StatsTable(rows);
      forall i, j :: 0 <= i < j < |t| ==> t[i].segment != t[j].segment
  {
    var t, u, ps := StatsTable(rows), GroupedStats(rows), PresentSegments(rows);
    PresentIsDistinct(rows);
    assert Distinct(u) by {
      forall i, j | 0 <= i < j < |u| ensures u[i] != u[j] {
        assert u[i].segment == ps[i] && u[j].segment == ps[j];
      }
    }
    DistinctPermutation(u, t);
    StatsRowsAreStats(rows);
    forall i, j | 0 <= i < j < |t| ensures t[i].segment != t[j].segment {
      assert t[i] != t[j];
    }
  }

  /** The segments listed are exactly those that occur. */
  lemma StatsSegmentsPresent(rows: seq<RfmRow>)
    ensures forall s :: (exists i :: 0 <= i < |StatsTable(rows)| && StatsTable(rows)[i].segment == s) <==> Occurs(rows, s)
  {
    var t, u, ps := StatsTable(rows), GroupedStats(rows), PresentSegments(rows);
    StatsRowsAreStats(rows);
    forall s | Occurs(rows, s) ensures exists i :: 0 <= i < |t| && t[i].segment == s {
      var k :| 0 <= k < |ps| && ps[k] == s;
      assert u[k] in multiset(t);
      var i :| 0 <= i < |t| && t[i] == u[k];
    }
  }

  /** Customer_Count adds up to the number of customers. */
  lemma StatCountsSumToTotal(rows: seq<RfmRow>)
    ensures SumBy(StatsTable(rows), StatCount) == |rows| as real
  {
    var ps := PresentSegments(rows);
    var u := GroupedStats(rows);
    SumByPermutation(StatsTable(rows), u, StatCount);
    forall i | 0 <= i < |ps| ensures StatCount(u[i]) == SumBy(Group(rows, SegmentOf, ps[i]), One) {
      SumOfOnes(Group(rows, SegmentOf, ps[i]));
    }
    SumOverMapped(ps, u, rows, SegmentOf, One, StatCount);
    PresentIsDistinct(rows);
    forall r | r in rows ensures SegmentOf(r) in ps {
      assert Occurs(rows, r.segment);
    }
    PartitionSum(ps, rows, SegmentOf, One);
    SumOfOnes(rows);
  }

  // ------------------------------------------------------------ score heatmap

  function RScoreOf(r: RfmRow): int { r.rScore }
  function FScoreOf(r: RfmRow): int { r.fScore }

  function ScoreColumn(rows: seq<RfmRow>, score: RfmRow -> int): (ks: seq<int>)
    ensures |ks| == |rows| && forall i :: 0 <= i < |rows| ==> ks[i] == score(rows[i])
  {
    seq(|rows|, i requires 0 <= i < |rows| => score(rows[i]))
  }

  /** The customers with R_Score r and F_Score f. */
  function Cell(rows: seq<RfmRow>, r: int, f: int): nat
  {
    |Group(Group(rows, RScoreOf, r), FScoreOf, f)|
  }

  /** The pivoted matrix: R scores present (ascending) by F scores present
      (ascending), each cell a customer count, 0 where no customer has
      that pair. */
  datatype Heatmap = Heatmap(rScores: seq<int>, fScores: seq<int>, cells: seq<seq<nat>>)

  function CountMatrix(rows: seq<RfmRow>): (h: Heatmap)
    ensures StrictlyIncreasing(h.rScores) && StrictlyIncreasing(h.fScores)
    ensures forall x :: x in h.rScores <==> exists r :: r in rows && r.rScore == x
    ensures forall y :: y in h.fScores <==> exists r :: r in rows && r.fScore == y
    ensures |h.cells| == |h.rScores|
    ensures forall i :: 0 <= i < |h.cells| ==> |h.cells[i]| == |h.fScores|
    ensures forall i, j :: 0 <= i < |h.cells| && 0 <= j < |h.fScores| ==>
      h.cells[i][j] == Cell(rows, h.rScores[i], h.fScores[j])
  {
    var rcol, fcol := ScoreColumn(rows, RScoreOf), ScoreColumn(rows, FScoreOf);
    var rs, fs := SortedDistinct(rcol), SortedDistinct(fcol);
    forall x ensures x in rs <==> exists r :: r in rows && r.rScore == x {
      if x in rs {
        var i :| 0 <= i < |rcol| && rcol[i] == x;
        assert rows[i] in rows;
      }
      if exists r :: r in rows && r.rScore == x {
        var r :| r in rows && r.rScore == x;
        var i :| 0 <= i < |rows| && rows[i] == r;
        assert rcol[i] == x;
      }
    }
    forall y ensures y in fs <==> exists r :: r in rows && r.fScore == y {
      if y in fs {
        var i :| 0 <= i < |fcol| && fcol[i] == y;
        assert rows[i] in rows;
      }
      if exists r :: r in rows && r.fScore == y {
        var r :| r in rows && r.fScore == y;
        var i :| 0 <= i < |rows| && rows[i] == r;
        assert fcol[i] == y;
      }
    }
    Heatmap(rs, fs, seq(|rs|, i requires 0 <= i < |rs| =>
      seq(|fs|, j requires 0 <= j < |fs| => Cell(rows, rs[i], fs[j]))))
  }

  /** `create_rfm_scores_heatmap`'s matrix: None without a table or when
      any of the three score columns is missing. */
  function ScoreHeatmap(data: Option<Frame>): (h: Option<Heatmap>)
    ensures h.None? <==> data.None? || !(data.value.hasRScore && data.value.hasFScore && data.value.hasMScore)
    ensures h.Some? ==> h.value == CountMatrix(data.value.rows)
  {
    if data.None? || !(data.value.hasRScore && data.value.hasFScore && data.value.hasMScore) then None
    else Some(CountMatrix(data.value.rows))
  }

  /** A cell counts exactly the customers with that score pair, so a pair
      no customer has is 0. */
  lemma CellCounts(rows: seq<RfmRow>, r: int, f: int)
    ensures forall x :: x in Group(Group(rows, RScoreOf, r), FScoreOf, f) <==> x in rows && x.rScore == r && x.fScore == f
    ensures (forall x :: x in rows ==> !(x.rScore == r && x.fScore == f)) ==> Cell(rows, r, f) == 0
  {
    var g := Group(Group(rows, RScoreOf, r), FScoreOf, f);
    if |g| > 0 {
      assert g[0] in g;
    }
  }

  function NatValue(n: nat): real { n as real }
  function RowSum(c: seq<nat>): real { SumBy(c, NatValue) }

  /** One row of the matrix adds up to the customers with that R score. */
  lemma HeatmapRowTotal(rows: seq<RfmRow>, i: int)
    requires 0 <= i < |CountMatrix(rows).rScores|
    ensures RowSum(CountMatrix(rows).cells[i]) == |Group(rows, RScoreOf, CountMatrix(rows).rScores[i])| as real
  {
    var h := CountMatrix(rows);
    var s := Group(rows, RScoreOf, h.rScores[i]);
    forall j | 0 <= j < |h.fScores| ensures NatValue(h.cells[i][j]) == SumBy(Group(s, FScoreOf, h.fScores[j]), One) {
      SumOfOnes(Group(s, FScoreOf, h.fScores[j]));
    }
    SumOverMapped(h.fScores, h.cells[i], s, FScoreOf, One, NatValue);
    IncreasingIsDistinct(h.fScores);
    forall x | x in s ensures FScoreOf(x) in h.fScores {
    }
    PartitionSum(h.fScores, s, FScoreOf, One);
    SumOfOnes(s);
  }

  /** All cells of the matrix add up to the number of customers. */
  lemma HeatmapTotal(rows: seq<RfmRow>)
    ensures SumBy(CountMatrix(rows).cells, RowSum) == |rows| as real
  {
    var h := CountMatrix(rows);
    forall i | 0 <= i < |h.rScores| ensures RowSum(h.cells[i]) == SumBy(Group(rows, RScoreOf, h.rScores[i]), One) {
      HeatmapRowTotal(rows, i);
      SumOfOnes(Group(rows, RScoreOf, h.rScores[i]));
    }
    SumOverMapped(h.rScores, h.cells, rows, RScoreOf, One, RowSum);
    IncreasingIsDistinct(h.rScores);
    PartitionSum(h.rScores, rows, RScoreOf, One);
    SumOfOnes(rows);
  }
}
