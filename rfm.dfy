/** `calculate_rfm`: per-customer Recency / Frequency / Monetary metrics,
    their 1..5 scores, the mean RFM score and the segment label. */
module Rfm {
  import opened Wrappers
  import opened Seqs
  import opened Rounding
  import opened Binning
  import opened Segments

  /** One transaction row; dates are day numbers, amounts in currency units. */
  datatype Transaction = Transaction(customerId: int, date: int, amount: real)

  /** One row of the grouped metrics table. */
  datatype Metrics = Metrics(customerId: int, recency: int, frequency: nat, monetary: real)

  /** One row of `rfm_data`. */
  datatype RfmRow = RfmRow(
    customerId: int, recency: int, frequency: nat, monetary: real,
    rScore: int, fScore: int, mScore: int, rfmScore: real, segment: Segment)

  function CustomerOf(t: Transaction): int { t.customerId }
  function AmountOf(t: Transaction): real { t.amount }

  function Dates(txs: seq<Transaction>): (ds: seq<int>)
    ensures |ds| == |txs| && forall i :: 0 <= i < |txs| ==> ds[i] == txs[i].date
  {
    seq(|txs|, i requires 0 <= i < |txs| => txs[i].date)
  }

  /** The group keys of `groupby(customer_id)`: distinct ids, ascending. */
  function CustomerIds(txs: seq<Transaction>): (ids: seq<int>)
    ensures StrictlyIncreasing(ids)
    ensures forall c :: c in ids <==> exists t :: t in txs && t.customerId == c
  {
    var all := seq(|txs|, i requires 0 <= i < |txs| => txs[i].customerId);
    assert forall c :: c in all <==> exists t :: t in txs && t.customerId == c by {
      forall c ensures c in all <==> exists t :: t in txs && t.customerId == c {
        if c in all { var i :| 0 <= i < |all| && all[i] == c; assert txs[i] in txs; }
        if exists t :: t in txs && t.customerId == c {
          var t :| t in txs && t.customerId == c;
          var i :| 0 <= i < |txs| && txs[i] == t;
          assert all[i] == c;
        }
      }
    }
    SortedDistinct(all)
  }

  /** The transactions of customer c. */
  function Purchases(txs: seq<Transaction>, c: int): (g: seq<Transaction>)
    ensures forall t :: t in g <==> t in txs && t.customerId == c
  {
    Group(txs, CustomerOf, c)
  }

  /** `max` of the transaction dates: the default analysis date. */
  function LatestDate(txs: seq<Transaction>): (d: int)
    requires |txs| > 0
    ensures exists t :: t in txs && t.date == d
    ensures forall t :: t in txs ==> t.date <= d
  {
    var ds := Dates(txs);
    var d := Max(ds);
    assert forall t :: t in txs ==> t.date in ds by {
      forall t | t in txs ensures t.date in ds {
        var i :| 0 <= i < |txs| && txs[i] == t;
        assert ds[i] == t.date;
      }
    }
    var i :| 0 <= i < |ds| && ds[i] == d;
    assert txs[i] in txs;
    d
  }

  /** The aggregation of one group: days since the last purchase, the
      number of purchases, and the total spent rounded to two decimals. */
  function CustomerMetrics(txs: seq<Transaction>, analysisDate: int, c: int): (m: Metrics)
    requires c in CustomerIds(txs)
    ensures m.customerId == c
    ensures m.frequency >= 1 && m.frequency == |Purchases(txs, c)|
    ensures m.recency == analysisDate - LatestDate(Purchases(txs, c))
    ensures m.monetary == Round2(SumBy(Purchases(txs, c), AmountOf))
  {
    var g := Purchases(txs, c);
    assert |g| > 0 by { var t :| t in txs && t.customerId == c; assert t in g; }
    Metrics(c, analysisDate - LatestDate(g), |g|, Round2(SumBy(g, AmountOf)))
  }

  function MetricsFor(txs: seq<Transaction>, analysisDate: int, ids: seq<int>): (ms: seq<Metrics>)
    requires forall c :: c in ids ==> c in CustomerIds(txs)
    ensures |ms| == |ids|
    ensures forall i :: 0 <= i < |ids| ==> ms[i] == CustomerMetrics(txs, analysisDate, ids[i])
  {
    seq(|ids|, i requires 0 <= i < |ids| => CustomerMetrics(txs, analysisDate, ids[i]))
  }

  /** The grouped table, one row per group key. */
  function MetricsTable(txs: seq<Transaction>, analysisDate: int): (ms: seq<Metrics>)
    ensures |ms| == |CustomerIds(txs)|
    ensures forall i :: 0 <= i < |ms| ==> ms[i] == CustomerMetrics(txs, analysisDate, CustomerIds(txs)[i])
  {
    MetricsFor(txs, analysisDate, CustomerIds(txs))
  }

  /** The customer-id column of the metrics table. */
  function RowIds(ms: seq<Metrics>): (ids: seq<int>)
    ensures |ids| == |ms| && forall i :: 0 <= i < |ms| ==> ids[i] == ms[i].customerId
  {
    seq(|ms|, i requires 0 <= i < |ms| => ms[i].customerId)
  }

  /** There is exactly one row per distinct customer id (the id column is
      strictly ascending and holds exactly the ids of the transactions), and
      each row's Frequency is that customer's number of transactions, at
      least one. */
  lemma OneRowPerCustomer(txs: seq<Transaction>, analysisDate: int)
    ensures StrictlyIncreasing(RowIds(MetricsTable(txs, analysisDate)))
    ensures forall c :: c in RowIds(MetricsTable(txs, analysisDate)) <==> exists t :: t in txs && t.customerId == c
    ensures var ms := MetricsTable(txs, analysisDate);
      forall i :: 0 <= i < |ms| ==> ms[i].frequency >= 1 && ms[i].frequency == |Purchases(txs, ms[i].customerId)|
  {
    var ms := MetricsTable(txs, analysisDate);
    assert RowIds(ms) == CustomerIds(txs);
  }

  /** With the default analysis date (the latest transaction date) no
      Recency is negative, and a customer's Recency is 0 exactly when that
      customer holds the latest transaction. */
  lemma DefaultRecency(txs: seq<Transaction>, i: int)
    requires |txs| > 0
    requires 0 <= i < |MetricsTable(txs, LatestDate(txs))|
    ensures var m := MetricsTable(txs, LatestDate(txs))[i];
      && m.recency >= 0
      && (m.recency == 0 <==> exists t :: t in txs && t.customerId == m.customerId && t.date == LatestDate(txs))
  {
    var d := LatestDate(txs);
    var ids := CustomerIds(txs);
    var m := MetricsTable(txs, d)[i];
    var g := Purchases(txs, m.customerId);
    var last := LatestDate(g);
    assert m.recency == d - last;
    var t :| t in g && t.date == last;
    assert t in txs;
    if exists u :: u in txs && u.customerId == m.customerId && u.date == d {
      var u :| u in txs && u.customerId == m.customerId && u.date == d;
      assert u in g;
    }
  }

  /** Every transaction is counted in exactly one customer's Frequency:
      the Frequency column sums to the number of transactions. */
  lemma FrequencyConservation(txs: seq<Transaction>, analysisDate: int)
    ensures SumBy(MetricsTable(txs, analysisDate), FrequencyOf) == |txs| as real
  {
    var ids := CustomerIds(txs);
    IncreasingIsDistinct(ids);
    MetricsSumIsGroupSum(txs, analysisDate, ids);
    PartitionSum(ids, txs, CustomerOf, One);
    SumOfOnes(txs);
  }

  function FrequencyOf(m: Metrics): real { m.frequency as real }

  lemma {:induction false} MetricsSumIsGroupSum(txs: seq<Transaction>, analysisDate: int, ids: seq<int>)
    requires forall c :: c in ids ==> c in CustomerIds(txs)
    ensures SumBy(MetricsFor(txs, analysisDate, ids), FrequencyOf) == SumOverGroups(ids, txs, CustomerOf, One)
  {
    if ids != [] {
      var ms := MetricsFor(txs, analysisDate, ids);
      assert ms[1..] == MetricsFor(txs, analysisDate, ids[1..]);
      MetricsSumIsGroupSum(txs, analysisDate, ids[1..]);
      SumOfOnes(Purchases(txs, ids[0]));
    }
  }

  /** Every transaction amount is counted in exactly one customer's total:
      before rounding, the per-customer totals add up to the total of all
      transaction amounts. */
  lemma MonetaryConservation(txs: seq<Transaction>)
    ensures SumOverGroups(CustomerIds(txs), txs, CustomerOf, AmountOf) == SumBy(txs, AmountOf)
  {
    IncreasingIsDistinct(CustomerIds(txs));
    PartitionSum(CustomerIds(txs), txs, CustomerOf, AmountOf);
  }

  // ------------------------------------------------------------ scoring

  function Recencies(ms: seq<Metrics>): (r: seq<int>)
    ensures |r| == |ms| && forall i :: 0 <= i < |ms| ==> r[i] == ms[i].recency
  {
    seq(|ms|, i requires 0 <= i < |ms| => ms[i].recency)
  }

  function Frequencies(ms: seq<Metrics>): (r: seq<real>)
    ensures |r| == |ms| && forall i :: 0 <= i < |ms| ==> r[i] == ms[i].frequency as real
  {
    seq(|ms|, i requires 0 <= i < |ms| => ms[i].frequency as real)
  }

  function Monetaries(ms: seq<Metrics>): (r: seq<real>)
    ensures |r| == |ms| && forall i :: 0 <= i < |ms| ==> r[i] == ms[i].monetary
  {
    seq(|ms|, i requires 0 <= i < |ms| => ms[i].monetary)
  }

  /** Row i of the scored table. */
  function ScoreRow(ms: seq<Metrics>, i: int): (row: RfmRow)
    requires 0 <= i < |ms|
    ensures 1 <= row.rScore <= 5 && 1 <= row.fScore <= 5 && 1 <= row.mScore <= 5
    ensures 1.0 <= row.rfmScore <= 5.0
  {
    var rec := Recencies(ms);
    var lo, hi := Min(rec), Max(rec);
    assert rec[i] in rec;
    RankFacts(Frequencies(ms), i, i);
    RankFacts(Monetaries(ms), i, i);
    var r := RecencyScore(ms[i].recency, lo, hi);
    var f := RankScore(Rank(Frequencies(ms), i), |ms|);
    var m := RankScore(Rank(Monetaries(ms), i), |ms|);
    RfmRow(ms[i].customerId, ms[i].recency, ms[i].frequency, ms[i].monetary,
           r, f, m, (r + f + m) as real / 3.0, Classify(r, f, m))
  }

  /** The metrics table with its score columns, RFM_Score and Segment. */
  function ScoreTable(ms: seq<Metrics>): (rows: seq<RfmRow>)
    ensures |rows| == |ms|
    ensures forall i :: 0 <= i < |ms| ==> rows[i] == ScoreRow(ms, i)
  {
    seq(|ms|, i requires 0 <= i < |ms| => ScoreRow(ms, i))
  }

  /** `calculate_rfm`: fails (None) on an empty transaction table, where
      binning has nothing to cut; otherwise the scored table, with the
      analysis date defaulting to the latest transaction date. */
  function RfmTable(txs: seq<Transaction>, analysisDate: Option<int>): (r: Option<seq<RfmRow>>)
    ensures r.None? <==> |txs| == 0
    ensures r.Some? ==> |r.value| == |CustomerIds(txs)| > 0
  {
    if |txs| == 0 then None
    else
      assert txs[0].customerId in CustomerIds(txs) by { assert txs[0] in txs; }
      var date := analysisDate.GetOr(LatestDate(txs));
      Some(ScoreTable(MetricsTable(txs, date)))
  }

  // ------------------------------------------------------------ properties of the scores

  /** Each row keeps its customer's metrics and carries scores in 1..5:
      R_Score is 6 minus the equal-width bin of its Recency between the
      column's minimum and maximum, F_Score and M_Score the bins of the
      first-occurrence ranks of Frequency and Monetary. RFM_Score is their
      mean and the label is the cascade's. */
  lemma ScoreRowFacts(ms: seq<Metrics>, i: int)
    requires 0 <= i < |ms|
    ensures ms[i].recency in Recencies(ms)
    ensures 1 <= Rank(Frequencies(ms), i) <= |ms| && 1 <= Rank(Monetaries(ms), i) <= |ms|
    ensures var row, rec := ScoreRow(ms, i), Recencies(ms);
      && Min(rec) <= ms[i].recency <= Max(rec)
      && row.customerId == ms[i].customerId && row.recency == ms[i].recency
      && row.frequency == ms[i].frequency && row.monetary == ms[i].monetary
      && row.rScore == 6 - EqualWidthBin(ms[i].recency, Min(rec), Max(rec))
      && row.fScore == EqualWidthBin(Rank(Frequencies(ms), i), 1, |ms|)
      && row.mScore == EqualWidthBin(Rank(Monetaries(ms), i), 1, |ms|)
      && IsScore(row.rScore) && IsScore(row.fScore) && IsScore(row.mScore)
      && row.rfmScore * 3.0 == (row.rScore + row.fScore + row.mScore) as real
      && 1.0 <= row.rfmScore <= 5.0
      && row.segment == Classify(row.rScore, row.fScore, row.mScore)
  {
    assert Recencies(ms)[i] in Recencies(ms);
    RankFacts(Frequencies(ms), i, i);
    RankFacts(Monetaries(ms), i, i);
  }

  /** A customer with a smaller Recency never gets a lower R score. */
  lemma RScoreAntitone(ms: seq<Metrics>, i: int, j: int)
    requires 0 <= i < |ms| && 0 <= j < |ms|
    requires ms[i].recency <= ms[j].recency
    ensures ScoreRow(ms, i).rScore >= ScoreRow(ms, j).rScore
  {
    var rec := Recencies(ms);
    assert rec[i] in rec && rec[j] in rec;
    RecencyScoreAntitone(ms[i].recency, ms[j].recency, Min(rec), Max(rec));
  }

  /** A customer with more purchases never gets a lower F score; between
      equal counts the one further down the table never scores lower. */
  lemma FScoreMonotone(ms: seq<Metrics>, i: int, j: int)
    requires 0 <= i < |ms| && 0 <= j < |ms|
    requires ms[i].frequency < ms[j].frequency || (ms[i].frequency == ms[j].frequency && i <= j)
    ensures ScoreRow(ms, i).fScore <= ScoreRow(ms, j).fScore
  {
    var xs := Frequencies(ms);
    RankFacts(xs, i, j);
    RankFacts(xs, j, j);
    RankScoreMonotone(Rank(xs, i), Rank(xs, j), |ms|);
  }

  /** The same for the Monetary column and its M score. */
  lemma MScoreMonotone(ms: seq<Metrics>, i: int, j: int)
    requires 0 <= i < |ms| && 0 <= j < |ms|
    requires ms[i].monetary < ms[j].monetary || (ms[i].monetary == ms[j].monetary && i <= j)
    ensures ScoreRow(ms, i).mScore <= ScoreRow(ms, j).mScore
  {
    var xs := Monetaries(ms);
    RankFacts(xs, i, j);
    RankFacts(xs, j, j);
    RankScoreMonotone(Rank(xs, i), Rank(xs, j), |ms|);
  }
}
